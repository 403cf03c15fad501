/**
 * An INI file as a list of lines: what reading a key means, what setting one
 * does to the lines, and the laws between the two.
 *
 * A header belongs to a section when its name begins the section's name, and a
 * line to a key when what stands before its '=' begins the key.
 */
module IniLines {

  datatype Option<T> = None | Some(value: T)

  // -------------------------------------------------------------- lines

  predicate IsSpace(c: char) { c == ' ' || '\t' <= c <= '\r' }

  /** No end of line, end of text or end of file, and nothing printf would act on. */
  predicate Plain(c: char) {
    c != '\0' && c != '\n' && c != '\r' && c != '%' && c != (255 as char)
  }

  predicate AllPlain(s: string) { forall i :: 0 <= i < |s| ==> Plain(s[i]) }

  /** The first '=' of a line, or its end. */
  function EqualsAt(line: string): (e: nat)
    ensures e <= |line| && (e < |line| ==> line[e] == '=') && forall i :: 0 <= i < e ==> line[i] != '='
  {
    if line == "" || line[0] == '=' then 0 else 1 + EqualsAt(line[1..])
  }

  predicate IsHeader(line: string) {
    |line| >= 2 && line[0] == '[' && line[|line| - 1] == ']' && forall i :: 0 <= i < |line| - 1 ==> line[i] != ']'
  }

  function Name(line: string): string
    requires IsHeader(line)
  {
    line[1..|line| - 1]
  }

  predicate Belongs(line: string, key: string) {
    var e := EqualsAt(line);
    0 < e < |line| && line[0] != ';' && line[..e] <= key
  }

  function Value(line: string): string
    requires EqualsAt(line) < |line|
  {
    line[EqualsAt(line) + 1..]
  }

  predicate WellFormedLine(line: string) {
    && AllPlain(line)
    && (line != "" ==> !IsSpace(line[0]) && (line[0] == '[' ==> IsHeader(line)))
  }

  predicate WellFormed(lines: seq<string>) {
    forall i :: 0 <= i < |lines| ==> WellFormedLine(lines[i])
  }

  predicate SectionName(section: string) { AllPlain(section) && ']' !in section }

  predicate KeyName(key: string) {
    AllPlain(key) && key != "" && '=' !in key && key[0] != ';' && key[0] != '[' && !IsSpace(key[0])
  }

  // ------------------------------------------------------------ reading

  /** What the key has in the lines; `inside` says whether they start inside the section. */
  function Lookup(lines: seq<string>, section: string, key: string, inside: bool): Option<string> {
    if lines == [] then None
    else if IsHeader(lines[0]) then Lookup(lines[1..], section, key, Name(lines[0]) <= section)
    else if inside && Belongs(lines[0], key) then Some(Value(lines[0]))
    else Lookup(lines[1..], section, key, inside)
  }

  /** Whether the lines end inside the section. */
  function Inside(lines: seq<string>, section: string, inside: bool): bool {
    if lines == [] then inside
    else Inside(lines[1..], section, if IsHeader(lines[0]) then Name(lines[0]) <= section else inside)
  }

  lemma {:induction false} LookupConcat(a: seq<string>, b: seq<string>, section: string, key: string, inside: bool)
    ensures Inside(a + b, section, inside) == Inside(b, section, Inside(a, section, inside))
    ensures Lookup(a + b, section, key, inside)
         == if Lookup(a, section, key, inside).Some? then Lookup(a, section, key, inside)
            else Lookup(b, section, key, Inside(a, section, inside))
  {
    if a == [] {
      assert a + b == b;
    } else {
      assert (a + b)[0] == a[0] && (a + b)[1..] == a[1..] + b;
      LookupConcat(a[1..], b, section, key, if IsHeader(a[0]) then Name(a[0]) <= section else inside);
    }
  }

  /** Line n stands in the section: the last header before it, if there is one, belongs to the section. */
  ghost predicate InSection(lines: seq<string>, section: string, inside: bool, n: nat)
    requires n <= |lines|
  {
    || (inside && forall k :: 0 <= k < n ==> !IsHeader(lines[k]))
    || exists h :: 0 <= h < n && IsHeader(lines[h]) && Name(lines[h]) <= section
         && forall k :: h < k < n ==> !IsHeader(lines[k])
  }

  ghost predicate HasKey(lines: seq<string>, section: string, key: string, inside: bool, n: nat)
    requires n < |lines|
  {
    !IsHeader(lines[n]) && Belongs(lines[n], key) && InSection(lines, section, inside, n)
  }

  lemma InSectionLater(lines: seq<string>, section: string, inside: bool, n: nat)
    requires 0 < n <= |lines|
    ensures InSection(lines, section, inside, n)
       <==> InSection(lines[1..], section, if IsHeader(lines[0]) then Name(lines[0]) <= section else inside, n - 1)
  {
    hide IsHeader;
    var rest := lines[1..];
    assert forall k :: 0 < k < n ==> lines[k] == rest[k - 1];
    assert forall k :: 0 <= k < n - 1 ==> rest[k] == lines[k + 1];
  }

  lemma HasKeyLater(lines: seq<string>, section: string, key: string, inside: bool, n: nat)
    requires n + 1 < |lines|
    ensures HasKey(lines, section, key, inside, n + 1)
       <==> HasKey(lines[1..], section, key, if IsHeader(lines[0]) then Name(lines[0]) <= section else inside, n)
  {
    hide IsHeader, Belongs, InSection;
    InSectionLater(lines, section, inside, n + 1);
  }

  /** Reading a key means the value of the first line that has the key in the section. */
  lemma {:induction false} LookupAt(lines: seq<string>, section: string, key: string, inside: bool, n: nat)
    requires n < |lines| && HasKey(lines, section, key, inside, n)
    requires forall m :: 0 <= m < n ==> !HasKey(lines, section, key, inside, m)
    ensures Lookup(lines, section, key, inside) == Some(Value(lines[n]))
  {
    hide IsHeader, Belongs, Value, InSection;
    FirstInSection(lines, section, inside);
    if n > 0 {
      assert !HasKey(lines, section, key, inside, 0);
      var inside' := if IsHeader(lines[0]) then Name(lines[0]) <= section else inside;
      HasKeyLater(lines, section, key, inside, n - 1);
      forall m | 0 <= m < n - 1 ensures !HasKey(lines[1..], section, key, inside', m) {
        HasKeyLater(lines, section, key, inside, m);
      }
      LookupAt(lines[1..], section, key, inside', n - 1);
    }
  }

  /** And there is nothing to read exactly when no line has it. */
  lemma {:induction false} LookupNone(lines: seq<string>, section: string, key: string, inside: bool)
    ensures Lookup(lines, section, key, inside) == None
       <==> forall n :: 0 <= n < |lines| ==> !HasKey(lines, section, key, inside, n)
  {
    hide IsHeader, Belongs, Value, InSection;
    if lines != [] {
      FirstInSection(lines, section, inside);
      var inside' := if IsHeader(lines[0]) then Name(lines[0]) <= section else inside;
      LookupNone(lines[1..], section, key, inside');
      forall n | 0 <= n < |lines| - 1
        ensures HasKey(lines, section, key, inside, n + 1) <==> HasKey(lines[1..], section, key, inside', n)
      {
        HasKeyLater(lines, section, key, inside, n);
      }
      assert HasKey(lines, section, key, inside, 0) ==> Lookup(lines, section, key, inside) != None;
      assert forall n :: 0 < n < |lines| ==>
               HasKey(lines, section, key, inside, n) == HasKey(lines[1..], section, key, inside', n - 1);
    }
  }

  lemma FirstInSection(lines: seq<string>, section: string, inside: bool)
    ensures InSection(lines, section, inside, 0) <==> inside
  {
  }

  // ------------------------------------------------------------ setting

  /** The line that has the key, or the line to insert it before, or nothing. */
  datatype Place = Found(line: nat) | Insert(line: nat) | NoSection

  function NotBlank(lines: seq<string>, n: nat): (m: nat)
    requires n <= |lines|
    ensures n <= m <= |lines| && (forall i :: n <= i < m ==> lines[i] == "") && (m < |lines| ==> lines[m] != "")
    decreases |lines| - n
  {
    if n < |lines| && lines[n] == "" then NotBlank(lines, n + 1) else n
  }

  function Locate(lines: seq<string>, section: string, key: string, n: nat, inside: bool, place: Place): Place
    requires n <= |lines|
    decreases |lines| - n
  {
    if n == |lines| then place
    else if IsHeader(lines[n]) then
      if Name(lines[n]) <= section then Locate(lines, section, key, n + 1, true, Insert(NotBlank(lines, n + 1)))
      else Locate(lines, section, key, n + 1, false, place)
    else if inside && Belongs(lines[n], key) then Found(n)
    else Locate(lines, section, key, n + 1, inside, place)
  }

  function KeyLine(key: string, value: string): string { key + "=" + value }

  function NewValue(line: string, value: string): string
    requires EqualsAt(line) < |line|
  {
    line[..EqualsAt(line) + 1] + value
  }

  /** The lines after the key has been set at a place. */
  function Put(lines: seq<string>, section: string, key: string, value: string, place: Place): seq<string>
    requires place.Found? ==> place.line < |lines| && EqualsAt(lines[place.line]) < |lines[place.line]|
    requires place.Insert? ==> place.line <= |lines|
  {
    match place
    case Found(n) => lines[..n] + [NewValue(lines[n], value)] + lines[n + 1..]
    case Insert(n) => lines[..n] + [KeyLine(key, value)] + lines[n..]
    case NoSection => lines + (if lines == [] then [] else [""]) + ["[" + section + "]", KeyLine(key, value)]
  }

  /** What a place found says about reading. */
  ghost predicate PlaceFits(lines: seq<string>, section: string, key: string, place: Place) {
    match place
    case Found(n) =>
      && n < |lines| && !IsHeader(lines[n]) && Belongs(lines[n], key)
      && Inside(lines[..n], section, false) && Lookup(lines[..n], section, key, false) == None
    case Insert(n) =>
      n <= |lines| && Inside(lines[..n], section, false) && Lookup(lines, section, key, false) == None
    case NoSection => Lookup(lines, section, key, false) == None
  }

  /** What is known of an insertion place before the whole file has been seen. */
  ghost predicate PlaceSoFar(lines: seq<string>, section: string, place: Place) {
    match place
    case Found(n) => false
    case Insert(n) => n <= |lines| && Inside(lines[..n], section, false)
    case NoSection => true
  }

  lemma {:induction false} InsideBlanks(lines: seq<string>, section: string, inside: bool)
    requires forall i :: 0 <= i < |lines| ==> lines[i] == ""
    ensures Inside(lines, section, inside) == inside
  {
    if lines != [] {
      InsideBlanks(lines[1..], section, inside);
    }
  }

  lemma StepOver(lines: seq<string>, section: string, key: string, n: nat)
    requires n < |lines|
    ensures var inside := Inside(lines[..n], section, false);
            var after := if IsHeader(lines[n]) then Name(lines[n]) <= section else inside;
            && Inside(lines[..n + 1], section, false) == after
            && (Lookup(lines[..n], section, key, false) == None
                && (IsHeader(lines[n]) || !inside || !Belongs(lines[n], key))
                ==> Lookup(lines[..n + 1], section, key, false) == None)
  {
    assert lines[..n + 1] == lines[..n] + [lines[n]];
    LookupConcat(lines[..n], [lines[n]], section, key, false);
    var inside := Inside(lines[..n], section, false);
    assert [lines[n]][1..] == [];
  }

  lemma {:induction false} LocateFits(lines: seq<string>, section: string, key: string, n: nat, place: Place)
    requires n <= |lines| && PlaceSoFar(lines, section, place)
    requires Lookup(lines[..n], section, key, false) == None
    ensures PlaceFits(lines, section, key, Locate(lines, section, key, n, Inside(lines[..n], section, false), place))
    decreases |lines| - n
  {
    if n == |lines| {
      assert lines[..n] == lines;
    } else {
      StepOver(lines, section, key, n);
      var inside := Inside(lines[..n], section, false);
      if IsHeader(lines[n]) && Name(lines[n]) <= section {
        var m := NotBlank(lines, n + 1);
        assert lines[..m] == lines[..n + 1] + lines[n + 1..m];
        LookupConcat(lines[..n + 1], lines[n + 1..m], section, key, false);
        InsideBlanks(lines[n + 1..m], section, true);
        LocateFits(lines, section, key, n + 1, Insert(m));
      } else if IsHeader(lines[n]) || !inside || !Belongs(lines[n], key) {
        LocateFits(lines, section, key, n + 1, place);
      }
    }
  }

  /** Reading is looking at the place. */
  lemma LookupAtPlace(lines: seq<string>, section: string, key: string, place: Place)
    requires PlaceFits(lines, section, key, place)
    ensures place.Found? ==> place.line < |lines| && EqualsAt(lines[place.line]) < |lines[place.line]|
    ensures Lookup(lines, section, key, false) == if place.Found? then Some(Value(lines[place.line])) else None
  {
    if place.Found? {
      var n := place.line;
      assert lines == lines[..n] + [lines[n]] + lines[n + 1..];
      OneLine(lines[..n], lines[n], lines[n + 1..], section, key);
    }
  }

  function SetKey(lines: seq<string>, section: string, key: string, value: string): seq<string> {
    var place := Locate(lines, section, key, 0, false, NoSection);
    LocateFits(lines, section, key, 0, NoSection);
    Put(lines, section, key, value, place)
  }

  // --------------------------------------------------------------- laws

  lemma KeyLineBelongs(key: string, value: string)
    requires KeyName(key)
    ensures var line := KeyLine(key, value);
            && EqualsAt(line) == |key| && !IsHeader(line) && Value(line) == value && line[..|key|] == key
            && forall k :: Belongs(line, k) <==> key <= k
  {
    var line := KeyLine(key, value);
    assert line[|key|] == '=';
    assert forall i :: 0 <= i < |key| ==> line[i] == key[i] && line[i] in key;
    assert EqualsAt(line) == |key|;
  }

  lemma NewValueBelongs(line: string, value: string)
    requires WellFormedLine(line) && !IsHeader(line) && 0 < EqualsAt(line) < |line|
    ensures var after := NewValue(line, value);
            && EqualsAt(after) == EqualsAt(line) < |after| && !IsHeader(after) && Value(after) == value
            && forall k :: Belongs(after, k) <==> Belongs(line, k)
  {
    var after, e := NewValue(line, value), EqualsAt(line);
    assert forall i :: 0 <= i <= e ==> after[i] == line[i];
    assert EqualsAt(after) == e;
    assert after[..e] == line[..e];
  }

  lemma HeaderFor(section: string)
    requires SectionName(section)
    ensures IsHeader("[" + section + "]") && Name("[" + section + "]") == section
  {
    var line := "[" + section + "]";
    assert forall i :: 0 < i < |line| - 1 ==> line[i] == section[i - 1] && line[i] in section;
  }

  /** What a key that has just been set reads. */
  lemma ReadAfterSet(lines: seq<string>, section: string, key: string, value: string)
    requires WellFormed(lines) && SectionName(section) && KeyName(key)
    ensures Lookup(SetKey(lines, section, key, value), section, key, false) == Some(value)
  {
    LocateFits(lines, section, key, 0, NoSection);
    match Locate(lines, section, key, 0, false, NoSection)
    case Found(n) =>
      NewValueBelongs(lines[n], value);
      OneLine(lines[..n], NewValue(lines[n], value), lines[n + 1..], section, key);
    case Insert(n) =>
      KeyLineBelongs(key, value);
      assert lines == lines[..n] + lines[n..];
      LookupConcat(lines[..n], lines[n..], section, key, false);
      OneLine(lines[..n], KeyLine(key, value), lines[n..], section, key);
    case NoSection =>
      KeyLineBelongs(key, value);
      HeaderFor(section);
      AtTheEnd(lines, section, key, value, section, key);
  }

  /** A line of the key, where nothing before it has the key. */
  lemma OneLine(a: seq<string>, line: string, b: seq<string>, section: string, key: string)
    requires !IsHeader(line)
    ensures var after := Inside(a, section, false);
            Lookup(a + [line] + b, section, key, false)
            == if Lookup(a, section, key, false).Some? then Lookup(a, section, key, false)
               else if after && Belongs(line, key) then Some(Value(line))
               else Lookup(b, section, key, after)
  {
    assert a + [line] + b == a + ([line] + b);
    LookupConcat(a, [line] + b, section, key, false);
    assert ([line] + b)[0] == line && ([line] + b)[1..] == b;
  }

  /** A new section at the end of the file. */
  lemma AtTheEnd(lines: seq<string>, section: string, key: string, value: string, section': string, key': string)
    requires SectionName(section) && KeyName(key)
    ensures Lookup(Put(lines, section, key, value, NoSection), section', key', false)
         == if Lookup(lines, section', key', false).Some? then Lookup(lines, section', key', false)
            else if section <= section' && key <= key' then Some(value) else None
  {
    var header, line := "[" + section + "]", KeyLine(key, value);
    HeaderFor(section);
    KeyLineBelongs(key, value);
    var blank := if lines == [] then [] else [""];
    var inside := Inside(lines, section', false);
    assert Put(lines, section, key, value, NoSection) == lines + (blank + ([header] + [line]));
    LookupConcat(lines, blank + ([header] + [line]), section', key', false);
    LookupConcat(blank, [header] + [line], section', key', inside);
    assert Lookup(blank, section', key', inside) == None by {
      assert blank != [] ==> blank[0] == "" && !Belongs("", key') && blank[1..] == [];
    }
    assert ([header] + [line])[0] == header && ([header] + [line])[1..] == [line];
    var after := section <= section';
    assert Lookup([line], section', key', after) == if after && key <= key' then Some(value) else None by {
      assert [line][0] == line && [line][1..] == [];
    }
    assert forall i :: Lookup([header] + [line], section', key', i) == Lookup([line], section', key', after);
  }

  // --------------------------------------------------------- other keys

  /** The names in the lines begin no other name that is looked up. */
  ghost predicate Exact(lines: seq<string>, section: string, key: string) {
    forall i :: 0 <= i < |lines| ==> ExactLine(lines[i], section, key)
  }

  predicate ExactLine(line: string, section: string, key: string) {
    && (IsHeader(line) && Name(line) <= section ==> Name(line) == section)
    && (!IsHeader(line) && Belongs(line, key) ==> line[..EqualsAt(line)] == key)
  }

  /** Inside the section, the lines are inside each section whose name this one begins. */
  lemma {:induction false} InsideExact(lines: seq<string>, section: string, key: string, section': string,
                                       inside: bool, inside': bool)
    requires Exact(lines, section, key) && (inside ==> (inside' <==> section <= section'))
    ensures Inside(lines, section, inside) ==> (Inside(lines, section', inside') <==> section <= section')
  {
    if lines != [] {
      var h := lines[0];
      InsideExact(lines[1..], section, key, section',
                  if IsHeader(h) then Name(h) <= section else inside,
                  if IsHeader(h) then Name(h) <= section' else inside');
    }
  }

  /** Setting one key leaves another as it was, unless section and key both begin the other's. */
  lemma OthersAfterSet(lines: seq<string>, section: string, key: string, value: string, section': string, key': string)
    requires WellFormed(lines) && SectionName(section) && KeyName(key) && Exact(lines, section, key)
    requires !(section <= section' && key <= key')
    ensures Lookup(SetKey(lines, section, key, value), section', key', false) == Lookup(lines, section', key', false)
  {
    LocateFits(lines, section, key, 0, NoSection);
    match Locate(lines, section, key, 0, false, NoSection)
    case Found(n) =>
      assert lines == lines[..n] + [lines[n]] + lines[n + 1..];
      InsideExact(lines[..n], section, key, section', false, false);
      NewValueBelongs(lines[n], value);
      assert lines[n][..EqualsAt(lines[n])] == key;
      OneLine(lines[..n], lines[n], lines[n + 1..], section', key');
      OneLine(lines[..n], NewValue(lines[n], value), lines[n + 1..], section', key');
    case Insert(n) =>
      assert lines == lines[..n] + lines[n..];
      InsideExact(lines[..n], section, key, section', false, false);
      KeyLineBelongs(key, value);
      LookupConcat(lines[..n], lines[n..], section', key', false);
      OneLine(lines[..n], KeyLine(key, value), lines[n..], section', key');
    case NoSection =>
      AtTheEnd(lines, section, key, value, section', key');
  }

  ghost predicate Untouched(lines: seq<string>, section: string, key: string, value: string, section': string, key': string)
  {
    Lookup(SetKey(lines, section, key, value), section', key', false) == Lookup(lines, section', key', false)
  }

  /** No file lets setting one key touch the other exactly when one pair of names does not begin the other. */
  lemma OthersAfterSetIff(section: string, key: string, value: string, section': string, key': string)
    requires SectionName(section) && KeyName(key)
    ensures (forall lines :: WellFormed(lines) && Exact(lines, section, key)
                             ==> Untouched(lines, section, key, value, section', key'))
            <==> !(section <= section' && key <= key')
  {
    if section <= section' && key <= key' {
      AtTheEnd([], section, key, value, section', key');
      assert Exact([], section, key) && WellFormed([]);
      assert !Untouched([], section, key, value, section', key');
    } else {
      forall lines | WellFormed(lines) && Exact(lines, section, key)
        ensures Untouched(lines, section, key, value, section', key')
      {
        OthersAfterSet(lines, section, key, value, section', key');
      }
    }
  }

  /** Reading the other key in this file stops at the place where the setter writes. */
  ghost predicate Reached(lines: seq<string>, key: string, section: string, place: Place, section': string, key': string)
    requires place.Found? ==> place.line < |lines|
    requires place.Insert? ==> place.line <= |lines|
  {
    match place
    case Found(n) =>
      Inside(lines[..n], section', false) && Lookup(lines[..n], section', key', false) == None && Belongs(lines[n], key')
    case Insert(n) =>
      Inside(lines[..n], section', false) && Lookup(lines[..n], section', key', false) == None && key <= key'
    case NoSection =>
      Lookup(lines, section', key', false) == None && section <= section' && key <= key'
  }

  /** What the other key reads afterwards. */
  lemma OtherAfterPut(lines: seq<string>, section: string, key: string, value: string, section': string, key': string)
    requires WellFormed(lines) && SectionName(section) && KeyName(key)
    ensures var place := Locate(lines, section, key, 0, false, NoSection);
            && PlaceFits(lines, section, key, place)
            && Lookup(SetKey(lines, section, key, value), section', key', false)
               == if Reached(lines, key, section, place, section', key') then Some(value)
                  else Lookup(lines, section', key', false)
  {
    LocateFits(lines, section, key, 0, NoSection);
    match Locate(lines, section, key, 0, false, NoSection)
    case Found(n) =>
      assert lines == lines[..n] + [lines[n]] + lines[n + 1..];
      NewValueBelongs(lines[n], value);
      OneLine(lines[..n], lines[n], lines[n + 1..], section', key');
      OneLine(lines[..n], NewValue(lines[n], value), lines[n + 1..], section', key');
    case Insert(n) =>
      assert lines == lines[..n] + lines[n..];
      KeyLineBelongs(key, value);
      LookupConcat(lines[..n], lines[n..], section', key', false);
      OneLine(lines[..n], KeyLine(key, value), lines[n..], section', key');
    case NoSection =>
      AtTheEnd(lines, section, key, value, section', key');
  }

  /**
   * In any one file, no value set for one key touches another exactly when
   * reading the other does not stop where the setter writes.
   */
  lemma OthersInFileIff(lines: seq<string>, section: string, key: string, section': string, key': string)
    requires WellFormed(lines) && SectionName(section) && KeyName(key)
    ensures var place := Locate(lines, section, key, 0, false, NoSection);
            && PlaceFits(lines, section, key, place)
            && ((forall value :: AllPlain(value) ==> Untouched(lines, section, key, value, section', key'))
                <==> !Reached(lines, key, section, place, section', key'))
  {
    OtherAfterPut(lines, section, key, "a", section', key');
    OtherAfterPut(lines, section, key, "b", section', key');
    hide Lookup, SetKey, PlaceFits, Locate, Reached;
    var place := Locate(lines, section, key, 0, false, NoSection);
    if Reached(lines, key, section, place, section', key') {
      assert AllPlain("a") && AllPlain("b");
      assert !Untouched(lines, section, key, "a", section', key') || !Untouched(lines, section, key, "b", section', key');
    } else {
      forall value | AllPlain(value) ensures Untouched(lines, section, key, value, section', key') {
        OtherAfterPut(lines, section, key, value, section', key');
      }
    }
  }

  /** A header that begins the section's name lets one section's key change another's: a witness. */
  lemma PrefixHeaderTouches()
    ensures var lines := ["[net]"];
            WellFormed(lines) && !("network" <= "net") && !Untouched(lines, "network", "k", "v", "net", "k")
  {
    var lines := ["[net]"];
    assert IsHeader(lines[0]) && Name(lines[0]) == "net";
    assert Locate(lines, "network", "k", 0, false, NoSection) == Insert(1);
    assert KeyName("k") && SectionName("network");
    OtherAfterPut(lines, "network", "k", "v", "net", "k");
    assert lines[..1] == lines && lines[1..] == [] && lines[0..] == lines;
    assert Inside(lines, "net", false) && Lookup(lines, "net", "k", false) == None;
  }

  // ---------------------------------------------- where a new key goes

  /** The line after the last line of the section that begins at header h. */
  function SectionEnd(lines: seq<string>, h: nat): (e: nat)
    requires h < |lines|
    ensures h < e <= |lines| && (forall i :: h < i < e ==> !IsHeader(lines[i])) && (e < |lines| ==> IsHeader(lines[e]))
    decreases |lines| - h
  {
    if h + 1 == |lines| || IsHeader(lines[h + 1]) then h + 1 else SectionEnd(lines, h + 1)
  }

  /** Header h is the last of the first n lines that belongs to the section. */
  ghost predicate LastHeader(lines: seq<string>, n: nat, section: string, h: nat) {
    && h < n <= |lines| && IsHeader(lines[h]) && Name(lines[h]) <= section
    && forall i :: h < i < n && IsHeader(lines[i]) ==> !(Name(lines[i]) <= section)
  }

  /** Before line n has been seen, the insertion place is behind the last header so far. */
  ghost predicate InsertSoFar(lines: seq<string>, section: string, n: nat, place: Place)
    requires n <= |lines|
  {
    match place
    case Found(_) => false
    case Insert(m) => exists h :: 0 <= h < n && LastHeader(lines, n, section, h) && m == NotBlank(lines, h + 1)
    case NoSection => forall h :: 0 <= h < n && IsHeader(lines[h]) ==> !(Name(lines[h]) <= section)
  }

  lemma {:induction false} LocateInserts(lines: seq<string>, section: string, key: string, n: nat, inside: bool, place: Place)
    requires n <= |lines| && InsertSoFar(lines, section, n, place)
    ensures var r := Locate(lines, section, key, n, inside, place);
            r.Found? || InsertSoFar(lines, section, |lines|, r)
    decreases |lines| - n
  {
    if n < |lines| {
      hide Belongs, IsHeader, Name;
      if IsHeader(lines[n]) && Name(lines[n]) <= section {
        assert LastHeader(lines, n + 1, section, n);
        LocateInserts(lines, section, key, n + 1, true, Insert(NotBlank(lines, n + 1)));
      } else {
        if place.Insert? {
          var h :| 0 <= h < n && LastHeader(lines, n, section, h) && place.line == NotBlank(lines, h + 1);
          assert LastHeader(lines, n + 1, section, h);
        }
        if IsHeader(lines[n]) {
          LocateInserts(lines, section, key, n + 1, false, place);
        } else if !inside || !Belongs(lines[n], key) {
          LocateInserts(lines, section, key, n + 1, inside, place);
        }
      }
    }
  }

  /**
   * A key that is not there goes directly behind the last header of its
   * section and the blank lines after it; that is also the end of the section
   * exactly when the section has no other lines.
   */
  lemma InsertPlace(lines: seq<string>, section: string, key: string, h: nat)
    requires Lookup(lines, section, key, false) == None
    requires h < |lines| && LastHeader(lines, |lines|, section, h)
    ensures Locate(lines, section, key, 0, false, NoSection) == Insert(NotBlank(lines, h + 1))
    ensures NotBlank(lines, h + 1) == SectionEnd(lines, h) <==> forall i :: h < i < SectionEnd(lines, h) ==> lines[i] == ""
    ensures NotBlank(lines, h + 1) <= SectionEnd(lines, h)
  {
    hide Locate, Belongs, NotBlank, SectionEnd, Name, Value;
    LocateFits(lines, section, key, 0, NoSection);
    var place := Locate(lines, section, key, 0, false, NoSection);
    LookupAtPlace(lines, section, key, place);
    LocateInserts(lines, section, key, 0, false, NoSection);
    var last: nat :| last < |lines| && LastHeader(lines, |lines|, section, last) && place.line == NotBlank(lines, last + 1);
    assert last == h;
    assert !IsHeader("");
  }

  /** The lines of the new file: old ones, and those the setter writes. */
  lemma PutLines(lines: seq<string>, section: string, key: string, value: string, place: Place)
    requires place.Found? ==> place.line < |lines| && EqualsAt(lines[place.line]) < |lines[place.line]|
    requires place.Insert? ==> place.line <= |lines|
    ensures forall x :: x in Put(lines, section, key, value, place) ==>
              || x in lines || x == KeyLine(key, value) || x == "" || x == "[" + section + "]"
              || (place.Found? && x == NewValue(lines[place.line], value))
  {
  }

  /** A file that is well formed stays so. */
  lemma SetKeepsWellFormed(lines: seq<string>, section: string, key: string, value: string)
    requires WellFormed(lines) && SectionName(section) && KeyName(key) && AllPlain(value)
    ensures WellFormed(SetKey(lines, section, key, value))
  {
    LocateFits(lines, section, key, 0, NoSection);
    var header, line := "[" + section + "]", KeyLine(key, value);
    HeaderFor(section);
    assert WellFormedLine(header) && WellFormedLine("");
    assert WellFormedLine(line) by {
      assert line[0] == key[0];
    }
    match Locate(lines, section, key, 0, false, NoSection)
    case Found(n) =>
      var after := NewValue(lines[n], value);
      NewValueBelongs(lines[n], value);
      assert after[0] == lines[n][0];
      assert WellFormedLine(after);
    case _ =>
  }

  /** The names stay exact, so the laws hold again for the next key. */
  lemma SetKeepsExact(lines: seq<string>, section: string, key: string, value: string, section': string, key': string)
    requires WellFormed(lines) && SectionName(section) && KeyName(key)
    requires Exact(lines, section', key')
    requires section <= section' ==> section == section'
    requires key <= key' ==> key == key'
    ensures Exact(SetKey(lines, section, key, value), section', key')
  {
    LocateFits(lines, section, key, 0, NoSection);
    var header, line := "[" + section + "]", KeyLine(key, value);
    HeaderFor(section);
    KeyLineBelongs(key, value);
    assert ExactLine(line, section', key') && ExactLine("", section', key');
    assert ExactLine(header, section', key');
    var place := Locate(lines, section, key, 0, false, NoSection);
    if place.Found? {
      var line0 := lines[place.line];
      var after := NewValue(line0, value);
      NewValueBelongs(line0, value);
      assert after[..EqualsAt(after)] == line0[..EqualsAt(after)];
      assert ExactLine(after, section', key');
    }
    var after := SetKey(lines, section, key, value);
    PutLines(lines, section, key, value, place);
    hide ExactLine, SetKey, Put, NewValue, KeyLine, Locate, PlaceFits;
    forall i | 0 <= i < |after| ensures ExactLine(after[i], section', key') {
      assert after[i] in after;
    }
  }
}
