/**
 * The INI file of the network settings: a parser that walks the text by index,
 * and a setter that rewrites the text around the positions the parser reports.
 * A header matches a section that it is a prefix of, and likewise for keys.
 */
module IniConfig {
  import opened IniLines

  // --------------------------------------------------------- characters

  /** The buffer is filled with zeros behind the text. */
  function At(t: string, i: nat): char { if i < |t| then t[i] else '\0' }

  predicate IsNewline(c: char) { c == '\n' || c == '\r' }

  predicate IsLineStart(t: string, i: nat) { i == 0 || IsNewline(At(t, i - 1)) }

  function LineEnd(t: string, i: nat): (e: nat)
    ensures i <= e && (e <= |t| || e == i) && (IsNewline(At(t, e)) || At(t, e) == '\0')
    decreases |t| - i
  {
    if IsNewline(At(t, i)) || At(t, i) == '\0' then i else LineEnd(t, i + 1)
  }

  function HeaderEnd(t: string, i: nat): (e: nat)
    ensures i <= e && (e <= |t| || e == i)
    decreases |t| - i
  {
    if At(t, i) == ']' || At(t, i) == '\0' then i else HeaderEnd(t, i + 1)
  }

  function SpaceEnd(t: string, i: nat): (e: nat)
    ensures i <= e && (e <= |t| || e == i)
    decreases |t| - i
  {
    if IsSpace(At(t, i)) then SpaceEnd(t, i + 1) else i
  }

  /** The first '=' of the line from j to e, or e. */
  function EqualSign(t: string, j: nat, e: nat): (k: nat)
    requires j <= e
    ensures j <= k <= e
    decreases e - j
  {
    if j == e || At(t, j) == '=' then j else EqualSign(t, j + 1, e)
  }

  // ------------------------------------------------------------ the scan

  /** The out-parameters of parse_file; -1 for what was not found. */
  datatype Span = Span(secS: int, secE: int, keyS: int, keyE: int, valueS: int, valueE: int)

  datatype SectionScan = Hit(lineStart: nat, equals: nat, lineEnd: nat) | Miss(next: nat)

  /** The line from i to e is no comment, and what stands before its '=' begins the key. */
  predicate KeyAt(t: string, i: nat, e: nat, key: string)
    requires i <= e && (e <= |t| || e == i)
  {
    var j := EqualSign(t, i, e);
    At(t, i) != ';' && i < j < e && t[i..j] <= key
  }

  /** The lines of a section from i on, up to the next header. */
  function ScanSection(t: string, key: string, i: nat): (r: SectionScan)
    requires 0 < i
    ensures r.Miss? ==> i <= r.next && (r.next <= |t| + 1 || r.next == i)
    decreases |t| + 1 - i
  {
    if (IsNewline(At(t, i - 1)) && At(t, i) == '[') || At(t, i) == '\0' then Miss(i)
    else
      var e := LineEnd(t, i);
      if KeyAt(t, i, e, key) then Hit(i, EqualSign(t, i, e), e) else ScanSection(t, key, e + 1)
  }

  function ScanFile(t: string, section: string, key: string, i: nat, secS: int, secE: int): Span
    requires i <= |t| + 1
    decreases |t| + 1 - i
  {
    if At(t, i) == '\0' then Span(secS, secE, -1, -1, -1, -1)
    else if IsLineStart(t, i) && At(t, i) == '[' then
      var c := HeaderEnd(t, i + 1);
      if t[i + 1..c] <= section then
        var b := SpaceEnd(t, c + 1);
        match ScanSection(t, key, b)
        case Hit(l, j, e) => Span(i + 1, b, l, j - 1, j + 1, e)
        case Miss(n) => ScanFile(t, section, key, n, i + 1, b)
      else ScanFile(t, section, key, c, secS, secE)
    else ScanFile(t, section, key, i + 1, secS, secE)
  }

  /** From i on, to the ']' of a header or the end of the text. */
  method FindHeaderEnd(buf: string, i: nat) returns (e: nat)
    ensures e == HeaderEnd(buf, i)
  {
    e := i;
    while At(buf, e) != ']' && At(buf, e) != '\0'
      invariant i <= e && HeaderEnd(buf, e) == HeaderEnd(buf, i)
      decreases |buf| - e
    {
      e := e + 1;
    }
  }

  method SkipSpaces(buf: string, i: nat) returns (e: nat)
    ensures e == SpaceEnd(buf, i)
  {
    e := i;
    while IsSpace(At(buf, e))
      invariant i <= e && SpaceEnd(buf, e) == SpaceEnd(buf, i)
      decreases |buf| - e
    {
      e := e + 1;
    }
  }

  method FindLineEnd(buf: string, i: nat) returns (e: nat)
    ensures e == LineEnd(buf, i)
  {
    e := i;
    while !IsNewline(At(buf, e)) && At(buf, e) != '\0'
      invariant i <= e && LineEnd(buf, e) == LineEnd(buf, i)
      decreases |buf| - e
    {
      e := e + 1;
    }
  }

  /** strncmp of the text from i to e, which holds no NUL, against a name. */
  predicate Begins(t: string, i: nat, e: nat, name: string)
    requires i <= e <= |t|
  {
    t[i..e] <= name
  }

  /** The '=' of one line, if what stands before it begins the key. */
  method FindKey(buf: string, lineStart: nat, lineEnd: nat, key: string) returns (hit: bool, j: nat)
    requires lineStart <= lineEnd && (lineEnd <= |buf| || lineEnd == lineStart) && At(buf, lineEnd) != '='
    ensures hit <==> KeyAt(buf, lineStart, lineEnd, key)
    ensures hit ==> j == EqualSign(buf, lineStart, lineEnd)
  {
    hit, j := false, lineStart;
    if At(buf, j) != ';' {
      while j < lineEnd && At(buf, j) != '='
        invariant lineStart <= j <= lineEnd
        invariant EqualSign(buf, j, lineEnd) == EqualSign(buf, lineStart, lineEnd)
        invariant lineStart < j < lineEnd && At(buf, j) == '=' ==> !(buf[lineStart..j] <= key)
        decreases lineEnd - j
      {
        j := j + 1;
        if At(buf, j) == '=' {
          if Begins(buf, lineStart, j, key) {
            return true, j;
          }
        }
      }
    }
  }

  /** The lines of a matching section. */
  method ParseSection(key: string, buf: string, i0: nat) returns (r: SectionScan)
    requires 0 < i0
    ensures r == ScanSection(buf, key, i0)
  {
    var i := i0;
    while !(IsNewline(At(buf, i - 1)) && At(buf, i) == '[') && At(buf, i) != '\0'
      invariant i0 <= i && ScanSection(buf, key, i) == ScanSection(buf, key, i0)
      decreases |buf| + 1 - i
    {
      var lineStart := i;
      i := FindLineEnd(buf, i);
      var hit, j := FindKey(buf, lineStart, i, key);
      if hit {
        return Hit(lineStart, j, i);
      }
      i := i + 1;
    }
    r := Miss(i);
  }

  method ParseFile(section: string, key: string, buf: string) returns (found: bool, r: Span)
    ensures r == ScanFile(buf, section, key, 0, -1, -1)
    ensures found <==> r.keyS != -1
  {
    hide ScanSection, HeaderEnd, SpaceEnd, LineEnd, KeyAt, EqualSign, IsSpace, IsNewline;
    var i := 0;
    var secS: int, secE: int := -1, -1;
    while At(buf, i) != '\0'
      invariant i <= |buf| + 1
      invariant ScanFile(buf, section, key, i, secS, secE) == ScanFile(buf, section, key, 0, -1, -1)
      decreases |buf| + 1 - i
    {
      if (i == 0 || IsNewline(At(buf, i - 1))) && At(buf, i) == '[' {
        var sectionStart := i + 1;
        i := FindHeaderEnd(buf, i + 1);
        if Begins(buf, sectionStart, i, section) {
          secS := sectionStart;
          secE := SkipSpaces(buf, i + 1);
          var lines := ParseSection(key, buf, secE);
          match lines {
            case Hit(lineStart, j, lineEnd) =>
              return true, Span(secS, secE, lineStart, j - 1, j + 1, lineEnd);
            case Miss(next) =>
              i := next;
          }
        }
      } else {
        i := i + 1;
      }
    }
    found, r := false, Span(secS, secE, -1, -1, -1, -1);
  }

  // ------------------------------------------------ the text of the lines

  function Text(lines: seq<string>): string {
    if lines == [] then "" else Text(lines[..|lines| - 1]) + lines[|lines| - 1] + "\n"
  }

  /** Where line n begins. */
  function Pos(lines: seq<string>, n: nat): nat
    requires n <= |lines|
  {
    |Text(lines[..n])|
  }

  lemma {:induction false} TextConcat(a: seq<string>, b: seq<string>)
    ensures Text(a + b) == Text(a) + Text(b)
  {
    if b == [] {
      assert a + b == a;
    } else {
      var c := b[..|b| - 1];
      assert (a + b)[..|a + b| - 1] == a + c;
      TextConcat(a, c);
      assert Text(a) + (Text(c) + b[|b| - 1] + "\n") == Text(a) + Text(c) + b[|b| - 1] + "\n";
    }
  }

  lemma TextOne(line: string)
    ensures Text([line]) == line + "\n"
  {
    assert [line][..0] == [];
  }

  /** The text has the line at p, and what follows is its newline. */
  ghost predicate LineAt(t: string, p: nat, line: string) {
    p + |line| < |t| && t[p..p + |line|] == line && t[p + |line|] == '\n'
  }

  lemma LineBetween(a: string, line: string, b: string)
    ensures LineAt(a + line + "\n" + b, |a|, line)
  {
    var t := a + line + "\n" + b;
    assert t == a + (line + ("\n" + b));
    assert t[|a|..|a| + |line|] == line;
  }

  lemma TextSnoc(lines: seq<string>, n: nat)
    requires n < |lines|
    ensures Text(lines[..n + 1]) == Text(lines[..n]) + lines[n] + "\n"
  {
    assert lines[..n + 1][..n] == lines[..n];
  }

  lemma TextAt(lines: seq<string>, n: nat)
    requires n < |lines|
    ensures LineAt(Text(lines), Pos(lines, n), lines[n])
    ensures Pos(lines, n + 1) == Pos(lines, n) + |lines[n]| + 1 <= |Text(lines)|
    ensures Text(lines) == Text(lines[..n]) + lines[n] + "\n" + Text(lines[n + 1..])
  {
    hide LineAt;
    TextSnoc(lines, n);
    hide Text;
    assert lines == lines[..n + 1] + lines[n + 1..];
    TextConcat(lines[..n + 1], lines[n + 1..]);
    LineBetween(Text(lines[..n]), lines[n], Text(lines[n + 1..]));
  }

  lemma TextBefore(lines: seq<string>, n: nat)
    requires n <= |lines|
    ensures Pos(lines, n) <= |Text(lines)| && IsLineStart(Text(lines), Pos(lines, n))
    ensures n > 0 ==> Pos(lines, n) > 0
    ensures n == |lines| ==> Pos(lines, n) == |Text(lines)|
    ensures Text(lines[..n]) == Text(lines)[..Pos(lines, n)] && Text(lines[n..]) == Text(lines)[Pos(lines, n)..]
  {
    assert lines == lines[..n] + lines[n..];
    TextConcat(lines[..n], lines[n..]);
  }

  // --------------------------------------------- walking over one line

  lemma {:induction false} LineEndAt(t: string, p: nat, line: string, j: nat)
    requires LineAt(t, p, line) && AllPlain(line) && j <= |line|
    ensures LineEnd(t, p + j) == p + |line|
    decreases |line| - j
  {
    if j < |line| {
      assert t[p + j] == t[p..p + |line|][j];
      LineEndAt(t, p, line, j + 1);
    }
  }

  lemma {:induction false} EqualSignAt(t: string, p: nat, line: string, j: nat)
    requires LineAt(t, p, line) && j <= |line|
    ensures EqualSign(t, p + j, p + |line|) == p + j + EqualsAt(line[j..])
    decreases |line| - j
  {
    if j < |line| {
      assert t[p + j] == t[p..p + |line|][j];
      EqualSignAt(t, p, line, j + 1);
      assert line[j..][1..] == line[j + 1..];
    }
  }

  lemma {:induction false} HeaderEndAt(t: string, p: nat, line: string, j: nat)
    requires LineAt(t, p, line) && AllPlain(line) && IsHeader(line) && 0 < j < |line|
    ensures HeaderEnd(t, p + j) == p + |line| - 1
    decreases |line| - j
  {
    assert t[p + j] == t[p..p + |line|][j];
    if j < |line| - 1 {
      HeaderEndAt(t, p, line, j + 1);
    }
  }

  lemma KeyAtIs(t: string, p: nat, line: string, key: string)
    requires LineAt(t, p, line)
    ensures KeyAt(t, p, p + |line|, key) <==> Belongs(line, key)
    ensures EqualSign(t, p, p + |line|) == p + EqualsAt(line)
  {
    EqualSignAt(t, p, line, 0);
    assert line[0..] == line;
    var e := EqualsAt(line);
    assert t[p..p + e] == line[..e];
    if |line| > 0 {
      assert t[p] == t[p..p + |line|][0];
    }
  }

  /** Outside the section, the scan runs to the next line. */
  lemma {:induction false} SkipLine(t: string, p: nat, line: string, j: nat, section: string, key: string,
                                    secS: int, secE: int)
    requires LineAt(t, p, line) && AllPlain(line) && j <= |line|
    requires j == 0 && line != "" ==> line[0] != '['
    ensures ScanFile(t, section, key, p + j, secS, secE) == ScanFile(t, section, key, p + |line| + 1, secS, secE)
    decreases |line| - j
  {
    if j < |line| {
      assert t[p + j] == t[p..p + |line|][j];
      if j > 0 {
        assert t[p + j - 1] == t[p..p + |line|][j - 1];
      }
      SkipLine(t, p, line, j + 1, section, key, secS, secE);
    }
  }

  // ------------------------------------------- the scan against the lines

  /** The next line that ends the search of a section: a header, or a line of the key. */
  function Stop(lines: seq<string>, key: string, n: nat): (m: nat)
    requires n <= |lines|
    ensures n <= m <= |lines| && (m < |lines| ==> IsHeader(lines[m]) || Belongs(lines[m], key))
    decreases |lines| - n
  {
    if n == |lines| || IsHeader(lines[n]) || Belongs(lines[n], key) then n else Stop(lines, key, n + 1)
  }

  lemma {:induction false} LocateStop(lines: seq<string>, section: string, key: string, n: nat, place: Place)
    requires n <= |lines|
    ensures var m := Stop(lines, key, n);
            Locate(lines, section, key, n, true, place)
            == if m < |lines| && !IsHeader(lines[m]) then Found(m) else Locate(lines, section, key, m, false, place)
    decreases |lines| - n
  {
    if n < |lines| && !IsHeader(lines[n]) && !Belongs(lines[n], key) {
      LocateStop(lines, section, key, n + 1, place);
    }
  }

  lemma {:induction false} LocateBlanks(lines: seq<string>, section: string, key: string, n: nat, place: Place)
    requires n <= |lines|
    ensures Locate(lines, section, key, n, true, place)
         == Locate(lines, section, key, NotBlank(lines, n), true, place)
    decreases |lines| - n
  {
    if n < |lines| && lines[n] == "" {
      LocateBlanks(lines, section, key, n + 1, place);
    }
  }

  lemma {:induction false} SpaceEndAt(lines: seq<string>, n: nat)
    requires WellFormed(lines) && n <= |lines|
    ensures SpaceEnd(Text(lines), Pos(lines, n)) == Pos(lines, NotBlank(lines, n))
    decreases |lines| - n
  {
    hide Text, Pos, IsHeader, AllPlain;
    TextBefore(lines, n);
    if n < |lines| {
      TextAt(lines, n);
      if lines[n] == "" {
        SpaceEndAt(lines, n + 1);
      } else {
        assert Text(lines)[Pos(lines, n)] == Text(lines)[Pos(lines, n)..Pos(lines, n) + |lines[n]|][0] == lines[n][0];
      }
    }
  }

  lemma FirstChar(t: string, p: nat, line: string)
    requires LineAt(t, p, line)
    ensures At(t, p) == if line == "" then '\n' else line[0]
  {
    if line != "" {
      assert t[p] == t[p..p + |line|][0];
    }
  }

  lemma SectionStep(t: string, p: nat, line: string, key: string)
    requires LineAt(t, p, line) && WellFormedLine(line) && 0 < p && IsNewline(At(t, p - 1))
    ensures ScanSection(t, key, p)
         == if IsHeader(line) then Miss(p)
            else if Belongs(line, key) then Hit(p, p + EqualsAt(line), p + |line|)
            else ScanSection(t, key, p + |line| + 1)
  {
    FirstChar(t, p, line);
    LineEndAt(t, p, line, 0);
    KeyAtIs(t, p, line, key);
    hide KeyAt, LineEnd, EqualSign, LineAt, AllPlain, Belongs;
  }

  lemma {:induction false} SectionAt(lines: seq<string>, key: string, n: nat)
    requires WellFormed(lines) && 0 < n <= |lines|
    ensures Pos(lines, n) > 0
    ensures var m := Stop(lines, key, n);
            ScanSection(Text(lines), key, Pos(lines, n))
            == if m < |lines| && !IsHeader(lines[m])
               then Hit(Pos(lines, m), Pos(lines, m) + EqualsAt(lines[m]), Pos(lines, m) + |lines[m]|)
               else Miss(Pos(lines, m))
    decreases |lines| - n
  {
    hide Pos, Text, LineAt, WellFormedLine, IsHeader, Belongs, EqualsAt, ScanSection, ScanFile;
    TextBefore(lines, n);
    ScanFileEnd(Text(lines), "", key, -1, -1);
    if n < |lines| {
      TextAt(lines, n);
      SectionStep(Text(lines), Pos(lines, n), lines[n], key);
      if !IsHeader(lines[n]) && !Belongs(lines[n], key) {
        SectionAt(lines, key, n + 1);
      }
    }
  }

  /** The positions that stand for a place among the lines. */
  ghost predicate Agrees(lines: seq<string>, span: Span, place: Place) {
    match place
    case Found(m) =>
      && m < |lines| && span.secS != -1
      && span.keyS == Pos(lines, m)
      && span.valueS == Pos(lines, m) + EqualsAt(lines[m]) + 1
      && span.valueE == Pos(lines, m) + |lines[m]|
    case Insert(m) => m <= |lines| && span.keyS == -1 && span.secS != -1 && span.secE == Pos(lines, m)
    case NoSection => span.keyS == -1 && span.secS == -1
  }

  /** A header up to its ']'. */
  lemma HeaderName(t: string, p: nat, line: string)
    requires LineAt(t, p, line) && AllPlain(line) && IsHeader(line)
    ensures HeaderEnd(t, p + 1) == p + |line| - 1 && t[p + 1..p + |line| - 1] == Name(line)
  {
    HeaderEndAt(t, p, line, 1);
    hide HeaderEnd, IsHeader, AllPlain;
    var name := t[p + 1..p + |line| - 1];
    assert forall j :: 0 <= j < |name| ==> name[j] == t[p..p + |line|][j + 1];
  }

  /** A line that does not open the section. */
  lemma FileStep(t: string, p: nat, line: string, section: string, key: string, secS: int, secE: int)
    requires LineAt(t, p, line) && WellFormedLine(line) && IsLineStart(t, p)
    requires IsHeader(line) ==> !(Name(line) <= section)
    ensures ScanFile(t, section, key, p, secS, secE) == ScanFile(t, section, key, p + |line| + 1, secS, secE)
  {
    FirstChar(t, p, line);
    if IsHeader(line) {
      HeaderName(t, p, line);
      SkipLine(t, p, line, |line| - 1, section, key, secS, secE);
      hide HeaderEnd, IsHeader, Name, LineAt, AllPlain;
    } else {
      SkipLine(t, p, line, 0, section, key, secS, secE);
    }
  }

  lemma SpaceAfter(t: string, p: nat, line: string)
    requires LineAt(t, p, line)
    ensures SpaceEnd(t, p + |line|) == SpaceEnd(t, p + |line| + 1)
  {
  }

  /** A line that does. */
  lemma HeaderStep(t: string, p: nat, line: string, section: string, key: string, secS: int, secE: int)
    requires LineAt(t, p, line) && WellFormedLine(line) && IsLineStart(t, p)
    requires IsHeader(line) && Name(line) <= section
    ensures var b := SpaceEnd(t, p + |line| + 1);
            ScanFile(t, section, key, p, secS, secE)
            == match ScanSection(t, key, b)
               case Hit(l, j, e) => Span(p + 1, b, l, j - 1, j + 1, e)
               case Miss(n) => ScanFile(t, section, key, n, p + 1, b)
  {
    hide HeaderEnd, Name, LineAt, AllPlain, ScanSection, SpaceEnd, IsSpace, IsLineStart;
    FirstChar(t, p, line);
    HeaderName(t, p, line);
    SpaceAfter(t, p, line);
    assert t[p] != '\0' && At(t, p) == '[';
  }

  lemma ScanFileEnd(t: string, section: string, key: string, secS: int, secE: int)
    ensures ScanFile(t, section, key, |t|, secS, secE) == Span(secS, secE, -1, -1, -1, -1)
    ensures |t| > 0 ==> ScanSection(t, key, |t|) == Miss(|t|)
  {
  }

  lemma {:induction false} FileAt(lines: seq<string>, section: string, key: string, n: nat,
                                  secS: int, secE: int, place: Place)
    requires WellFormed(lines) && n <= |lines|
    requires !place.Found? && Agrees(lines, Span(secS, secE, -1, -1, -1, -1), place)
    ensures Pos(lines, n) <= |Text(lines)|
    ensures Agrees(lines, ScanFile(Text(lines), section, key, Pos(lines, n), secS, secE),
                   Locate(lines, section, key, n, false, place))
    decreases |lines| - n, 1
  {
    hide Pos, Text, LineAt, WellFormedLine, IsHeader, Agrees, IsLineStart, Belongs, ScanFile, NotBlank;
    TextBefore(lines, n);
    ScanFileEnd(Text(lines), section, key, secS, secE);
    if n < |lines| {
      TextAt(lines, n);
      if IsHeader(lines[n]) && Name(lines[n]) <= section {
        HeaderMatches(lines, section, key, n, secS, secE, place);
      } else {
        FileStep(Text(lines), Pos(lines, n), lines[n], section, key, secS, secE);
        FileAt(lines, section, key, n + 1, secS, secE, place);
      }
    }
  }

  /** From a header that opens the section, the setter's search goes on where the section's lines end. */
  lemma HeaderLocates(lines: seq<string>, section: string, key: string, n: nat, place: Place)
    requires n < |lines| && IsHeader(lines[n]) && Name(lines[n]) <= section
    ensures var m := NotBlank(lines, n + 1);
            var stop := Stop(lines, key, m);
            && n < m <= stop <= |lines|
            && Locate(lines, section, key, n, false, place)
               == if stop < |lines| && !IsHeader(lines[stop]) then Found(stop)
                  else Locate(lines, section, key, stop, false, Insert(m))
  {
    var m := NotBlank(lines, n + 1);
    LocateBlanks(lines, section, key, n + 1, Insert(m));
    LocateStop(lines, section, key, m, Insert(m));
  }

  /** And so does the parser. */
  lemma HeaderScans(lines: seq<string>, section: string, key: string, n: nat, secS: int, secE: int)
    requires WellFormed(lines) && n < |lines| && IsHeader(lines[n]) && Name(lines[n]) <= section
    ensures var t, p := Text(lines), Pos(lines, n);
            var m := NotBlank(lines, n + 1);
            var stop := Stop(lines, key, m);
            && n < m && p <= |t| && Pos(lines, stop) <= |t|
            && ScanFile(t, section, key, p, secS, secE)
               == if stop < |lines| && !IsHeader(lines[stop]) then
                    Span(p + 1, Pos(lines, m), Pos(lines, stop), Pos(lines, stop) + EqualsAt(lines[stop]) - 1,
                         Pos(lines, stop) + EqualsAt(lines[stop]) + 1, Pos(lines, stop) + |lines[stop]|)
                  else ScanFile(t, section, key, Pos(lines, stop), p + 1, Pos(lines, m))
  {
    hide Pos, Text, LineAt, WellFormedLine, IsHeader, IsLineStart, Belongs, Name, ScanFile, ScanSection, SpaceEnd, Stop,
         EqualsAt, Locate, Agrees;
    TextBefore(lines, n);
    TextAt(lines, n);
    HeaderStep(Text(lines), Pos(lines, n), lines[n], section, key, secS, secE);
    SpaceEndAt(lines, n + 1);
    SectionAt(lines, key, NotBlank(lines, n + 1));
    TextBefore(lines, Stop(lines, key, NotBlank(lines, n + 1)));
  }

  lemma {:induction false} HeaderMatches(lines: seq<string>, section: string, key: string, n: nat,
                                         secS: int, secE: int, place: Place)
    requires WellFormed(lines) && n < |lines| && IsHeader(lines[n]) && Name(lines[n]) <= section
    ensures Pos(lines, n) <= |Text(lines)|
    ensures Agrees(lines, ScanFile(Text(lines), section, key, Pos(lines, n), secS, secE),
                   Locate(lines, section, key, n, false, place))
    decreases |lines| - n, 0
  {
    hide Pos, Text, WellFormedLine, IsHeader, Belongs, Name, ScanFile, Stop, Locate, EqualsAt, NotBlank;
    var m := NotBlank(lines, n + 1);
    var stop := Stop(lines, key, m);
    TextBefore(lines, n);
    HeaderLocates(lines, section, key, n, place);
    HeaderScans(lines, section, key, n, secS, secE);
    if !(stop < |lines| && !IsHeader(lines[stop])) {
      FileAt(lines, section, key, stop, Pos(lines, n) + 1, Pos(lines, m), Insert(m));
    }
  }

  /** What the parser reports for well-formed text. */
  lemma ScanAgrees(lines: seq<string>, section: string, key: string)
    requires WellFormed(lines)
    ensures Agrees(lines, ScanFile(Text(lines), section, key, 0, -1, -1),
                   Locate(lines, section, key, 0, false, NoSection))
  {
    assert lines[..0] == [];
    FileAt(lines, section, key, 0, -1, -1, NoSection);
  }

  // ------------------------------------------------- reading and setting

  lemma {:induction false} HitInText(t: string, key: string, i: nat)
    requires 0 < i
    ensures var r := ScanSection(t, key, i);
            r.Hit? ==> i <= r.lineStart < r.equals < r.lineEnd <= |t|
    decreases |t| + 1 - i
  {
    if !((IsNewline(At(t, i - 1)) && At(t, i) == '[') || At(t, i) == '\0') {
      var e := LineEnd(t, i);
      if !KeyAt(t, i, e, key) {
        HitInText(t, key, e + 1);
      }
    }
  }

  /** The positions of a value are positions of the text. */
  lemma {:induction false} SpanInText(t: string, section: string, key: string, i: nat, secS: int, secE: int)
    requires i <= |t| + 1
    ensures var r := ScanFile(t, section, key, i, secS, secE);
            r.keyS != -1 ==> 0 < r.valueS <= r.valueE <= |t|
    decreases |t| + 1 - i
  {
    hide ScanSection, HeaderEnd, SpaceEnd, LineEnd, KeyAt, EqualSign, IsLineStart, IsSpace, IsNewline;
    if At(t, i) != '\0' {
      if IsLineStart(t, i) && At(t, i) == '[' {
        var c := HeaderEnd(t, i + 1);
        if t[i + 1..c] <= section {
          var b := SpaceEnd(t, c + 1);
          HitInText(t, key, b);
          match ScanSection(t, key, b)
          case Hit(l, j, e) =>
          case Miss(n) => SpanInText(t, section, key, n, i + 1, b);
        } else {
          SpanInText(t, section, key, c, secS, secE);
        }
      } else {
        SpanInText(t, section, key, i + 1, secS, secE);
      }
    }
  }

  /** The value the parser's positions name, if any. */
  function ReadText(t: string, section: string, key: string): Option<string> {
    SpanInText(t, section, key, 0, -1, -1);
    var r := ScanFile(t, section, key, 0, -1, -1);
    if r.keyS != -1 then Some(t[r.valueS..r.valueE]) else None
  }

  lemma ValueAt(t: string, p: nat, line: string)
    requires LineAt(t, p, line) && EqualsAt(line) < |line|
    ensures t[p + EqualsAt(line) + 1..p + |line|] == Value(line)
  {
    var e := EqualsAt(line);
    var v := t[p + e + 1..p + |line|];
    assert forall j :: 0 <= j < |v| ==> v[j] == t[p..p + |line|][j + (e + 1)];
  }

  /** The value at the parser's positions. */
  lemma SpanValue(lines: seq<string>, span: Span, n: nat)
    requires Agrees(lines, span, Found(n)) && EqualsAt(lines[n]) < |lines[n]|
    ensures 0 <= span.valueS <= span.valueE <= |Text(lines)|
    ensures Text(lines)[span.valueS..span.valueE] == Value(lines[n])
  {
    hide Text, Pos, LineAt, Value;
    TextAt(lines, n);
    ValueAt(Text(lines), Pos(lines, n), lines[n]);
  }

  /** Reading the text is reading the lines. */
  lemma ReadTextIs(lines: seq<string>, section: string, key: string)
    requires WellFormed(lines)
    ensures ReadText(Text(lines), section, key) == Lookup(lines, section, key, false)
  {
    var place := Locate(lines, section, key, 0, false, NoSection);
    var span := ScanFile(Text(lines), section, key, 0, -1, -1);
    ScanAgrees(lines, section, key);
    LocateFits(lines, section, key, 0, NoSection);
    LookupAtPlace(lines, section, key, place);
    if place.Found? {
      assert span.keyS != -1;
      SpanValue(lines, span, place.line);
    }
    hide ScanFile, Locate, Text, Lookup, Value, PlaceFits, Pos;
  }

  /** The text around the parser's positions. */
  function SetAt(t: string, section: string, key: string, value: string, r: Span): string
    requires r.keyS != -1 ==> 0 <= r.valueS <= r.valueE <= |t|
  {
    if r.secS == -1 then t + (if t == "" then "" else "\n") + ("[" + section + "]") + "\n" + KeyLine(key, value) + "\n"
    else if r.keyS != -1 then t[..r.valueS] + value + t[r.valueE..]
    else if 0 <= r.secE <= |t| then t[..r.secE] + KeyLine(key, value) + "\n" + t[r.secE..]
    else t         // a header without ']': the new line is written behind a NUL
  }

  /** What setIniConfFile writes. */
  function SetText(t: string, section: string, key: string, value: string): string {
    SpanInText(t, section, key, 0, -1, -1);
    SetAt(t, section, key, value, ScanFile(t, section, key, 0, -1, -1))
  }

  /** Setting at the positions that stand for a place is setting there. */
  lemma SetAtPlace(lines: seq<string>, section: string, key: string, value: string, r: Span, place: Place)
    requires Agrees(lines, r, place)
    requires place.Found? ==> EqualsAt(lines[place.line]) < |lines[place.line]|
    requires r.keyS != -1 ==> 0 <= r.valueS <= r.valueE <= |Text(lines)|
    ensures SetAt(Text(lines), section, key, value, r) == Text(Put(lines, section, key, value, place))
  {
    hide Pos, Text, KeyLine, NewValue;
    match place
    case Found(n) => PutFound(lines, value, n);
    case Insert(n) => PutInsert(lines, KeyLine(key, value), n);
    case NoSection => PutSection(lines, "[" + section + "]", KeyLine(key, value));
  }

  /** Setting in the text is setting in the lines. */
  lemma SetTextIs(lines: seq<string>, section: string, key: string, value: string)
    requires WellFormed(lines)
    ensures SetText(Text(lines), section, key, value) == Text(SetKey(lines, section, key, value))
  {
    var place := Locate(lines, section, key, 0, false, NoSection);
    ScanAgrees(lines, section, key);
    LocateFits(lines, section, key, 0, NoSection);
    SpanInText(Text(lines), section, key, 0, -1, -1);
    LookupAtPlace(lines, section, key, place);
    hide ScanFile, Locate, Text, Lookup, Value, PlaceFits, Pos, Put, SetAt, Agrees;
    SetAtPlace(lines, section, key, value, ScanFile(Text(lines), section, key, 0, -1, -1), place);
  }

  /** A stretch of a line replaced in a longer text. */
  lemma Splice(a: string, line: string, e: nat, value: string, b: string)
    requires e <= |line|
    ensures var t := a + line + "\n" + b;
            t[..|a| + e] + value + t[|a| + |line|..] == a + (line[..e] + value) + "\n" + b
  {
    var t := a + line + "\n" + b;
    assert t[..|a| + e] == a + line[..e];
    assert t[|a| + |line|..] == "\n" + b;
  }

  lemma PutFound(lines: seq<string>, value: string, n: nat)
    requires n < |lines| && EqualsAt(lines[n]) < |lines[n]|
    ensures var t, p, line := Text(lines), Pos(lines, n), lines[n];
            && p + |line| <= |t|
            && t[..p + EqualsAt(line) + 1] + value + t[p + |line|..]
               == Text(lines[..n] + [NewValue(line, value)] + lines[n + 1..])
  {
    hide LineAt, Text, EqualsAt;
    TextAt(lines, n);
    Splice(Text(lines[..n]), lines[n], EqualsAt(lines[n]) + 1, value, Text(lines[n + 1..]));
    TextThree(lines[..n], NewValue(lines[n], value), lines[n + 1..]);
  }

  lemma TextThree(a: seq<string>, line: string, b: seq<string>)
    ensures Text(a + [line] + b) == Text(a) + line + "\n" + Text(b)
  {
    TextConcat(a + [line], b);
    TextConcat(a, [line]);
    TextOne(line);
    assert Text(a) + (line + "\n") == Text(a) + line + "\n";
  }

  lemma PutInsert(lines: seq<string>, line: string, n: nat)
    requires n <= |lines|
    ensures var t, p := Text(lines), Pos(lines, n);
            p <= |t| && t[..p] + line + "\n" + t[p..] == Text(lines[..n] + [line] + lines[n..])
  {
    TextBefore(lines, n);
    TextThree(lines[..n], line, lines[n..]);
  }

  lemma TextTwo(a: seq<string>, header: string, line: string)
    ensures Text(a + [header, line]) == Text(a) + header + "\n" + line + "\n"
  {
    assert (a + [header, line])[..|a| + 1] == a + [header];
    assert (a + [header])[..|a|] == a;
  }

  lemma PutSection(lines: seq<string>, header: string, line: string)
    ensures Text(lines + (if lines == [] then [] else [""]) + [header, line])
            == Text(lines) + (if Text(lines) == "" then "" else "\n") + header + "\n" + line + "\n"
  {
    if lines == [] {
      TextTwo([], header, line);
      assert [] + [] + [header, line] == [] + [header, line];
    } else {
      TextTwo(lines + [""], header, line);
      assert (lines + [""])[..|lines|] == lines;
      assert Text(lines + [""]) == Text(lines) + "\n";
    }
  }

  // ------------------------------------------------------ main results

  /** A key that has been set reads as its value, in any well-formed text. */
  lemma ReadTextAfterSet(lines: seq<string>, section: string, key: string, value: string)
    requires WellFormed(lines) && SectionName(section) && KeyName(key) && AllPlain(value)
    ensures ReadText(SetText(Text(lines), section, key, value), section, key) == Some(value)
  {
    SetTextIs(lines, section, key, value);
    SetKeepsWellFormed(lines, section, key, value);
    ReadTextIs(SetKey(lines, section, key, value), section, key);
    ReadAfterSet(lines, section, key, value);
  }

  /** Other keys read as before, if the names do not begin theirs. */
  lemma ReadTextOthers(lines: seq<string>, section: string, key: string, value: string, section': string, key': string)
    requires WellFormed(lines) && SectionName(section) && KeyName(key) && AllPlain(value)
    requires Exact(lines, section, key) && !(section <= section' && key <= key')
    ensures ReadText(SetText(Text(lines), section, key, value), section', key') == ReadText(Text(lines), section', key')
  {
    SetTextIs(lines, section, key, value);
    SetKeepsWellFormed(lines, section, key, value);
    ReadTextIs(SetKey(lines, section, key, value), section', key');
    ReadTextIs(lines, section', key');
    OthersAfterSet(lines, section, key, value, section', key');
  }

  /** In a text whose last header has no ']' the new line is lost. */
  lemma LostWithoutBracket()
    ensures SetText("[a", "a", "k", "v") == "[a" && ReadText("[a", "a", "k") == None
  {
    var t := "[a";
    assert HeaderEnd(t, 2) == 2 && HeaderEnd(t, 1) == 2 && t[1..2] == "a";
    assert SpaceEnd(t, 3) == 3;
    assert ScanSection(t, "k", 3) == Miss(3);
    assert ScanFile(t, "a", "k", 0, -1, -1) == ScanFile(t, "a", "k", 3, 1, 3);
  }

  const CRLF_TEXT := "[a]\r\n \tb=1\r\nc=2\r\n"

  /** Lines that end in CR LF are read without their CR, and space before the first key is skipped. */
  lemma CarriageReturns()
    ensures ReadText(CRLF_TEXT, "a", "b") == Some("1") && ReadText(CRLF_TEXT, "a", "c") == Some("2")
  {
    var t := CRLF_TEXT;
    CrlfEnds();
    assert t[1..2] == "a" && t[7..8] == "b" && t[12..13] == "c" && t[9..10] == "1" && t[14..15] == "2";
    hide HeaderEnd, SpaceEnd, LineEnd, EqualSign;
    assert ScanSection(t, "b", 7) == Hit(7, 8, 10);
    assert ScanSection(t, "c", 12) == Hit(12, 13, 15);
    assert ScanSection(t, "c", 11) == ScanSection(t, "c", 12);
    assert ScanSection(t, "c", 7) == ScanSection(t, "c", 11);
  }

  lemma CrlfEnds()
    ensures var t := CRLF_TEXT;
            && HeaderEnd(t, 1) == 2 && SpaceEnd(t, 3) == 7
            && LineEnd(t, 7) == 10 && LineEnd(t, 11) == 11 && LineEnd(t, 12) == 15
            && EqualSign(t, 7, 10) == 8 && EqualSign(t, 12, 15) == 13
  {
    var t := CRLF_TEXT;
    assert HeaderEnd(t, 2) == 2;
    assert SpaceEnd(t, 7) == 7 && SpaceEnd(t, 6) == 7 && SpaceEnd(t, 5) == 7;
    assert LineEnd(t, 10) == 10 && LineEnd(t, 9) == 10;
    assert LineEnd(t, 15) == 15 && LineEnd(t, 14) == 15;
  }

  lemma SliceOfSlice(t: string, a: nat, b: nat, n: nat)
    requires a <= b <= |t| && n <= b - a
    ensures t[a..b][..n] == t[a..a + n]
  {
  }

  /** The text up to the first c. */
  function UpTo(t: string, c: char): (r: string)
    ensures c !in t ==> r == t
    ensures r <= t && c !in r && (|r| < |t| ==> t[|r|] == c)
  {
    if t == "" || t[0] == c then "" else [t[0]] + UpTo(t[1..], c)
  }

  /** What load_ini_file takes for the file: it compares with EOF as a char. */
  function Loaded(file: Option<string>): string {
    match file
    case None => ""
    case Some(t) => UpTo(t, 255 as char)
  }

  /** A file without that byte is taken whole, and any other up to the first. */
  lemma LoadedIs(t: string)
    ensures (255 as char) !in t ==> Loaded(Some(t)) == t
    ensures var r := Loaded(Some(t)); r <= t && (255 as char) !in r && (r != t ==> t[|r|] == 255 as char)
    ensures Loaded(None) == ""
  {
  }

  /** Well-formed text has none of the characters that files or printf end at. */
  lemma {:induction false} TextClean(lines: seq<string>)
    requires WellFormed(lines)
    ensures '\0' !in Text(lines) && '%' !in Text(lines) && (255 as char) !in Text(lines)
  {
    if lines != [] {
      var front, last := lines[..|lines| - 1], lines[|lines| - 1];
      TextClean(front);
      LineClean(last);
      assert forall c :: c in Text(lines) ==> c in Text(front) || c in last || c == '\n';
    }
  }

  lemma LineClean(line: string)
    requires AllPlain(line)
    ensures '\0' !in line && '%' !in line && (255 as char) !in line
  {
  }

  lemma NoFormatIn(t: string, section: string, key: string)
    requires '%' !in t
    ensures NoFormat(t, section, key)
  {
    var r := ScanFile(t, section, key, 0, -1, -1);
    hide ScanFile;
    if r.secS != -1 && r.keyS == -1 && 0 <= r.secE <= |t| {
      assert forall c :: c in UpTo(t[r.secE..], '\0') ==> c in t[r.secE..];
    }
  }

  /** The text behind the place of a new key is used as a printf format. */
  predicate NoFormat(t: string, section: string, key: string) {
    var r := ScanFile(t, section, key, 0, -1, -1);
    r.secS != -1 && r.keyS == -1 && 0 <= r.secE <= |t| ==> '%' !in UpTo(t[r.secE..], '\0')
  }

  const MAX_FILE_SIZE := 1024

  class IniConfigFile {
    var file: Option<string>       // None when there is no such file

    constructor (file: Option<string>)
      ensures this.file == file
    {
      this.file := file;
    }

    method ReadIniConfFile(section: string, key: string, valueLen: nat) returns (found: bool, value: string)
      requires valueLen > 0 && |Loaded(file)| < MAX_FILE_SIZE
      ensures found <==> file.Some? && ReadText(Loaded(file), section, key).Some?
      ensures value == if !found then " "
                       else var v := ReadText(Loaded(file), section, key).value;
                            if valueLen - 1 < |v| then v[..valueLen - 1] else v
      ensures file.Some? && (255 as char) !in file.value ==>
                (found <==> ReadText(file.value, section, key).Some?)
    {
      hide ScanFile;
      if file.None? {
        return false, " ";
      }
      var buf := Loaded(file);
      var r;
      found, r := ParseFile(section, key, buf);
      SpanInText(buf, section, key, 0, -1, -1);
      if !found {
        return false, " ";
      }
      var count := r.valueE - r.valueS;
      if valueLen - 1 < count {
        count := valueLen - 1;
      }
      value := buf[r.valueS..r.valueS + count];
      SliceOfSlice(buf, r.valueS, r.valueE, count);
    }

    method SetIniConfFile(section: string, key: string, value: string, canWrite: bool) returns (r: int)
      requires |Loaded(file)| < MAX_FILE_SIZE && NoFormat(Loaded(file), section, key)
      requires |section| + |key| + |value| <= 3000
      modifies this
      ensures r == if canWrite then 0 else -1
      ensures file == if canWrite then Some(UpTo(SetText(old(Loaded(file)), section, key, value), '\0')) else old(file)
    {
      hide ScanFile, KeyLine;
      var buf := Loaded(file);
      var found, span := ParseFile(section, key, buf);
      SpanInText(buf, section, key, 0, -1, -1);
      var out;
      if span.secS == -1 {
        if buf == "" {
          out := ("[" + section + "]") + "\n" + KeyLine(key, value) + "\n";
          assert buf + "" + ("[" + section + "]") == "[" + section + "]";
        } else {
          out := buf + "\n" + ("[" + section + "]") + "\n" + KeyLine(key, value) + "\n";
        }
      } else if span.keyS == -1 {
        if 0 <= span.secE <= |buf| {
          out := buf[..span.secE] + KeyLine(key, value) + "\n" + buf[span.secE..];
        } else {
          out := buf;        // the new line is written behind the NUL that ends the text
        }
      } else {
        out := buf[..span.valueS] + value + buf[span.valueE..];
      }
      if !canWrite {
        return -1;
      }
      file := Some(UpTo(out, '\0'));      // fputs
      return 0;
    }
  }

  /** A well-formed file that fits, as a client sees it: a key that has been set reads as its value. */
  method SetThenRead(f: IniConfigFile, lines: seq<string>, section: string, key: string, value: string, valueLen: nat)
    returns (r: int, found: bool, read: string)
    requires WellFormed(lines) && (f.file == Some(Text(lines)) || (f.file.None? && lines == []))
    requires SectionName(section) && KeyName(key) && AllPlain(value)
    requires |section| + |key| + |value| <= 3000 && |value| < valueLen
    requires |Text(lines)| + |section| + |key| + |value| + 6 < 1024
    modifies f
    ensures r == 0 && f.file == Some(Text(SetKey(lines, section, key, value)))
    ensures found && read == value
  {
    hide Text, SetText, ReadText, WellFormed, SetKey, ScanFile, NoFormat, Loaded, UpTo;
    ReadTextAfterSet(lines, section, key, value);
    SetAndLoaded(lines, section, key, value);
    r := f.SetIniConfFile(section, key, value, true);
    found, read := f.ReadIniConfFile(section, key, valueLen);
  }

  /** And any other key reads as before, unless the names of the first begin its own. */
  method ReadSetRead(f: IniConfigFile, lines: seq<string>, section: string, key: string, value: string,
                     section': string, key': string, valueLen: nat)
    returns (before: bool, was: string, after: bool, now: string)
    requires WellFormed(lines) && (f.file == Some(Text(lines)) || (f.file.None? && lines == []))
    requires SectionName(section) && KeyName(key) && AllPlain(value)
    requires Exact(lines, section, key) && !(section <= section' && key <= key')
    requires |section| + |key| + |value| <= 3000 && valueLen > 0
    requires |Text(lines)| + |section| + |key| + |value| + 6 < 1024
    modifies f
    ensures f.file == Some(Text(SetKey(lines, section, key, value)))
    ensures after == before && now == was
    ensures before <==> Lookup(lines, section', key', false).Some?
    ensures before && |Lookup(lines, section', key', false).value| < valueLen ==>
              was == Lookup(lines, section', key', false).value
  {
    hide Text, SetText, ReadText, WellFormed, SetKey, ScanFile, NoFormat, Loaded, UpTo, Exact;
    ReadTextOthers(lines, section, key, value, section', key');
    ReadTextIs(lines, section', key');
    SetAndLoaded(lines, section, key, value);
    before, was := f.ReadIniConfFile(section', key', valueLen);
    var _ := f.SetIniConfFile(section, key, value, true);
    after, now := f.ReadIniConfFile(section', key', valueLen);
  }

  /** Before and after, the file is loaded as it is. */
  lemma SetAndLoaded(lines: seq<string>, section: string, key: string, value: string)
    requires WellFormed(lines) && SectionName(section) && KeyName(key) && AllPlain(value)
    ensures var before, after := Text(lines), SetText(Text(lines), section, key, value);
            && after == Text(SetKey(lines, section, key, value))
            && Loaded(Some(before)) == before && NoFormat(before, section, key)
            && UpTo(after, '\0') == after && Loaded(Some(after)) == after
            && |after| <= |before| + |section| + |key| + |value| + 6
            && Loaded(None) == "" && (lines == [] ==> before == "")
  {
    hide SetKey, WellFormed, ScanFile, NoFormat, SetText;
    SetTextIs(lines, section, key, value);
    SetKeepsWellFormed(lines, section, key, value);
    TextClean(lines);
    TextClean(SetKey(lines, section, key, value));
    NoFormatIn(Text(lines), section, key);
    SetTextLonger(Text(lines), section, key, value);
  }

  lemma SetTextLonger(t: string, section: string, key: string, value: string)
    ensures |SetText(t, section, key, value)| <= |t| + |section| + |key| + |value| + 6
  {
    SpanInText(t, section, key, 0, -1, -1);
    hide ScanFile;
  }
}
