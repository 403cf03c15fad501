/**
 * What setting one key does to another in any text.  A text is a chain of
 * headers, each with the lines up to the next; which headers and lines there
 * are does not depend on the key that is looked for.
 */
module IniOthers {
  import opened IniLines
  import opened IniConfig
  import opened IniAnyText

  // -------------------------------------------------- the chain of headers

  /** The first header from i on, or the end of the text. */
  function NextHeader(t: string, i: nat): (h: nat)
    requires i <= |t|
    ensures i <= h <= |t| && (h < |t| ==> HeaderStart(t, h))
    ensures forall k :: i <= k < h ==> !HeaderStart(t, k)
    decreases |t| - i
  {
    if i == |t| || HeaderStart(t, i) then i else NextHeader(t, i + 1)
  }

  /** Where the lines of header h begin. */
  function Body(t: string, h: nat): (b: nat)
    ensures h + 1 < b
  {
    SpaceEnd(t, HeaderEnd(t, h + 1) + 1)
  }

  /** The header has its ']'. */
  predicate Shut(t: string, h: nat) { HeaderEnd(t, h + 1) < |t| }

  /** The first line that a header of the section holds for the key, from header h on. */
  function Find(t: string, section: string, key: string, h: nat): Option<SectionScan>
    requires h <= |t|
    decreases |t| - h
  {
    if h == |t| || !Shut(t, h) then None
    else if Opens(t, h, section) && ScanSection(t, key, Body(t, h)).Hit? then Some(ScanSection(t, key, Body(t, h)))
    else Find(t, section, key, NextHeader(t, HeaderEnd(t, h + 1)))
  }

  /** The positions of a scan that has found the line. */
  predicate Finds(r: Span, found: Option<SectionScan>) {
    match found
    case None => r.keyS == -1
    case Some(Miss(_)) => false
    case Some(Hit(l, j, e)) => r.keyS == l && r.valueS == j + 1 && r.valueE == e && r.secS != -1
  }

  lemma {:induction false} NextSkips(t: string, i: nat, j: nat)
    requires i <= j <= |t| && forall k :: i <= k < j ==> !HeaderStart(t, k)
    ensures NextHeader(t, i) == NextHeader(t, j)
    decreases j - i
  {
    if i < j {
      NextSkips(t, i + 1, j);
    }
  }

  /** From the ']' of a header to where its lines end there is no header. */
  lemma LinesHoldNone(t: string, key: string, c: nat)
    requires NoNul(t) && c < |t| && t[c] == ']'
    requires ScanSection(t, key, SpaceEnd(t, c + 1)).Miss?
    ensures SpaceEnd(t, c + 1) <= |t|
    ensures var m := ScanSection(t, key, SpaceEnd(t, c + 1)).next;
            c < m <= |t| + 1 && forall k :: c <= k < m && k < |t| ==> !HeaderStart(t, k)
  {
    var b := SpaceEnd(t, c + 1);
    SpaceEndMeans(t, c + 1);
    NoHeaderInSection(t, key, b);
    forall k | c <= k < b && k < |t| ensures !HeaderStart(t, k) {
      if c < k < b {
        assert IsSpace(At(t, k));
      }
    }
  }

  /** The parser walks the chain. */
  lemma {:induction false} ScanFinds(t: string, section: string, key: string, i: nat, secS: int, secE: int)
    requires NoNul(t) && i <= |t|
    ensures Finds(ScanFile(t, section, key, i, secS, secE), Find(t, section, key, NextHeader(t, i)))
    decreases |t| - i, 1
  {
    hide Opens, ScanFile, ScanSection, HeaderEnd, SpaceEnd, HeaderStart, Find;
    ScanStops(t, section, key, i, secS, secE);
    if i == |t| {
      FindEnds(t, section, key);
    } else if HeaderStart(t, i) {
      ScanFindsHeader(t, section, key, i, secS, secE);
    } else {
      IniAnyText.StepOver(t, section, key, i, secS, secE);
      ScanFinds(t, section, key, i + 1, secS, secE);
    }
  }

  lemma FindEnds(t: string, section: string, key: string)
    ensures Find(t, section, key, |t|) == None
  {
  }

  lemma {:induction false} ScanFindsHeader(t: string, section: string, key: string, i: nat, secS: int, secE: int)
    requires NoNul(t) && i < |t| && HeaderStart(t, i)
    ensures Finds(ScanFile(t, section, key, i, secS, secE), Find(t, section, key, i))
    decreases |t| - i, 0
  {
    hide Opens, ScanFile, ScanSection, HeaderEnd, SpaceEnd, HeaderStart;
    var c := HeaderEnd(t, i + 1);
    WhereHeaderEnds(t, i + 1);
    if c == |t| {
      OpenEnds(t, section, key, i, secS, secE);
    } else if !Opens(t, i, section) {
      StepPast(t, section, key, i, c, secS, secE);
      ScanFinds(t, section, key, c, secS, secE);
    } else if ScanSection(t, key, Body(t, i)).Hit? {
      StepHit(t, section, key, i, c, Body(t, i), secS, secE);
    } else {
      var m := ScanSection(t, key, Body(t, i)).next;
      StepMiss(t, section, key, i, c, Body(t, i), secS, secE);
      LinesHoldNone(t, key, c);
      if m <= |t| {
        NextSkips(t, c, m);
        ScanFinds(t, section, key, m, i + 1, Body(t, i));
      } else {
        NextSkips(t, c, |t|);
        FindEnds(t, section, key);
        ScanStops(t, section, key, m, i + 1, Body(t, i));
      }
    }
  }

  /** Reading is finding along the chain. */
  function Found(t: string, found: Option<SectionScan>): Option<string> {
    match found
    case None => None
    case Some(Miss(_)) => None
    case Some(Hit(l, j, e)) => if j + 1 <= e <= |t| then Some(t[j + 1..e]) else None
  }

  lemma ReadFinds(t: string, section: string, key: string)
    requires NoNul(t)
    ensures ReadText(t, section, key) == Found(t, Find(t, section, key, NextHeader(t, 0)))
  {
    ScanFinds(t, section, key, 0, -1, -1);
    SpanInText(t, section, key, 0, -1, -1);
    hide ScanFile, Find;
  }

  // ------------------------------------------------ the same from here on

  /** From i in one text and j in the other the texts are the same. */
  ghost predicate Aligned(t: string, u: string, i: nat, j: nat) {
    |t| - i == |u| - j && forall m :: i <= m ==> At(t, m) == At(u, m - i + j)
  }

  lemma AlignedOn(t: string, u: string, i: nat, j: nat, n: nat)
    requires Aligned(t, u, i, j)
    ensures Aligned(t, u, i + n, j + n) && At(t, i) == At(u, j) && At(t, i + n) == At(u, j + n)
    ensures i <= |t| <==> j <= |u|
    ensures i < |t| <==> j < |u|
  {
    assert At(t, i + n) == At(u, (i + n) - i + j);
    forall m | i + n <= m ensures At(t, m) == At(u, m - (i + n) + (j + n)) {
      assert At(t, m) == At(u, m - i + j);
    }
  }

  lemma AlignedSlice(t: string, u: string, i: nat, j: nat, n: nat)
    requires Aligned(t, u, i, j) && i + n <= |t|
    ensures j + n <= |u| && t[i..i + n] == u[j..j + n]
  {
    forall k | i <= k < i + n ensures t[k] == u[k - i + j] {
      assert At(t, k) == At(u, k - i + j);
    }
  }

  lemma {:induction false} AlignedHeaderEnd(t: string, u: string, i: nat, j: nat)
    requires Aligned(t, u, i, j)
    ensures HeaderEnd(u, j) - j == HeaderEnd(t, i) - i
    decreases |t| - i
  {
    hide Aligned, At;
    AlignedOn(t, u, i, j, 1);
    if At(t, i) != ']' && At(t, i) != '\0' {
      NotPastEnd(t, i);
      AlignedHeaderEnd(t, u, i + 1, j + 1);
    }
  }

  lemma NotPastEnd(t: string, i: nat)
    requires At(t, i) != '\0'
    ensures i < |t|
  {
  }

  lemma {:induction false} AlignedSpaceEnd(t: string, u: string, i: nat, j: nat)
    requires Aligned(t, u, i, j)
    ensures SpaceEnd(u, j) - j == SpaceEnd(t, i) - i
    decreases |t| - i
  {
    hide Aligned, At;
    AlignedOn(t, u, i, j, 1);
    if IsSpace(At(t, i)) {
      NotPastEnd(t, i);
      AlignedSpaceEnd(t, u, i + 1, j + 1);
    }
  }

  lemma {:induction false} AlignedLineEnd(t: string, u: string, i: nat, j: nat)
    requires Aligned(t, u, i, j)
    ensures LineEnd(u, j) - j == LineEnd(t, i) - i
    decreases |t| - i
  {
    hide Aligned, At;
    AlignedOn(t, u, i, j, 1);
    if !IsNewline(At(t, i)) && At(t, i) != '\0' {
      NotPastEnd(t, i);
      AlignedLineEnd(t, u, i + 1, j + 1);
    }
  }

  lemma {:induction false} AlignedEqualSign(t: string, u: string, i: nat, j: nat, n: nat)
    requires Aligned(t, u, i, j)
    ensures EqualSign(u, j, j + n) - j == EqualSign(t, i, i + n) - i
    decreases n
  {
    hide Aligned, At;
    AlignedOn(t, u, i, j, 1);
    if n > 0 && At(t, i) != '=' {
      AlignedEqualSign(t, u, i + 1, j + 1, n - 1);
      assert i + 1 + (n - 1) == i + n && j + 1 + (n - 1) == j + n;
    }
  }

  lemma AlignedKeyAt(t: string, u: string, i: nat, j: nat, key: string)
    requires Aligned(t, u, i, j)
    ensures LineEnd(u, j) - j == LineEnd(t, i) - i
    ensures EqualSign(u, j, LineEnd(u, j)) - j == EqualSign(t, i, LineEnd(t, i)) - i
    ensures KeyAt(u, j, LineEnd(u, j), key) <==> KeyAt(t, i, LineEnd(t, i), key)
  {
    hide Aligned, At, LineEnd, EqualSign;
    var n := LineEnd(t, i) - i;
    AlignedOn(t, u, i, j, 0);
    AlignedLineEnd(t, u, i, j);
    AlignedEqualSign(t, u, i, j, n);
    assert i + n == LineEnd(t, i) && j + n == LineEnd(u, j);
    if i <= |t| {
      AlignedSlice(t, u, i, j, EqualSign(t, i, LineEnd(t, i)) - i);
    }
  }

  /** The scan of a section, n characters further in the other text. */
  ghost predicate SameScan(r: SectionScan, i: nat, r': SectionScan, j: nat) {
    match r
    case Hit(l, q, e) => r'.Hit? && r'.lineStart - j == l - i && r'.equals - j == q - i && r'.lineEnd - j == e - i
    case Miss(m) => r'.Miss? && r'.next - j == m - i
  }

  lemma SameScanOn(r: SectionScan, r': SectionScan, i: nat, j: nat, n: nat)
    requires SameScan(r, i + n, r', j + n)
    ensures SameScan(r, i, r', j)
  {
  }

  lemma {:induction false} AlignedScan(t: string, u: string, key: string, i: nat, j: nat)
    requires Aligned(t, u, i, j) && 0 < i && 0 < j
    requires At(t, i) == '[' ==> (IsNewline(At(t, i - 1)) <==> IsNewline(At(u, j - 1)))
    ensures SameScan(ScanSection(t, key, i), i, ScanSection(u, key, j), j)
    decreases |t| + 1 - i
  {
    hide Aligned, At, LineEnd, EqualSign, KeyAt, IsNewline;
    AlignedOn(t, u, i, j, 0);
    if !((IsNewline(At(t, i - 1)) && At(t, i) == '[') || At(t, i) == '\0') {
      var n := LineEnd(t, i) - i;
      AlignedKeyAt(t, u, i, j, key);
      AlignedOn(t, u, i, j, n);
      AlignedOn(t, u, i, j, n + 1);
      if !KeyAt(t, i, LineEnd(t, i), key) {
        NotPastEnd(t, i);
        AlignedScan(t, u, key, i + n + 1, j + n + 1);
        SameScanOn(ScanSection(t, key, i), ScanSection(u, key, j), i, j, n + 1);
      }
    }
  }

  lemma {:induction false} AlignedNext(t: string, u: string, i: nat, j: nat)
    requires Aligned(t, u, i, j) && i <= |t| && j <= |u|
    requires At(t, i) == '[' ==> (IsLineStart(t, i) <==> IsLineStart(u, j))
    ensures NextHeader(u, j) - j == NextHeader(t, i) - i
    decreases |t| - i
  {
    hide Aligned, At;
    AlignedOn(t, u, i, j, 1);
    if i < |t| && !HeaderStart(t, i) {
      AlignedNext(t, u, i + 1, j + 1);
    }
  }

  lemma AlignedOpens(t: string, u: string, i: nat, j: nat, section: string)
    requires Aligned(t, u, i, j) && i < |t| && j < |u|
    ensures HeaderEnd(u, j + 1) - j == HeaderEnd(t, i + 1) - i && Body(u, j) - j == Body(t, i) - i
    ensures Shut(u, j) <==> Shut(t, i)
    ensures Opens(u, j, section) <==> Opens(t, i, section)
  {
    hide Aligned, At, HeaderEnd, SpaceEnd;
    AlignedOn(t, u, i, j, 1);
    AlignedHeaderEnd(t, u, i + 1, j + 1);
    var n := HeaderEnd(t, i + 1) - i;
    AlignedSlice(t, u, i + 1, j + 1, n - 1);
    AlignedOn(t, u, i, j, n + 1);
    AlignedSpaceEnd(t, u, i + n + 1, j + n + 1);
    assert i + n == HeaderEnd(t, i + 1) && j + n == HeaderEnd(u, j + 1);
  }

  /** Along the chain from one header on, the same values are found. */
  lemma {:induction false} AlignedFind(t: string, u: string, section: string, key: string, i: nat, j: nat)
    requires Aligned(t, u, i, j) && i <= |t| && j <= |u| && (i < |t| ==> HeaderStart(t, i))
    ensures Found(u, Find(u, section, key, j)) == Found(t, Find(t, section, key, i))
    decreases |t| - i
  {
    hide Aligned, At, HeaderEnd, Opens, ScanSection, Body, HeaderStart;
    AlignedOn(t, u, i, j, 0);
    if i < |t| {
      AlignedOpens(t, u, i, j, section);
      if Shut(t, i) {
        var n := HeaderEnd(t, i + 1) - i;
        AlignedOn(t, u, i, j, n);
        AlignedBody(t, u, key, i, j);
        AlignedBracket(t, u, i, j);
        if Opens(t, i, section) && ScanSection(t, key, Body(t, i)).Hit? {
          HitInText(t, key, Body(t, i));
          AlignedFound(t, u, i, j, ScanSection(t, key, Body(t, i)), ScanSection(u, key, Body(u, j)));
        } else {
          var m := NextHeader(t, i + n) - i;
          AlignedOn(t, u, i, j, m);
          AlignedFind(t, u, section, key, i + m, j + m);
        }
      }
    }
  }

  lemma AlignedBody(t: string, u: string, key: string, i: nat, j: nat)
    requires Aligned(t, u, i, j)
    ensures SameScan(ScanSection(t, key, Body(t, i)), i, ScanSection(u, key, Body(u, j)), j)
  {
    hide Aligned, At, HeaderEnd, ScanSection, Body, IsNewline, Opens, SameScan;
    AlignedLines(t, u, i, j);
    var n := Body(t, i) - i;
    AlignedOn(t, u, i, j, n - 1);
    AlignedOn(t, u, i, j, n);
    assert i + (n - 1) == Body(t, i) - 1 && j + (n - 1) == Body(u, j) - 1;
    AlignedScan(t, u, key, i + n, j + n);
    SameScanOn(ScanSection(t, key, i + n), ScanSection(u, key, j + n), i, j, n);
  }

  lemma AlignedLines(t: string, u: string, i: nat, j: nat)
    requires Aligned(t, u, i, j)
    ensures HeaderEnd(u, j + 1) - j == HeaderEnd(t, i + 1) - i && Body(u, j) - j == Body(t, i) - i
  {
    hide Aligned, At, HeaderEnd, SpaceEnd;
    AlignedOn(t, u, i, j, 1);
    AlignedHeaderEnd(t, u, i + 1, j + 1);
    var n := HeaderEnd(t, i + 1) - i;
    AlignedOn(t, u, i, j, n + 1);
    AlignedSpaceEnd(t, u, i + n + 1, j + n + 1);
    assert i + n == HeaderEnd(t, i + 1) && j + n == HeaderEnd(u, j + 1);
  }

  /** The next header after the ']' of one. */
  lemma AlignedBracket(t: string, u: string, i: nat, j: nat)
    requires Aligned(t, u, i, j) && i < |t| && j < |u| && Shut(t, i) && Shut(u, j)
    ensures NextHeader(u, HeaderEnd(u, j + 1)) - j == NextHeader(t, HeaderEnd(t, i + 1)) - i
  {
    hide Aligned, HeaderEnd, SpaceEnd, IsLineStart;
    AlignedLines(t, u, i, j);
    var n := HeaderEnd(t, i + 1) - i;
    HeaderEndMeans(t, i + 1);
    AlignedOn(t, u, i, j, n);
    AlignedNext(t, u, i + n, j + n);
  }

  lemma AlignedFound(t: string, u: string, i: nat, j: nat, r: SectionScan, r': SectionScan)
    requires Aligned(t, u, i, j) && SameScan(r, i, r', j) && r.Hit? && i <= r.equals
    ensures Found(u, Some(r')) == Found(t, Some(r))
  {
    hide Aligned;
    AlignedOn(t, u, i, j, 0);
    var q, e := r.equals, r.lineEnd;
    if q + 1 <= e <= |t| {
      AlignedOn(t, u, i, j, q + 1 - i);
      AlignedSlice(t, u, q + 1, r'.equals + 1, e - (q + 1));
    }
    AlignedOn(t, u, i, j, if e < i then 0 else e - i);
  }

  // ---------------------------------------------- up to the place written

  /** The chain from g comes to header h. */
  predicate Leads(t: string, g: nat, h: nat)
    requires g <= |t|
    decreases |t| - g
  {
    g == h || (g < |t| && g < h && Shut(t, g) && Leads(t, NextHeader(t, HeaderEnd(t, g + 1)), h))
  }

  /** What is found from g on before the chain comes to h. */
  function Before(t: string, section: string, key: string, g: nat, h: nat): Option<SectionScan>
    requires g <= |t| && Leads(t, g, h)
    decreases |t| - g
  {
    if g == h then None
    else if Opens(t, g, section) && ScanSection(t, key, Body(t, g)).Hit? then Some(ScanSection(t, key, Body(t, g)))
    else Before(t, section, key, NextHeader(t, HeaderEnd(t, g + 1)), h)
  }

  /** A section ends at a header that follows. */
  lemma {:induction false} ScanStaysBefore(t: string, key: string, i: nat, h: nat)
    requires 0 < i <= h < |t| && HeaderStart(t, h)
    ensures match ScanSection(t, key, i)
            case Hit(l, q, e) => i <= l < q < e < h
            case Miss(m) => m <= h
    decreases h - i
  {
    hide EqualSign;
    if i < h && !((IsNewline(At(t, i - 1)) && At(t, i) == '[') || At(t, i) == '\0') {
      LineEndMeans(t, i);
      var e := LineEnd(t, i);
      assert EndsLine(At(t, h - 1));
      assert e <= h - 1;
      hide HeaderStart, LineEnd, At, EndsLine;
      if !KeyAt(t, i, e, key) {
        ScanStaysBefore(t, key, e + 1, h);
      }
    }
  }

  /** The texts agree beyond header h. */
  ghost predicate AgreePast(t: string, u: string, n: nat, h: nat) {
    NoNul(t) && Agree(t, u, n) && h < n && h < |t| && HeaderStart(t, h)
  }

  /** A header before h, and its lines, are the same in both texts. */
  lemma SameBlock(t: string, u: string, n: nat, g: nat, h: nat, section: string, key: string)
    requires AgreePast(t, u, n, h) && g < h && Shut(t, g) && NextHeader(t, HeaderEnd(t, g + 1)) <= h
    ensures g < |u| && Shut(u, g) && HeaderEnd(u, g + 1) == HeaderEnd(t, g + 1) && Body(u, g) == Body(t, g)
    ensures Opens(u, g, section) <==> Opens(t, g, section)
    ensures ScanSection(u, key, Body(t, g)) == ScanSection(t, key, Body(t, g))
    ensures ScanSection(t, key, Body(t, g)).Hit? ==> ScanSection(t, key, Body(t, g)).lineEnd < n
    ensures NextHeader(u, HeaderEnd(t, g + 1)) == NextHeader(t, HeaderEnd(t, g + 1))
  {
    hide Opens, ScanSection, HeaderEnd, SpaceEnd, HeaderStart, Agree;
    var c := HeaderEnd(t, g + 1);
    var m := NextHeader(t, c);
    SameChar(t, u, n, g);
    SameOpens(t, u, n, g, section);
    Bracket(t, g);
    SameBody(t, u, n, g, m);
    ScanStaysBefore(t, key, Body(t, g), m);
    SameScanBefore(t, u, n, key, Body(t, g));
    SameNext(t, u, n, c);
    SameChar(t, u, n, c);
  }

  lemma Bracket(t: string, g: nat)
    requires NoNul(t) && Shut(t, g)
    ensures At(t, HeaderEnd(t, g + 1)) == ']' && !HeaderStart(t, HeaderEnd(t, g + 1))
  {
    HeaderEndMeans(t, g + 1);
  }

  lemma SameBody(t: string, u: string, n: nat, g: nat, m: nat)
    requires Agree(t, u, n) && m < n && HeaderStart(t, m) && Shut(t, g) && HeaderEnd(t, g + 1) < m
    requires HeaderEnd(u, g + 1) == HeaderEnd(t, g + 1)
    ensures Body(u, g) == Body(t, g) <= m
  {
    hide HeaderEnd, SpaceEnd;
    var c := HeaderEnd(t, g + 1);
    SpaceEndMeans(t, c + 1);
    assert !IsSpace(At(t, m));
    SameChar(t, u, n, SpaceEnd(t, c + 1));
    SameSpaces(t, u, n, c + 1);
  }

  /** A scan that stays where the texts agree. */
  lemma SameScanBefore(t: string, u: string, n: nat, key: string, i: nat)
    requires Agree(t, u, n) && 0 < i
    requires match ScanSection(t, key, i)
             case Hit(l, q, e) => i <= l < q < e < n
             case Miss(m) => m < n
    ensures ScanSection(u, key, i) == ScanSection(t, key, i)
  {
    hide ScanSection, LineEnd, KeyAt;
    match ScanSection(t, key, i) {
      case Miss(_) => SameMiss(t, u, n, key, i);
      case Hit(l, q, e) =>
        HitLineIs(t, key, i);
        forall k | q + 1 <= k < e + 1 ensures At(u, k) == At(t, k) {
        }
        SameHit(t, u, q + 1, key, i, e);
    }
  }

  /** The line that is hit ends at its end. */
  lemma {:induction false} HitLineIs(t: string, key: string, i: nat)
    requires 0 < i && ScanSection(t, key, i).Hit?
    ensures var r := ScanSection(t, key, i);
            && i <= r.lineStart < r.equals < r.lineEnd <= |t| && NewLineEnd(t, r.equals + 1, r.lineEnd)
            && LineEnd(t, r.lineStart) == r.lineEnd && EqualSign(t, r.lineStart, r.lineEnd) == r.equals
            && !EndsLine(At(t, r.equals))
    decreases |t| + 1 - i
  {
    hide LineEnd, EqualSign;
    LineEndMeans(t, i);
    HitInText(t, key, i);
    if !KeyAt(t, i, LineEnd(t, i), key) {
      HitLineIs(t, key, LineEnd(t, i) + 1);
    } else {
      EqualSignMeans(t, i, LineEnd(t, i));
    }
  }

  lemma SameNext(t: string, u: string, n: nat, c: nat)
    requires Agree(t, u, n) && c <= |t| && c <= |u| && NextHeader(t, c) < n && NextHeader(t, c) < |t|
    ensures NextHeader(u, c) == NextHeader(t, c)
  {
    hide HeaderStart, Agree;
    var m := NextHeader(t, c);
    forall k | c <= k <= m ensures HeaderStart(u, k) <==> HeaderStart(t, k) {
      SameChar(t, u, n, k);
    }
    SameChar(t, u, n, m);
    NextSkips(u, c, m);
  }

  /** What is found before h is found in both texts, and otherwise both go on from h. */
  lemma {:induction false} SameBefore(t: string, u: string, n: nat, section: string, key: string, g: nat, h: nat)
    requires AgreePast(t, u, n, h) && g <= |t| && Leads(t, g, h)
    ensures g <= h <= |u|
    ensures var found := Before(t, section, key, g, h);
            if found.None? then
              Find(t, section, key, g) == Find(t, section, key, h) && Find(u, section, key, g) == Find(u, section, key, h)
            else
              && Find(t, section, key, g) == found && Find(u, section, key, g) == found && Found(u, found) == Found(t, found)
    decreases |t| - g
  {
    LeadsOn(t, g, h);
    SameChar(t, u, n, h);
    hide Opens, ScanSection, HeaderEnd, Body, HeaderStart, Agree;
    if g < h {
      var m := NextHeader(t, HeaderEnd(t, g + 1));
      LeadsOn(t, m, h);
      SameBlock(t, u, n, g, h, section, key);
      if Opens(t, g, section) && ScanSection(t, key, Body(t, g)).Hit? {
        HitInText(t, key, Body(t, g));
        var r := ScanSection(t, key, Body(t, g));
        SameSlice(t, u, n, r.equals + 1, r.lineEnd);
      } else {
        SameBefore(t, u, n, section, key, m, h);
      }
    }
  }

  lemma {:induction false} LeadsOn(t: string, g: nat, h: nat)
    requires g <= |t| && Leads(t, g, h)
    ensures g <= h
  {
  }

  // --------------------------------------------------- the place written

  /** The header of the section that the parser reports, on the chain from g. */
  ghost predicate PlaceAt(t: string, section: string, key: string, g: nat, r: Span) {
    && 0 < r.secS <= |t| && g <= |t|
    && var h := r.secS - 1;
       && HeaderStart(t, h) && Shut(t, h) && Opens(t, h, section) && Leads(t, g, h) && r.secE == Body(t, h)
       && match ScanSection(t, key, Body(t, h))
          case Hit(l, q, e) => r.keyS == l && r.valueS == q + 1 && r.valueE == e
          case Miss(_) => r.keyS == -1
  }

  /** Where the parser puts a line is at a header of the chain. */
  lemma {:induction false} Places(t: string, section: string, key: string, i: nat, secS: int, secE: int)
    requires NoNul(t) && i <= |t| && secS <= i
    ensures var r := ScanFile(t, section, key, i, secS, secE);
            r.keyS != -1 || (r.secS > i && r.secE <= |t|) ==> PlaceAt(t, section, key, NextHeader(t, i), r)
    decreases |t| - i, 2
  {
    hide Opens, ScanFile, ScanSection, HeaderEnd, SpaceEnd, HeaderStart, PlaceAt;
    ScanStops(t, section, key, i, secS, secE);
    SpanOrder(t, section, key, i, secS, secE);
    if i < |t| {
      if HeaderStart(t, i) {
        PlacesHeader(t, section, key, i, secS, secE);
      } else {
        IniAnyText.StepOver(t, section, key, i, secS, secE);
        SpanOrder(t, section, key, i + 1, secS, secE);
        Places(t, section, key, i + 1, secS, secE);
      }
    }
  }

  lemma {:induction false} PlacesHeader(t: string, section: string, key: string, i: nat, secS: int, secE: int)
    requires NoNul(t) && i < |t| && HeaderStart(t, i) && secS <= i
    ensures var r := ScanFile(t, section, key, i, secS, secE);
            r.keyS != -1 || (r.secS > i && r.secE <= |t|) ==> PlaceAt(t, section, key, i, r)
    decreases |t| - i, 1
  {
    hide Opens, ScanFile, ScanSection, HeaderEnd, SpaceEnd, HeaderStart, PlaceAt, Leads;
    var c := HeaderEnd(t, i + 1);
    WhereHeaderEnds(t, i + 1);
    if c == |t| {
      OpenEnds(t, section, key, i, secS, secE);
    } else if !Opens(t, i, section) {
      StepPast(t, section, key, i, c, secS, secE);
      SpanOrder(t, section, key, c, secS, secE);
      Places(t, section, key, c, secS, secE);
      var r := ScanFile(t, section, key, c, secS, secE);
      if r.keyS != -1 || (r.secS > i && r.secE <= |t|) {
        PlacedFurther(t, section, key, i, r);
      }
    } else if ScanSection(t, key, Body(t, i)).Hit? {
      StepHit(t, section, key, i, c, Body(t, i), secS, secE);
      PlacedHere(t, section, key, i, ScanFile(t, section, key, i, secS, secE));
    } else {
      PlacesMiss(t, section, key, i, secS, secE);
    }
  }

  lemma {:induction false} PlacesMiss(t: string, section: string, key: string, i: nat, secS: int, secE: int)
    requires NoNul(t) && i < |t| && HeaderStart(t, i) && secS <= i && Shut(t, i) && Opens(t, i, section)
    requires ScanSection(t, key, Body(t, i)).Miss?
    ensures var r := ScanFile(t, section, key, i, secS, secE);
            r.keyS != -1 || (r.secS > i && r.secE <= |t|) ==> PlaceAt(t, section, key, i, r)
    decreases |t| - i, 0
  {
    hide Opens, ScanFile, ScanSection, HeaderEnd, SpaceEnd, HeaderStart, PlaceAt, Leads;
    var c, b := HeaderEnd(t, i + 1), Body(t, i);
    var m := ScanSection(t, key, b).next;
    StepMiss(t, section, key, i, c, b, secS, secE);
    Bracket(t, i);
    LinesHoldNone(t, key, c);
    SpanOrder(t, section, key, m, i + 1, b);
    var r := ScanFile(t, section, key, m, i + 1, b);
    if r.keyS == -1 && r.secS <= m {
      PlacedHere(t, section, key, i, r);
    } else if m <= |t| {
      NextSkips(t, c, m);
      Places(t, section, key, m, i + 1, b);
      if r.keyS != -1 || r.secE <= |t| {
        PlacedFurther(t, section, key, i, r);
      }
    } else {
      ScanStops(t, section, key, m, i + 1, b);
    }
  }

  lemma PlacedHere(t: string, section: string, key: string, h: nat, r: Span)
    requires h < |t| && HeaderStart(t, h) && Shut(t, h) && Opens(t, h, section) && r.secS == h + 1 && r.secE == Body(t, h)
    requires match ScanSection(t, key, Body(t, h))
             case Hit(l, q, e) => r.keyS == l && r.valueS == q + 1 && r.valueE == e
             case Miss(_) => r.keyS == -1
    ensures PlaceAt(t, section, key, h, r)
  {
  }

  lemma PlacedFurther(t: string, section: string, key: string, g: nat, r: Span)
    requires g < |t| && Shut(t, g)
    requires PlaceAt(t, section, key, NextHeader(t, HeaderEnd(t, g + 1)), r)
    ensures PlaceAt(t, section, key, g, r)
  {
    LeadsOn(t, NextHeader(t, HeaderEnd(t, g + 1)), r.secS - 1);
    hide HeaderEnd, HeaderStart, Opens, ScanSection, Body;
  }

  // ------------------------------------------------- a value is replaced

  /** The line at l, its '=' at q, ends at e in one text and at e' in the other. */
  ghost predicate Replaced(t: string, u: string, l: nat, q: nat, e: nat, e': nat) {
    && l < q < e <= |t| && q < e' <= |u| && Agree(t, u, q + 1) && Aligned(t, u, e, e')
    && LineEnd(t, l) == e && EqualSign(t, l, e) == q && LineEnd(u, l) == e' && EqualSign(u, l, e') == q
  }

  /** Where the scan for another key comes to that line, the line is hit in both texts or in neither. */
  lemma ReplacedKeyAt(t: string, u: string, l: nat, q: nat, e: nat, e': nat, key: string)
    requires Replaced(t, u, l, q, e, e')
    ensures KeyAt(u, l, e', key) <==> KeyAt(t, l, e, key)
  {
    hide LineEnd, EqualSign, Aligned;
    SameSlice(t, u, q + 1, l, q);
    assert At(t, l) == At(u, l);
  }

  /** The scan of the section for another key, in both texts. */
  lemma {:induction false} ReplacedScan(t: string, u: string, key: string, key': string, i: nat, l: nat, q: nat, e: nat,
                                        e': nat)
    requires Replaced(t, u, l, q, e, e') && 0 < i && ScanSection(t, key, i) == Hit(l, q, e)
    ensures i <= l
    ensures var r, r' := ScanSection(t, key', i), ScanSection(u, key', i);
            if r.Hit? && r.lineStart < l then r' == r && r.lineEnd < l
            else if r.Hit? && r.lineStart == l then r == Hit(l, q, e) && r' == Hit(l, q, e')
            else SameScan(r, e, r', e') && (r.Hit? ==> e < r.lineStart)
    decreases |t| + 1 - i
  {
    hide LineEnd, EqualSign, KeyAt, Aligned, Replaced, Agree, At, IsNewline, SameScan, EndsLine;
    HitInText(t, key, i);
    ReplacedAgrees(t, u, l, q, e, e');
    SameChar(t, u, q + 1, i);
    SameChar(t, u, q + 1, i - 1);
    ReplacedKeyAt(t, u, l, q, e, e', key');
    if i == l {
      ReplacedScanAt(t, u, key, key', l, q, e, e');
    } else {
      ScanMoves(t, key, i, l);
      SameLine(t, u, q + 1, i, key');
      SameSign(t, u, q + 1, i, LineEnd(t, i));
      HitInText(t, key, LineEnd(t, i) + 1);
      if !KeyAt(t, i, LineEnd(t, i), key') {
        ReplacedScan(t, u, key, key', LineEnd(t, i) + 1, l, q, e, e');
      }
    }
  }

  lemma ReplacedAgrees(t: string, u: string, l: nat, q: nat, e: nat, e': nat)
    requires Replaced(t, u, l, q, e, e')
    ensures Agree(t, u, q + 1) && l < q < e <= |t| && q < e' <= |u| && Aligned(t, u, e, e')
    ensures LineEnd(t, l) == e && EqualSign(t, l, e) == q && LineEnd(u, l) == e' && EqualSign(u, l, e') == q
  {
  }

  lemma SameSign(t: string, u: string, n: nat, i: nat, e: nat)
    requires Agree(t, u, n) && i <= e < n
    ensures EqualSign(u, i, e) == EqualSign(t, i, e)
  {
    EqualSignMeans(t, i, e);
    EqualSignIs(u, i, e, EqualSign(t, i, e));
  }

  /** A scan that hits a later line passes this one. */
  lemma ScanMoves(t: string, key: string, i: nat, l: nat)
    requires 0 < i && ScanSection(t, key, i).Hit? && ScanSection(t, key, i).lineStart == l && i < l
    ensures !((IsNewline(At(t, i - 1)) && At(t, i) == '[') || At(t, i) == '\0')
    ensures !KeyAt(t, i, LineEnd(t, i), key) && ScanSection(t, key, LineEnd(t, i) + 1) == ScanSection(t, key, i)
    ensures LineEnd(t, i) < l
  {
    HitInText(t, key, LineEnd(t, i) + 1);
  }

  lemma ReplacedScanAt(t: string, u: string, key: string, key': string, l: nat, q: nat, e: nat, e': nat)
    requires Replaced(t, u, l, q, e, e') && 0 < l && ScanSection(t, key, l) == Hit(l, q, e)
    requires At(u, l) == At(t, l) && At(u, l - 1) == At(t, l - 1)
    ensures var r, r' := ScanSection(t, key', l), ScanSection(u, key', l);
            if r.Hit? && r.lineStart == l then r == Hit(l, q, e) && r' == Hit(l, q, e')
            else SameScan(r, e, r', e') && (r.Hit? ==> e < r.lineStart)
  {
    hide EqualSign, KeyAt, Aligned, Replaced, Agree, SameScan, LineEnd, At;
    ReplacedKeyAt(t, u, l, q, e, e', key');
    ReplacedAgrees(t, u, l, q, e, e');
    AlignedOn(t, u, e, e', 1);
    AlignedOn(t, u, e, e', 0);
    LineEndMeans(t, l);
    if !KeyAt(t, l, e, key') {
      AlignedScan(t, u, key', e + 1, e' + 1);
      HitInText(t, key', e + 1);
      SameScanOn(ScanSection(t, key', e + 1), ScanSection(u, key', e' + 1), e, e', 1);
    }
  }

  /** A section that hits a line holds no header up to the end of the line. */
  lemma {:induction false} HitHoldsNone(t: string, key: string, i: nat)
    requires 0 < i && ScanSection(t, key, i).Hit?
    ensures forall k :: i <= k <= ScanSection(t, key, i).lineEnd ==> !HeaderStart(t, k)
    decreases |t| + 1 - i
  {
    var e := LineEnd(t, i);
    LineEndMeans(t, i);
    HitInText(t, key, i);
    forall k | i <= k <= e ensures !HeaderStart(t, k) {
      if k > i {
        assert !EndsLine(At(t, k - 1));
      }
    }
    hide HeaderStart, LineEnd, KeyAt, EqualSign, At;
    if !KeyAt(t, i, e, key) {
      HitHoldsNone(t, key, e + 1);
    }
  }

  /** Between the ']' of a header and its lines there is no header. */
  lemma BlanksHoldNone(t: string, h: nat)
    requires At(t, HeaderEnd(t, h + 1)) == ']'
    ensures forall k :: HeaderEnd(t, h + 1) <= k < Body(t, h) ==> !HeaderStart(t, k)
  {
    var c := HeaderEnd(t, h + 1);
    SpaceEndMeans(t, c + 1);
    forall k | c <= k < Body(t, h) ensures !HeaderStart(t, k) {
      if c < k {
        assert IsSpace(At(t, k));
      }
    }
  }

  /** So the next header comes after that line. */
  lemma NextAfterHit(t: string, key: string, h: nat)
    requires Shut(t, h) && At(t, HeaderEnd(t, h + 1)) == ']' && ScanSection(t, key, Body(t, h)).Hit?
    ensures var e := ScanSection(t, key, Body(t, h)).lineEnd;
            HeaderEnd(t, h + 1) < e <= |t| && NextHeader(t, HeaderEnd(t, h + 1)) == NextHeader(t, e)
  {
    hide HeaderStart, ScanSection, SpaceEnd, HeaderEnd;
    var c, b := HeaderEnd(t, h + 1), Body(t, h);
    HitInText(t, key, b);
    HitHoldsNone(t, key, b);
    BlanksHoldNone(t, h);
    NextSkips(t, c, ScanSection(t, key, b).lineEnd);
  }

  /** What is found from a header on lies behind it. */
  lemma {:induction false} FindBehind(t: string, section: string, key: string, g: nat)
    requires g <= |t|
    ensures match Find(t, section, key, g)
            case None => true
            case Some(Miss(_)) => false
            case Some(Hit(l, q, e)) => g < l < q < e <= |t|
    decreases |t| - g
  {
    hide Opens, ScanSection, HeaderEnd, Body;
    if g < |t| && Shut(t, g) {
      HitInText(t, key, Body(t, g));
      FindBehind(t, section, key, NextHeader(t, HeaderEnd(t, g + 1)));
    }
  }

  /** The section of the line replaced, for another section and key. */
  ghost predicate ReplacedAt(t: string, u: string, key: string, h: nat, l: nat, q: nat, e: nat, e': nat) {
    && NoNul(t) && Replaced(t, u, l, q, e, e') && h < |t| && Shut(t, h)
    && ScanSection(t, key, Body(t, h)) == Hit(l, q, e)
  }

  lemma ReplacedHeader(t: string, u: string, key: string, h: nat, l: nat, q: nat, e: nat, e': nat, section': string)
    requires ReplacedAt(t, u, key, h, l, q, e, e')
    ensures h < |u| && HeaderEnd(u, h + 1) == HeaderEnd(t, h + 1) && Shut(u, h) && Body(u, h) == Body(t, h) <= l
    ensures Opens(u, h, section') <==> Opens(t, h, section')
    ensures At(t, HeaderEnd(t, h + 1)) == ']' && At(u, HeaderEnd(t, h + 1)) == ']'
  {
    hide Opens, ScanSection, HeaderEnd, SpaceEnd, HeaderStart, Agree, Aligned, LineEnd, EqualSign, At;
    var c, b := HeaderEnd(t, h + 1), Body(t, h);
    HitInText(t, key, b);
    SameChar(t, u, q + 1, h);
    SameOpens(t, u, q + 1, h, section');
    Bracket(t, h);
    SameChar(t, u, q + 1, c);
    SpaceEndMeans(t, c + 1);
    SameChar(t, u, q + 1, b);
    SameSpaces(t, u, q + 1, c + 1);
  }

  /** Behind the line replaced both chains go on alike. */
  lemma ReplacedNext(t: string, u: string, key: string, h: nat, l: nat, q: nat, e: nat, e': nat)
    requires ReplacedAt(t, u, key, h, l, q, e, e') && h < |u| && Shut(u, h)
    requires HeaderEnd(u, h + 1) == HeaderEnd(t, h + 1) && Body(u, h) == Body(t, h)
    requires At(t, HeaderEnd(t, h + 1)) == ']' && At(u, HeaderEnd(t, h + 1)) == ']'
    ensures var m, m' := NextHeader(t, HeaderEnd(t, h + 1)), NextHeader(u, HeaderEnd(u, h + 1));
            e <= m && e' <= m' && Aligned(t, u, m, m')
  {
    hide Opens, ScanSection, HeaderEnd, SpaceEnd, HeaderStart, Agree, Aligned, EqualSign, IsLineStart;
    ReplacedScan(t, u, key, key, Body(t, h), l, q, e, e');
    NextAfterHit(t, key, h);
    NextAfterHit(u, key, h);
    LineEndMeans(t, l);
    AlignedNext(t, u, e, e');
    AlignedOn(t, u, e, e', NextHeader(t, e) - e);
  }

  lemma ReplacedFind(t: string, u: string, key: string, h: nat, l: nat, q: nat, e: nat, e': nat,
                     section': string, key': string)
    requires ReplacedAt(t, u, key, h, l, q, e, e')
    ensures h <= |u|
    ensures var found, found' := Find(t, section', key', h), Find(u, section', key', h);
            if found.Some? && found.value.Hit? && found.value.lineStart == l then
              found == Some(Hit(l, q, e)) && found' == Some(Hit(l, q, e'))
            else Found(u, found') == Found(t, found)
  {
    hide Opens, ScanSection, HeaderEnd, Body, HeaderStart, Agree, Aligned, Replaced;
    ReplacedHeader(t, u, key, h, l, q, e, e', section');
    ReplacedScan(t, u, key, key', Body(t, h), l, q, e, e');
    ReplacedNext(t, u, key, h, l, q, e, e');
    ReplacedAgrees(t, u, l, q, e, e');
    var r, r' := ScanSection(t, key', Body(t, h)), ScanSection(u, key', Body(t, h));
    if Opens(t, h, section') && r.Hit? {
      HitInText(t, key', Body(t, h));
      if r.lineStart < l {
        SameSlice(t, u, q + 1, r.equals + 1, r.lineEnd);
      } else if r.lineStart != l {
        AlignedFound(t, u, e, e', r, r');
      }
    } else {
      var m, m' := NextHeader(t, HeaderEnd(t, h + 1)), NextHeader(u, HeaderEnd(u, h + 1));
      AlignedOn(t, u, m, m', 0);
      FindBehind(t, section', key', m);
      AlignedFind(t, u, section', key', m, m');
    }
  }

  /** Some text put in place of another between two stretches. */
  lemma SplicedAligned(x: string, v: string, w: string, z: string)
    ensures Aligned(x + v + z, x + w + z, |x + v|, |x + w|)
    ensures Agree(x + v + z, x + w + z, |x|)
  {
    var t, u := x + v + z, x + w + z;
    forall m | |x + v| <= m ensures At(t, m) == At(u, m - |x + v| + |x + w|) {
      if m < |t| {
        assert t[m] == z[m - |x + v|];
      }
    }
    forall k | 0 <= k < |x| ensures At(t, k) == At(u, k) {
      assert t[k] == x[k] && u[k] == x[k];
    }
  }

  lemma NoNulSpliced(x: string, v: string, w: string, z: string)
    requires NoNul(x + v + z) && NoNul(w)
    ensures NoNul(x + w + z)
  {
    forall i | 0 <= i < |x + w + z| ensures (x + w + z)[i] != '\0' {
      if i < |x| {
        assert (x + w + z)[i] == (x + v + z)[i];
      } else if i >= |x + w| {
        assert (x + w + z)[i] == (x + v + z)[i - |x + w| + |x + v|];
      }
    }
  }

  lemma ReplacedTexts(t: string, q: nat, e: nat, value: string)
    requires NoNul(t) && AllPlain(value) && q < e <= |t| && EndsLine(At(t, e))
    ensures var u := t[..q + 1] + value + t[e..];
            && NoNul(u) && Agree(t, u, q + 1) && Aligned(t, u, e, q + 1 + |value|)
            && NewLineEnd(u, q + 1, q + 1 + |value|) && u[q + 1..q + 1 + |value|] == value
  {
    hide NewLineEnd, Aligned, EndsLine, At, Agree;
    assert t == t[..q + 1] + t[q + 1..e] + t[e..];
    SplicedAligned(t[..q + 1], t[q + 1..e], value, t[e..]);
    NoNulSpliced(t[..q + 1], t[q + 1..e], value, t[e..]);
    Spliced(t, q + 1, e, value);
  }

  /** The text with the value of the line replaced. */
  lemma IsReplaced(t: string, key: string, h: nat, l: nat, q: nat, e: nat, value: string)
    requires NoNul(t) && AllPlain(value) && h < |t| && Shut(t, h) && ScanSection(t, key, Body(t, h)) == Hit(l, q, e)
    ensures q + 1 <= e <= |t|
    ensures var u := t[..q + 1] + value + t[e..];
            NoNul(u) && ReplacedAt(t, u, key, h, l, q, e, q + 1 + |value|) && u[q + 1..q + 1 + |value|] == value
  {
    hide Opens, ScanSection, HeaderEnd, Body, HeaderStart, LineEnd, EqualSign, Aligned, Shut, At, EndsLine, NoNul,
         NewLineEnd, Agree;
    HitLineIs(t, key, Body(t, h));
    LineEndMeans(t, l);
    ReplacedTexts(t, q, e, value);
    var u := t[..q + 1] + value + t[e..];
    SameLineEnd(t, u, l, q, q + 1 + |value|);
    SameEqualSign(t, u, l, q, e, q + 1 + |value|);
  }

  lemma UpdateFinds(t: string, u: string, key: string, g: nat, h: nat, l: nat, q: nat, e: nat, e': nat,
                    section': string, key': string)
    requires ReplacedAt(t, u, key, h, l, q, e, e') && HeaderStart(t, h) && g <= |t| && Leads(t, g, h)
    ensures g <= h <= q && g <= |u|
    ensures var found, found' := Find(t, section', key', g), Find(u, section', key', g);
            if found.Some? && found.value.Hit? && found.value.lineStart == l then
              found == Some(Hit(l, q, e)) && found' == Some(Hit(l, q, e'))
            else Found(u, found') == Found(t, found)
  {
    hide Opens, ScanSection, HeaderEnd, Body, HeaderStart, Agree, Aligned, Find, Found, Before;
    HitInText(t, key, Body(t, h));
    LeadsOn(t, g, h);
    SameBefore(t, u, q + 1, section', key', g, h);
    ReplacedFind(t, u, key, h, l, q, e, e', section', key');
    BeforeIsBefore(t, section', key', g, h);
  }

  lemma BodyBefore(t: string, g: nat)
    requires NoNul(t) && Shut(t, g) && NextHeader(t, HeaderEnd(t, g + 1)) < |t|
    ensures Body(t, g) <= NextHeader(t, HeaderEnd(t, g + 1))
  {
    var c := HeaderEnd(t, g + 1);
    Bracket(t, g);
    SpaceEndMeans(t, c + 1);
    assert !IsSpace(At(t, NextHeader(t, c)));
  }

  lemma {:induction false} BeforeIsBefore(t: string, section: string, key: string, g: nat, h: nat)
    requires NoNul(t) && g <= |t| && Leads(t, g, h) && h < |t| && HeaderStart(t, h)
    ensures match Before(t, section, key, g, h)
            case None => true
            case Some(Miss(_)) => false
            case Some(Hit(l, q, e)) => l < h
    decreases |t| - g
  {
    hide Opens, ScanSection, HeaderEnd, Body, HeaderStart;
    LeadsOn(t, g, h);
    if g < h {
      var m := NextHeader(t, HeaderEnd(t, g + 1));
      LeadsOn(t, m, h);
      BodyBefore(t, g);
      ScanStaysBefore(t, key, Body(t, g), m);
      BeforeIsBefore(t, section, key, m, h);
    }
  }

  /** Both chains begin alike, before the place written. */
  lemma SameFirst(t: string, u: string, n: nat, h: nat)
    requires Agree(t, u, n) && h < n && h < |t| && NextHeader(t, 0) <= h
    ensures NextHeader(u, 0) == NextHeader(t, 0)
  {
    SameNext(t, u, n, 0);
  }

  // ----------------------------------------------------- a line is put in

  /**
   * The line of the key is put in where the lines of header h begin.  What
   * stood there is at the start of a line now; it must not become a header.
   */
  ghost predicate PutIn(t: string, u: string, h: nat, b: nat, e: nat, key: string, value: string) {
    && NoNul(t) && h < |t| && Shut(t, h) && b == Body(t, h) <= |t| && e == b + |KeyLine(key, value)|
    && Agree(t, u, b) && KeyLineAt(u, b, key, value) && Aligned(t, u, b, e + 1) && e < |u| && At(u, e) == '\n'
    && (At(t, b) == '[' ==> IsNewline(At(t, b - 1)))
  }

  lemma PutInHeader(t: string, u: string, h: nat, b: nat, e: nat, key: string, value: string, section': string)
    requires PutIn(t, u, h, b, e, key, value)
    ensures h < |u| && HeaderEnd(u, h + 1) == HeaderEnd(t, h + 1) < b && Shut(u, h) && Body(u, h) == b
    ensures Opens(u, h, section') <==> Opens(t, h, section')
    ensures At(t, HeaderEnd(t, h + 1)) == ']' && At(u, HeaderEnd(t, h + 1)) == ']'
  {
    hide Opens, ScanSection, HeaderEnd, SpaceEnd, HeaderStart, Agree, Aligned, At, KeyLine, IsNewline;
    SameChar(t, u, b, h);
    SameOpens(t, u, b, h, section');
    Bracket(t, h);
    SameChar(t, u, b, HeaderEnd(t, h + 1));
    KeyLineHit(u, b, key, value);
    SameSpaces(t, u, b, HeaderEnd(t, h + 1) + 1);
  }

  /** The new line, for another key. */
  lemma NewLineKey(u: string, b: nat, key: string, value: string, key': string)
    requires KeyLineAt(u, b, key, value) && 0 < b
    ensures At(u, b) != '[' && At(u, b) != '\0' && LineEnd(u, b) == b + |KeyLine(key, value)|
    ensures EqualSign(u, b, LineEnd(u, b)) == b + |key|
    ensures KeyAt(u, b, LineEnd(u, b), key') <==> key <= key'
  {
    var line := KeyLine(key, value);
    KeyLineFacts(key, value);
    FirstChar(u, b, line);
    LineEndAt(u, b, line, 0);
    KeyAtIs(u, b, line, key');
    assert line[..|key|] == key;
    hide KeyAt, LineEnd, LineAt, AllPlain;
  }

  lemma PutInScan(t: string, u: string, h: nat, b: nat, e: nat, key: string, value: string, key': string)
    requires PutIn(t, u, h, b, e, key, value)
    ensures if key <= key' then ScanSection(u, key', b) == Hit(b, b + |key|, e)
            else SameScan(ScanSection(t, key', b), b, ScanSection(u, key', b), e + 1)
  {
    hide KeyLine, KeyLineAt, Aligned, Agree, KeyAt, LineEnd, EqualSign, SameScan, Body, HeaderEnd, NoNul;
    NewLineKey(u, b, key, value, key');
    AlignedOn(t, u, b, e + 1, 0);
    if !(key <= key') {
      AlignedScan(t, u, key', b, e + 1);
    }
  }

  lemma PutInNext(t: string, u: string, h: nat, b: nat, e: nat, key: string, value: string)
    requires PutIn(t, u, h, b, e, key, value) && h < |u| && Shut(u, h)
    requires HeaderEnd(u, h + 1) == HeaderEnd(t, h + 1) < b && Body(u, h) == b
    requires At(t, HeaderEnd(t, h + 1)) == ']' && At(u, HeaderEnd(t, h + 1)) == ']'
    ensures var m, m' := NextHeader(t, HeaderEnd(t, h + 1)), NextHeader(u, HeaderEnd(u, h + 1));
            b <= m && Aligned(t, u, m, m')
  {
    hide HeaderStart, ScanSection, Body, HeaderEnd, Agree, Aligned, KeyLine, KeyLineAt;
    var c := HeaderEnd(t, h + 1);
    PutInScan(t, u, h, b, e, key, value, key);
    BlanksHoldNone(t, h);
    NextSkips(t, c, b);
    NextAfterHit(u, key, h);
    NextPastNewline(u, e);
    AlignedOn(t, u, b, e + 1, 0);
    AlignedNext(t, u, b, e + 1);
    AlignedOn(t, u, b, e + 1, NextHeader(t, b) - b);
  }

  lemma NextPastNewline(u: string, e: nat)
    requires e < |u| && At(u, e) == '\n'
    ensures NextHeader(u, e) == NextHeader(u, e + 1) && IsLineStart(u, e + 1)
  {
  }

  lemma PutInFind(t: string, u: string, h: nat, b: nat, e: nat, key: string, value: string, section': string, key': string)
    requires PutIn(t, u, h, b, e, key, value)
    ensures h <= |u|
    ensures var found, found' := Find(t, section', key', h), Find(u, section', key', h);
            && (found.Some? ==> found.value.Hit? && b <= found.value.lineStart)
            && if Opens(t, h, section') && key <= key' then found' == Some(Hit(b, b + |key|, e))
               else Found(u, found') == Found(t, found)
  {
    hide Opens, ScanSection, HeaderEnd, Body, HeaderStart, Agree, Aligned, KeyLine, KeyLineAt, At, NoNul;
    PutInHeader(t, u, h, b, e, key, value, section');
    PutInScan(t, u, h, b, e, key, value, key');
    PutInNext(t, u, h, b, e, key, value);
    var r, r' := ScanSection(t, key', b), ScanSection(u, key', b);
    var m, m' := NextHeader(t, HeaderEnd(t, h + 1)), NextHeader(u, HeaderEnd(u, h + 1));
    FindBehind(t, section', key', m);
    HitInText(t, key', b);
    if Opens(t, h, section') && r.Hit? {
      if !(key <= key') {
        AlignedFound(t, u, b, e + 1, r, r');
      }
    } else if !(Opens(t, h, section') && key <= key') {
      AlignedOn(t, u, m, m', 0);
      AlignedFind(t, u, section', key', m, m');
    }
  }

  lemma PutInTexts(t: string, b: nat, key: string, value: string)
    requires NoNul(t) && b <= |t| && KeyName(key) && AllPlain(value)
    ensures var u, e := t[..b] + KeyLine(key, value) + "\n" + t[b..], b + |KeyLine(key, value)|;
            && NoNul(u) && Agree(t, u, b) && KeyLineAt(u, b, key, value) && Aligned(t, u, b, e + 1)
            && b + |key| < e < |u| && At(u, e) == '\n' && u[b + |key| + 1..e] == value
  {
    var line := KeyLine(key, value);
    KeyLineFacts(key, value);
    Inserted(t, b, key, value);
    assert t[..b] + "" + t[b..] == t && t[..b] + "" == t[..b];
    assert t[..b] + (line + "\n") + t[b..] == t[..b] + line + "\n" + t[b..];
    SplicedAligned(t[..b], "", line + "\n", t[b..]);
    NoNulSpliced(t[..b], "", line + "\n", t[b..]);
    assert (t[..b] + line + "\n" + t[b..])[b + |key| + 1..b + |line|] == value;
    hide KeyLineAt, Agree, Aligned, KeyLine;
  }

  lemma PutInFinds(t: string, u: string, g: nat, h: nat, b: nat, e: nat, key: string, value: string,
                   section': string, key': string)
    requires PutIn(t, u, h, b, e, key, value) && HeaderStart(t, h) && g <= |t| && Leads(t, g, h)
    ensures g <= h < b && g <= |u|
    ensures var found, found' := Find(t, section', key', g), Find(u, section', key', g);
            var before := found.Some? && found.value.Hit? && found.value.lineStart < b;
            if Opens(t, h, section') && key <= key' && !before then found' == Some(Hit(b, b + |key|, e))
            else Found(u, found') == Found(t, found)
  {
    PutInHeader(t, u, h, b, e, key, value, section');
    hide Opens, ScanSection, HeaderEnd, Body, HeaderStart, Agree, Aligned, Find, Found, Before, KeyLine, KeyLineAt;
    LeadsOn(t, g, h);
    SameBefore(t, u, b, section', key', g, h);
    PutInFind(t, u, h, b, e, key, value, section', key');
    BeforeIsBefore(t, section', key', g, h);
  }

  // ------------------------------------------------ a section is appended

  /** The first header of the chain that is left open. */
  function FirstOpen(t: string, g: nat): Option<nat>
    requires g <= |t|
    decreases |t| - g
  {
    if g == |t| then None else if !Shut(t, g) then Some(g) else FirstOpen(t, NextHeader(t, HeaderEnd(t, g + 1)))
  }

  lemma {:induction false} OpenIsFirst(t: string, i: nat)
    requires NoNul(t) && i <= |t|
    ensures OpenHeader(t, i) == FirstOpen(t, NextHeader(t, i))
    decreases |t| - i
  {
    hide HeaderEnd, HeaderStart, OpenHeader, ClosedHeader, Opens, At;
    if i == |t| {
      NothingOpen(t);
    } else if HeaderStart(t, i) {
      WhereHeaderEnds(t, i + 1);
      HeadersStep(t, "", i, HeaderEnd(t, i + 1));
      EndIsNul(t);
      if Shut(t, i) {
        OpenIsFirst(t, HeaderEnd(t, i + 1));
      }
    } else {
      OpenNotHere(t, i);
      OpenIsFirst(t, i + 1);
    }
  }

  lemma NothingOpen(t: string)
    ensures OpenHeader(t, |t|) == None
  {
  }

  lemma EndIsNul(t: string)
    ensures At(t, |t|) == '\0'
  {
  }

  lemma OpenNotHere(t: string, i: nat)
    requires NoNul(t) && i < |t| && !HeaderStart(t, i)
    ensures OpenHeader(t, i) == OpenHeader(t, i + 1)
  {
  }

  /** The text with the new section behind it, at p. */
  ghost predicate AppendedAt(t: string, u: string, p: nat, section: string, key: string, value: string) {
    && NoNul(t) && Agree(t, u, |t|) && |t| < |u| && (t != "" ==> At(u, |t|) == '\n')
    && p == IniAnyText.SectionAt(t) && NewSectionAt(u, p, section, key, value)
  }

  lemma NewSectionBody(u: string, p: nat, section: string, key: string, value: string)
    requires NewSectionAt(u, p, section, key, value)
    ensures p < |u| && HeaderStart(u, p) && HeaderEnd(u, p + 1) == p + |section| + 1 && Shut(u, p)
    ensures u[p + 1..p + |section| + 1] == section && At(u, HeaderEnd(u, p + 1)) == ']'
    ensures Body(u, p) == p + |section| + 3
  {
    hide KeyLineAt, KeyLine, HeaderEnd, IsHeader, Name, AllPlain, ScanSection;
    var q := p + |section| + 3;
    HeaderLine(section);
    HeaderName(u, p, "[" + section + "]");
    FirstChar(u, p, "[" + section + "]");
    KeyLineHit(u, q, key, value);
    HeaderEndMeans(u, p + 1);
    assert SpaceEnd(u, q) == q;
    assert SpaceEnd(u, q - 1) == q;
  }

  /** The scan of the new section's one line. */
  lemma NewSectionScan(u: string, p: nat, section: string, key: string, value: string, key': string)
    requires NewSectionAt(u, p, section, key, value)
    ensures var q, e := p + |section| + 3, p + |section| + 3 + |KeyLine(key, value)|;
            if key <= key' then ScanSection(u, key', q) == Hit(q, q + |key|, e) else ScanSection(u, key', q) == Miss(e + 1)
  {
    var q, e := p + |section| + 3, p + |section| + 3 + |KeyLine(key, value)|;
    NewLineKey(u, q, key, value, key');
    hide KeyLineAt, KeyLine, LineEnd, EqualSign, KeyAt, SectionName, IsHeader;
    assert ScanSection(u, key', e + 1) == Miss(e + 1);
  }

  lemma NewSectionNext(u: string, p: nat, section: string, key: string, value: string)
    requires NewSectionAt(u, p, section, key, value)
    ensures p + |section| + 1 <= |u| && NextHeader(u, p + |section| + 1) == |u|
  {
    hide KeyLineAt, KeyLine, HeaderEnd, SectionName, Body, HeaderStart, ScanSection, NewSectionAt, LineAt;
    NewSectionBody(u, p, section, key, value);
    NewSectionScan(u, p, section, key, value, key);
    NewSectionEnd(u, p, section, key, value);
    NextAfterHit(u, key, p);
    NextPastNewline(u, p + |section| + 3 + |KeyLine(key, value)|);
  }

  lemma NewSectionEnd(u: string, p: nat, section: string, key: string, value: string)
    requires NewSectionAt(u, p, section, key, value)
    ensures var e := p + |section| + 3 + |KeyLine(key, value)|; |u| == e + 1 && At(u, e) == '\n'
  {
    hide KeyLine;
  }

  /** What the new section holds for other names. */
  lemma NewSectionFind(u: string, p: nat, section: string, key: string, value: string, section': string, key': string)
    requires NewSectionAt(u, p, section, key, value)
    ensures p <= |u|
    ensures var q, e := p + |section| + 3, p + |section| + 3 + |KeyLine(key, value)|;
            Find(u, section', key', p) == if section <= section' && key <= key' then Some(Hit(q, q + |key|, e)) else None
  {
    hide KeyLineAt, KeyLine, HeaderEnd, SectionName, Body, HeaderStart, ScanSection, NewSectionAt, LineAt;
    NewSectionBody(u, p, section, key, value);
    NewSectionScan(u, p, section, key, value, key');
    NewSectionNext(u, p, section, key, value);
  }

  /** The last lines of the text, for a key they hold or do not hold. */
  lemma {:induction false} LastScan(t: string, u: string, p: nat, section: string, key: string, value: string,
                                    key': string, i: nat)
    requires AppendedAt(t, u, p, section, key, value) && t != "" && 0 < i <= |t| + 1
    requires forall k :: i <= k < |t| ==> !HeaderStart(t, k)
    ensures ScanSection(u, key', i) == if ScanSection(t, key', i).Hit? then ScanSection(t, key', i) else Miss(p)
    decreases |t| + 1 - i
  {
    hide KeyLineAt, KeyLine, LineEnd, EqualSign, KeyAt, SectionName, IsHeader, NewSectionAt, HeaderStart, At, Agree;
    NewSectionBody(u, p, section, key, value);
    if i < |t| {
      LastLine(t, u, p, section, key, value, key', i);
      LastScan(t, u, p, section, key, value, key', LineEnd(t, i) + 1);
    } else {
      LastScanEnds(t, u, p, section, key, value, key', i);
    }
  }

  lemma LastScanEnds(t: string, u: string, p: nat, section: string, key: string, value: string, key': string, i: nat)
    requires AppendedAt(t, u, p, section, key, value) && t != "" && 0 < i && |t| <= i <= |t| + 1
    ensures ScanSection(t, key', i).Miss? && ScanSection(u, key', i) == Miss(p)
  {
    NewSectionBody(u, p, section, key, value);
    hide NewSectionAt, Body, HeaderEnd, Agree;
    assert p == |t| + 1;
    assert ScanSection(u, key', p) == Miss(p);
    if i == |t| {
      assert LineEnd(u, i) == i;
    }
  }

  lemma LastLine(t: string, u: string, p: nat, section: string, key: string, value: string, key': string, i: nat)
    requires AppendedAt(t, u, p, section, key, value) && 0 < i < |t| && !HeaderStart(t, i)
    ensures !((IsNewline(At(t, i - 1)) && At(t, i) == '[') || At(t, i) == '\0')
    ensures !((IsNewline(At(u, i - 1)) && At(u, i) == '[') || At(u, i) == '\0')
    ensures LineEnd(u, i) == LineEnd(t, i) <= |t| && EqualSign(u, i, LineEnd(u, i)) == EqualSign(t, i, LineEnd(t, i))
    ensures KeyAt(u, i, LineEnd(u, i), key') <==> KeyAt(t, i, LineEnd(t, i), key')
  {
    hide LineEnd, EqualSign, NewSectionAt;
    var e := LineEnd(t, i);
    LineEndMeans(t, i);
    forall k | i <= k < e ensures At(u, k) == At(t, k) {
    }
    LineEndIs(u, i, e);
    EqualSignMeans(t, i, e);
    EqualSignIs(u, i, e, EqualSign(t, i, e));
    SameSlice(t, u, |t|, i, EqualSign(t, i, e));
    assert At(u, i - 1) == At(t, i - 1);
  }

  /** The last header of the text, if it is not left open. */
  lemma LastBlock(t: string, u: string, p: nat, section: string, key: string, value: string, g: nat,
                  section': string, key': string)
    requires AppendedAt(t, u, p, section, key, value)
    requires g < |t| && Shut(t, g) && NextHeader(t, HeaderEnd(t, g + 1)) == |t|
    ensures g < |u| && HeaderEnd(u, g + 1) == HeaderEnd(t, g + 1) && Shut(u, g)
    ensures Opens(u, g, section') <==> Opens(t, g, section')
    ensures NextHeader(u, HeaderEnd(u, g + 1)) == p
    ensures var r := ScanSection(t, key', Body(t, g));
            && ScanSection(u, key', Body(u, g)) == (if r.Hit? then r else Miss(p))
            && (r.Hit? ==> r.equals < r.lineEnd <= |t|)
  {
    hide Opens, ScanSection, HeaderEnd, SpaceEnd, HeaderStart, Agree, At, NewSectionAt;
    var c, b := HeaderEnd(t, g + 1), Body(t, g);
    SameChar(t, u, |t|, g);
    SameOpens(t, u, |t|, g, section');
    NewSectionBody(u, p, section, key, value);
    AppendedNext(t, u, p, section, key, value, c);
    HitInText(t, key', b);
    LastBody(t, u, p, section, key, value, g);
    if b < |t| {
      LastScan(t, u, p, section, key, value, key', b);
    } else {
      LastScanEnds(t, u, p, section, key, value, key', b);
      LastScanEnds(t, u, p, section, key, value, key', p);
    }
  }

  lemma LastBody(t: string, u: string, p: nat, section: string, key: string, value: string, g: nat)
    requires AppendedAt(t, u, p, section, key, value) && Shut(t, g) && HeaderEnd(u, g + 1) == HeaderEnd(t, g + 1)
    ensures Body(t, g) <= |t| && p == |t| + 1 && Body(u, g) == if Body(t, g) < |t| then Body(t, g) else p
  {
    hide HeaderEnd, SpaceEnd, NewSectionAt, At, Agree, HeaderStart;
    NewSectionBody(u, p, section, key, value);
    var c := HeaderEnd(t, g + 1);
    var b := SpaceEnd(t, c + 1);
    SpaceEndMeans(t, c + 1);
    assert b <= |t|;
    if b < |t| {
      SameChar(t, u, |t|, b);
      SameSpaces(t, u, |t|, c + 1);
    } else {
      forall k | c + 1 <= k < p ensures IsSpace(At(u, k)) {
        if k < |t| {
          SameChar(t, u, |t|, k);
        }
      }
      HeaderIsNoSpace(u, p);
      SpaceEndIs(u, c + 1, p);
    }
  }

  lemma HeaderIsNoSpace(u: string, h: nat)
    requires HeaderStart(u, h)
    ensures !IsSpace(At(u, h))
  {
  }

  lemma AppendedNext(t: string, u: string, p: nat, section: string, key: string, value: string, c: nat)
    requires AppendedAt(t, u, p, section, key, value) && c <= |t| && NextHeader(t, c) == |t|
    ensures NextHeader(u, c) == p
  {
    NewSectionBody(u, p, section, key, value);
    hide NewSectionAt, Agree, HeaderEnd, Body;
    forall k | c <= k < p ensures !HeaderStart(u, k) {
      if k < |t| {
        SameChar(t, u, |t|, k);
      }
    }
    NextSkips(u, c, p);
  }

  /** A header left open takes the new section's ']'; no other section is found from there on. */
  lemma OpenSwallows(t: string, u: string, p: nat, section: string, key: string, value: string, h: nat,
                     section': string, key': string)
    requires AppendedAt(t, u, p, section, key, value) && h < |t| && HeaderStart(t, h) && !Shut(t, h) && AllPlain(section')
    ensures h < |u| && Find(u, section', key', h) == None
  {
    hide NewSectionAt, HeaderEnd, HeaderStart, SectionName, Agree;
    WhereHeaderEnds(t, h + 1);
    HeaderEndMeans(t, h + 1);
    forall k | h < k < p ensures At(u, k) != ']' && At(u, k) != '\0' {
      if k < |t| {
        SameChar(t, u, |t|, k);
        assert t[k] != '\0';
      }
    }
    NewSectionSwallowed(u, h, p, section, key, value);
    var c := HeaderEnd(u, h + 1);
    NewSectionBody(u, p, section, key, value);
    assert u[h + 1..c][|t| - (h + 1)] == '\n';
    NewSectionNext(u, p, section, key, value);
  }

  /** What the appended text holds for other names. */
  lemma {:induction false} AppendedFind(t: string, u: string, p: nat, section: string, key: string, value: string,
                                        section': string, key': string, g: nat)
    requires AppendedAt(t, u, p, section, key, value) && AllPlain(section')
    requires g <= |t| && (g < |t| ==> HeaderStart(t, g))
    ensures p <= |u|
    ensures var found, found' := Find(t, section', key', g), Find(u, section', key', NextHeader(u, g));
            if found.Some? then found' == found && Found(u, found) == Found(t, found)
            else found' == if FirstOpen(t, g).None? then Find(u, section', key', p) else None
    decreases |t| - g
  {
    hide NewSectionAt, Opens, ScanSection, HeaderEnd, Body, HeaderStart, Agree;
    NewSectionBody(u, p, section, key, value);
    if g == |t| {
      AppendedNext(t, u, p, section, key, value, g);
    } else {
      SameChar(t, u, |t|, g);
      if !Shut(t, g) {
        OpenSwallows(t, u, p, section, key, value, g, section', key');
      } else {
        var m := NextHeader(t, HeaderEnd(t, g + 1));
        if m < |t| {
          Bracket(t, g);
          SameBlock(t, u, |t|, g, m, section', key');
          SameChar(t, u, |t|, m);
        } else {
          LastBlock(t, u, p, section, key, value, g, section', key');
          AppendedNext(t, u, p, section, key, value, |t|);
        }
        HitInText(t, key', Body(t, g));
        var r := ScanSection(t, key', Body(t, g));
        if r.Hit? && r.lineEnd <= |t| {
          SameSlice(t, u, |t|, r.equals + 1, r.lineEnd);
        }
        AppendedFind(t, u, p, section, key, value, section', key', m);
      }
    }
  }

  // ------------------------------------------------------- main results

  /** Setting a key that is there changes what exactly those other names read whose scan ends at the same line. */
  lemma UpdateTouches(t: string, section: string, key: string, value: string, section': string, key': string)
    requires NoNul(t) && AllPlain(value)
    requires ReadText(t, section, key).Some?
    ensures var r, r' := ScanFile(t, section, key, 0, -1, -1), ScanFile(t, section', key', 0, -1, -1);
            ReadText(SetText(t, section, key, value), section', key')
            == if r'.keyS == r.keyS then Some(value) else ReadText(t, section', key')
  {
    hide *;
    var r := ScanFile(t, section, key, 0, -1, -1);
    var g := NextHeader(t, 0);
    ReadIff(t, section, key);
    SpanInText(t, section, key, 0, -1, -1);
    Places(t, section, key, 0, -1, -1);
    SetTextUpdates(t, section, key, value);
    IsUpdated(t, section, key, value, g, r);
    var u := WithValue(t, r, value);
    UpdateFinds(t, u, key, g, r.secS - 1, r.keyS, r.valueS - 1, r.valueE, r.valueS + |value|, section', key');
    SameFirst(t, u, r.valueS, r.secS - 1);
    ScanFinds(t, section', key', 0, -1, -1);
    UpdateReads(t, u, section', key', r, value, ScanFile(t, section', key', 0, -1, -1));
  }

  function WithValue(t: string, r: Span, value: string): string
    requires 0 <= r.valueS <= r.valueE <= |t|
  {
    t[..r.valueS] + value + t[r.valueE..]
  }

  lemma SetTextUpdates(t: string, section: string, key: string, value: string)
    requires ScanFile(t, section, key, 0, -1, -1).keyS != -1
    ensures var r := ScanFile(t, section, key, 0, -1, -1);
            0 <= r.valueS <= r.valueE <= |t| && SetText(t, section, key, value) == WithValue(t, r, value)
  {
    hide ScanFile;
    SpanInText(t, section, key, 0, -1, -1);
    Sectioned(t, section, key);
  }

  lemma Sectioned(t: string, section: string, key: string)
    requires ScanFile(t, section, key, 0, -1, -1).keyS != -1
    ensures ScanFile(t, section, key, 0, -1, -1).secS != -1
  {
    hide ScanFile;
    ValueEndsLine(t, section, key, 0, -1, -1);
  }

  lemma IsUpdated(t: string, section: string, key: string, value: string, g: nat, r: Span)
    requires NoNul(t) && AllPlain(value) && PlaceAt(t, section, key, g, r) && r.keyS != -1
    requires 0 <= r.valueS <= r.valueE <= |t|
    ensures var u := WithValue(t, r, value);
            && 0 < r.secS < r.valueS && r.keyS >= 0 && r.valueS > 0
            && NoNul(u) && ReplacedAt(t, u, key, r.secS - 1, r.keyS, r.valueS - 1, r.valueE, r.valueS + |value|)
            && HeaderStart(t, r.secS - 1) && Leads(t, g, r.secS - 1) && g <= r.secS - 1 && Agree(t, u, r.valueS)
            && r.valueS + |value| <= |u| && u[r.valueS..r.valueS + |value|] == value
  {
    hide NoNul, Agree, Aligned, ScanSection, HeaderEnd, Body, HeaderStart, Opens, At, LineEnd, EqualSign;
    var h: nat := r.secS - 1;
    HitInText(t, key, Body(t, h));
    LeadsOn(t, g, h);
    IsReplaced(t, key, h, r.keyS, r.valueS - 1, r.valueE, value);
    assert r.valueS - 1 + 1 == r.valueS;
  }

  lemma UpdateReads(t: string, u: string, section: string, key: string, r: Span, value: string, r': Span)
    requires NoNul(t) && NoNul(u) && NextHeader(u, 0) == NextHeader(t, 0)
    requires r.keyS >= 0 && r.valueS > 0 && r.valueE >= 0 && r.valueS + |value| <= |u|
    requires u[r.valueS..r.valueS + |value|] == value && Finds(r', Find(t, section, key, NextHeader(t, 0)))
    requires var found, found' := Find(t, section, key, NextHeader(t, 0)), Find(u, section, key, NextHeader(t, 0));
             if found.Some? && found.value.Hit? && found.value.lineStart == r.keyS then
               found' == Some(Hit(r.keyS, r.valueS - 1, r.valueS + |value|))
             else Found(u, found') == Found(t, found)
    ensures ReadText(u, section, key) == if r'.keyS == r.keyS then Some(value) else ReadText(t, section, key)
  {
    hide NoNul, Find, ReadText, NextHeader;
    ReadFinds(t, section, key);
    ReadFinds(u, section, key);
  }

  /**
   * Putting in a key that is not there changes what exactly those other names
   * read for which the header is one of theirs, that the key begins, and that
   * are not found before; unless text behind the header's ']' becomes a header.
   */
  lemma InsertTouches(t: string, section: string, key: string, value: string, section': string, key': string)
    requires NoNul(t) && KeyName(key) && AllPlain(value)
    requires var r := ScanFile(t, section, key, 0, -1, -1);
             && r.keyS == -1 && 0 < r.secS < r.secE <= |t|
             && (At(t, r.secE) == '[' ==> IsNewline(At(t, r.secE - 1)))
    ensures var r, r' := ScanFile(t, section, key, 0, -1, -1), ScanFile(t, section', key', 0, -1, -1);
            var before := r'.keyS != -1 && r'.keyS < r.secE;
            ReadText(SetText(t, section, key, value), section', key')
            == if Opens(t, r.secS - 1, section') && key <= key' && !before then Some(value)
               else ReadText(t, section', key')
  {
    hide *;
    var r := ScanFile(t, section, key, 0, -1, -1);
    var u := WithLine(t, r.secE, key, value);
    Places(t, section, key, 0, -1, -1);
    SetTextInserts(t, section, key, value);
    IsPutIn(t, section, key, value, NextHeader(t, 0), r);
    PutInFinds(t, u, NextHeader(t, 0), r.secS - 1, r.secE, r.secE + |KeyLine(key, value)|, key, value, section', key');
    SameFirst(t, u, r.secE, r.secS - 1);
    ScanFinds(t, section', key', 0, -1, -1);
    InsertReads(t, u, section', key', Opens(t, r.secS - 1, section') && key <= key', r.secE,
                r.secE + |KeyLine(key, value)|, |key|, value, ScanFile(t, section', key', 0, -1, -1));
  }

  function WithLine(t: string, b: nat, key: string, value: string): string
    requires b <= |t|
  {
    t[..b] + KeyLine(key, value) + "\n" + t[b..]
  }

  lemma SetTextInserts(t: string, section: string, key: string, value: string)
    requires var r := ScanFile(t, section, key, 0, -1, -1); r.keyS == -1 && r.secS != -1 && 0 <= r.secE <= |t|
    ensures SetText(t, section, key, value) == WithLine(t, ScanFile(t, section, key, 0, -1, -1).secE, key, value)
  {
    hide ScanFile;
  }

  lemma IsPutIn(t: string, section: string, key: string, value: string, g: nat, r: Span)
    requires NoNul(t) && KeyName(key) && AllPlain(value) && PlaceAt(t, section, key, g, r) && r.keyS == -1
    requires 0 < r.secS < r.secE <= |t| && (At(t, r.secE) == '[' ==> IsNewline(At(t, r.secE - 1)))
    ensures var u, e := WithLine(t, r.secE, key, value), r.secE + |KeyLine(key, value)|;
            && PutIn(t, u, r.secS - 1, r.secE, e, key, value) && HeaderStart(t, r.secS - 1) && Leads(t, g, r.secS - 1)
            && NoNul(u) && Agree(t, u, r.secE) && g <= r.secS - 1
            && r.secE + |key| < e <= |u| && u[r.secE + |key| + 1..e] == value
  {
    hide NoNul, Agree, Aligned, KeyLineAt, KeyLine, ScanSection, HeaderEnd, Body, HeaderStart, Opens;
    PutInTexts(t, r.secE, key, value);
    LeadsOn(t, g, r.secS - 1);
  }

  lemma InsertReads(t: string, u: string, section: string, key: string, touched: bool, b: nat, e: nat, n: nat,
                    value: string, r: Span)
    requires NoNul(t) && NoNul(u) && NextHeader(u, 0) == NextHeader(t, 0) && b + n < e <= |u|
    requires u[b + n + 1..e] == value && Finds(r, Find(t, section, key, NextHeader(t, 0)))
    requires var found := Find(t, section, key, NextHeader(t, 0));
             var found' := Find(u, section, key, NextHeader(t, 0));
             var before := found.Some? && found.value.Hit? && found.value.lineStart < b;
             if touched && !before then found' == Some(Hit(b, b + n, e)) else Found(u, found') == Found(t, found)
    ensures ReadText(u, section, key)
         == if touched && !(r.keyS != -1 && r.keyS < b) then Some(value) else ReadText(t, section, key)
  {
    hide NoNul, Find, ReadText, NextHeader;
    ReadFinds(t, section, key);
    ReadFinds(u, section, key);
  }

  /**
   * Appending a section changes what exactly those other names read that are
   * not found, in a text without an open header, for which the section and the
   * key are a beginning.
   */
  lemma AppendTouches(t: string, section: string, key: string, value: string, section': string, key': string)
    requires NoNul(t) && SectionName(section) && KeyName(key) && AllPlain(value) && AllPlain(section')
    requires var r := ScanFile(t, section, key, 0, -1, -1); r.keyS == -1 && r.secS == -1
    ensures ReadText(SetText(t, section, key, value), section', key')
            == if ReadText(t, section', key').None? && OpenHeader(t, 0).None? && section <= section' && key <= key'
               then Some(value) else ReadText(t, section', key')
  {
    hide *;
    var u, p, g := WithSection(t, section, key, value), IniAnyText.SectionAt(t), NextHeader(t, 0);
    SetTextAppends(t, section, key, value);
    AppendedIs(t, section, key, value);
    OpenIsFirst(t, 0);
    NewSectionBody(u, p, section, key, value);
    NewSectionFind(u, p, section, key, value, section', key');
    NewSectionValue(u, p, section, key, value);
    AppendedFirst(t, u, p, section, key, value);
    AppendedFind(t, u, p, section, key, value, section', key', g);
    ReadFinds(t, section', key');
    ReadFinds(u, section', key');
    FoundSome(t, section', key', g);
    FoundSome(u, section', key', p);
  }

  lemma FoundSome(t: string, section: string, key: string, g: nat)
    requires g <= |t|
    ensures Found(t, Find(t, section, key, g)).Some? <==> Find(t, section, key, g).Some?
    ensures Found(t, None) == None
  {
    hide Find;
    FindBehind(t, section, key, g);
  }

  lemma AppendedFirst(t: string, u: string, p: nat, section: string, key: string, value: string)
    requires AppendedAt(t, u, p, section, key, value)
    ensures NextHeader(u, NextHeader(t, 0)) == NextHeader(u, 0)
  {
    hide NewSectionAt;
    if NextHeader(t, 0) < |t| {
      SameNext(t, u, |t|, 0);
    } else {
      AppendedNext(t, u, p, section, key, value, 0);
      AppendedNext(t, u, p, section, key, value, |t|);
    }
  }

  lemma NewSectionValue(u: string, p: nat, section: string, key: string, value: string)
    requires NewSectionAt(u, p, section, key, value)
    ensures var q, e := p + |section| + 3, p + |section| + 3 + |KeyLine(key, value)|;
            Found(u, Some(Hit(q, q + |key|, e))) == Some(value)
  {
    var q, e := p + |section| + 3, p + |section| + 3 + |KeyLine(key, value)|;
    assert u[q..e] == KeyLine(key, value);
    assert u[q + |key| + 1..e] == u[q..e][|key| + 1..];
  }

  lemma AppendedIs(t: string, section: string, key: string, value: string)
    requires NoNul(t) && SectionName(section) && KeyName(key) && AllPlain(value)
    ensures var u := WithSection(t, section, key, value);
            && NoNul(u) && AppendedAt(t, u, IniAnyText.SectionAt(t), section, key, value)
            && NewSectionAt(u, IniAnyText.SectionAt(t), section, key, value)
  {
    Appended(t, section, key, value);
    hide NewSectionAt, Agree;
  }

  /** What is behind the ']' of the header becomes a header when a line is put in before it. */
  predicate Splits(t: string, section: string, key: string) {
    var r := ScanFile(t, section, key, 0, -1, -1);
    r.keyS == -1 && r.secS != -1 && 0 < r.secE < |t| && t[r.secE] == '[' && !IsNewline(t[r.secE - 1])
  }

  /** The scan for the other names comes to the place where the setter writes. */
  predicate Touches(t: string, section: string, key: string, section': string, key': string) {
    var r, r' := ScanFile(t, section, key, 0, -1, -1), ScanFile(t, section', key', 0, -1, -1);
    if r.keyS != -1 then r'.keyS == r.keyS
    else if r.secS == -1 then r'.keyS == -1 && OpenHeader(t, 0).None? && section <= section' && key <= key'
    else
      && 0 < r.secS < r.secE <= |t| && Opens(t, r.secS - 1, section') && key <= key'
      && !(r'.keyS != -1 && r'.keyS < r.secE)
  }

  /**
   * In any text, setting one key leaves what other names read as it was,
   * except where their scan comes to the place written, and there they read
   * the new value.
   */
  lemma SetTouches(t: string, section: string, key: string, value: string, section': string, key': string)
    requires NoNul(t) && SectionName(section) && KeyName(key) && AllPlain(value) && AllPlain(section')
    requires !Splits(t, section, key)
    ensures ReadText(SetText(t, section, key, value), section', key')
            == if Touches(t, section, key, section', key') then Some(value) else ReadText(t, section', key')
  {
    hide ScanFile, Opens, SetText, OpenHeader, SectionName, KeyName, AllPlain, NoNul;
    var r := ScanFile(t, section, key, 0, -1, -1);
    ReadIff(t, section, key);
    ReadIff(t, section', key');
    SpanOrder(t, section, key, 0, -1, -1);
    if r.keyS != -1 {
      UpdateTouches(t, section, key, value, section', key');
    } else if r.secS == -1 {
      AppendTouches(t, section, key, value, section', key');
    } else if r.secE <= |t| {
      InsertTouches(t, section, key, value, section', key');
    } else {
      SetTextOpen(t, section, key, value);
    }
  }

  lemma ReadIff(t: string, section: string, key: string)
    ensures ReadText(t, section, key).Some? <==> ScanFile(t, section, key, 0, -1, -1).keyS != -1
  {
    hide ScanFile;
  }

  lemma SetTextOpen(t: string, section: string, key: string, value: string)
    requires var r := ScanFile(t, section, key, 0, -1, -1); r.keyS == -1 && r.secS != -1 && r.secE > |t|
    ensures SetText(t, section, key, value) == t
  {
    hide ScanFile;
  }

  /** So exactly those other keys are left alone by every value. */
  lemma LeftAloneIff(t: string, section: string, key: string, section': string, key': string)
    requires NoNul(t) && SectionName(section) && KeyName(key) && AllPlain(section') && !Splits(t, section, key)
    ensures (forall value :: AllPlain(value) ==>
               ReadText(SetText(t, section, key, value), section', key') == ReadText(t, section', key'))
            <==> !Touches(t, section, key, section', key')
  {
    forall value | AllPlain(value)
      ensures ReadText(SetText(t, section, key, value), section', key')
              == if Touches(t, section, key, section', key') then Some(value) else ReadText(t, section', key')
    {
      SetTouches(t, section, key, value, section', key');
    }
    assert AllPlain("a") && AllPlain("b");
    hide ReadText, SetText, Touches, SectionName, KeyName, NoNul, Splits;
  }

  /** Such a text: the section b appears when a key is set in a. */
  lemma SplitShowsSection()
    ensures Splits("[a][b]\nx=1", "a", "k")
    ensures ReadText("[a][b]\nx=1", "b", "x") == None
    ensures ReadText(SetText("[a][b]\nx=1", "a", "k", "v"), "b", "x") == Some("1")
  {
    hide *;
    SplitSets();
    SplitHidden();
    SplitAfter();
  }

  lemma SplitSets()
    ensures Splits("[a][b]\nx=1", "a", "k") && SetText("[a][b]\nx=1", "a", "k", "v") == "[a]k=v\n[b]\nx=1"
  {
    hide ScanFile;
    SplitBefore();
    var t := "[a][b]\nx=1";
    assert t[..3] == "[a]" && t[3..] == "[b]\nx=1" && KeyLine("k", "v") == "k=v";
  }

  lemma SplitBefore()
    ensures ScanFile("[a][b]\nx=1", "a", "k", 0, -1, -1) == Span(1, 3, -1, -1, -1, -1)
  {
    hide ScanFile, ScanSection;
    var t := "[a][b]\nx=1";
    assert HeaderEnd(t, 2) == 2 && HeaderEnd(t, 1) == 2 && t[1..2] == "a";
    assert SpaceEnd(t, 3) == 3 && HeaderStart(t, 0) && Opens(t, 0, "a");
    SplitLines();
    StepMiss(t, "a", "k", 0, 2, 3, -1, -1);
    ScanStops(t, "a", "k", 11, 1, 3);
  }

  lemma SplitLines()
    ensures ScanSection("[a][b]\nx=1", "k", 3) == Miss(11)
  {
    var t := "[a][b]\nx=1";
    SplitLine();
    hide LineEnd, EqualSign;
    assert "x"[0] == 'x' && "k"[0] == 'k' && t[7..8] == "x";
    assert ScanSection(t, "k", 11) == Miss(11);
    assert ScanSection(t, "k", 7) == Miss(11);
  }

  lemma SplitLine()
    ensures LineEnd("[a][b]\nx=1", 3) == 6 && EqualSign("[a][b]\nx=1", 3, 6) == 6
    ensures LineEnd("[a][b]\nx=1", 7) == 10 && EqualSign("[a][b]\nx=1", 7, 10) == 8
  {
    var t := "[a][b]\nx=1";
    assert LineEnd(t, 6) == 6 && LineEnd(t, 5) == 6 && LineEnd(t, 4) == 6;
    assert LineEnd(t, 10) == 10 && LineEnd(t, 9) == 10 && LineEnd(t, 8) == 10;
    assert EqualSign(t, 6, 6) == 6 && EqualSign(t, 5, 6) == 6 && EqualSign(t, 4, 6) == 6;
    assert EqualSign(t, 8, 10) == 8;
  }

  lemma SplitHidden()
    ensures ReadText("[a][b]\nx=1", "b", "x") == None
  {
    var t := "[a][b]\nx=1";
    assert HeaderEnd(t, 2) == 2 && HeaderEnd(t, 1) == 2 && t[1..2][0] == 'a' && "b"[0] == 'b';
    assert HeaderStart(t, 0) && !Opens(t, 0, "b");
    StepPast(t, "b", "x", 0, 2, -1, -1);
    forall k | 2 <= k < 10 ensures At(t, k) != '\0' && !HeaderStart(t, k) {
    }
    ScanSkips(t, "b", "x", 2, 10);
    hide ScanFile, HeaderEnd, Opens;
    ScanStops(t, "b", "x", 10, -1, -1);
  }

  lemma {:induction false} ScanSkips(t: string, section: string, key: string, i: nat, j: nat)
    requires i <= j <= |t| && forall k :: i <= k < j ==> At(t, k) != '\0' && !HeaderStart(t, k)
    ensures ScanFile(t, section, key, i, -1, -1) == ScanFile(t, section, key, j, -1, -1)
    decreases j - i
  {
    hide ScanFile, HeaderStart, At;
    if i < j {
      IniAnyText.StepOver(t, section, key, i, -1, -1);
      ScanSkips(t, section, key, i + 1, j);
    }
  }

  lemma SplitAfter()
    ensures ReadText("[a]k=v\n[b]\nx=1", "b", "x") == Some("1")
  {
    var u := "[a]k=v\n[b]\nx=1";
    assert HeaderEnd(u, 2) == 2 && HeaderEnd(u, 1) == 2 && u[1..2][0] == 'a' && "b"[0] == 'b';
    assert HeaderStart(u, 0) && !Opens(u, 0, "b");
    StepPast(u, "b", "x", 0, 2, -1, -1);
    ScanSkips(u, "b", "x", 2, 7);
    SplitRead();
    hide *;
  }

  lemma SplitRead()
    ensures ScanFile("[a]k=v\n[b]\nx=1", "b", "x", 7, -1, -1) == Span(8, 11, 11, 11, 13, 14)
    ensures "[a]k=v\n[b]\nx=1"[13..14] == "1"
  {
    hide ScanFile, ScanSection;
    var u := "[a]k=v\n[b]\nx=1";
    SplitSection();
    assert HeaderEnd(u, 9) == 9 && HeaderEnd(u, 8) == 9 && u[8..9] == "b" && HeaderStart(u, 7) && Opens(u, 7, "b");
    assert SpaceEnd(u, 11) == 11 && SpaceEnd(u, 10) == 11;
    StepHit(u, "b", "x", 7, 9, 11, -1, -1);
  }

  lemma SplitSection()
    ensures ScanSection("[a]k=v\n[b]\nx=1", "x", 11) == Hit(11, 12, 14)
  {
    var u := "[a]k=v\n[b]\nx=1";
    assert LineEnd(u, 14) == 14 && LineEnd(u, 13) == 14 && LineEnd(u, 12) == 14 && LineEnd(u, 11) == 14;
    assert EqualSign(u, 12, 14) == 12 && EqualSign(u, 11, 14) == 12 && u[11..12] == "x";
  }
}
