/**
 * Setting and then reading one key in any text at all, well formed or not: a
 * key that is there always reads back, and a key that is not there reads back
 * exactly when no header is left open in the way.
 */
module IniAnyText {
  import opened IniLines
  import opened IniConfig

  predicate NoNul(t: string) { forall i :: 0 <= i < |t| ==> t[i] != '\0' }

  predicate HeaderStart(t: string, i: nat) { IsLineStart(t, i) && At(t, i) == '[' }

  /** The header without ']' that the rest of the text belongs to, if there is one. */
  function OpenHeader(t: string, i: nat): Option<nat>
    requires i <= |t| + 1
    decreases |t| + 1 - i
  {
    if At(t, i) == '\0' then None
    else if HeaderStart(t, i) then
      var c := HeaderEnd(t, i + 1);
      if At(t, c) == ']' then OpenHeader(t, c) else Some(i)
    else OpenHeader(t, i + 1)
  }

  /** A header with its ']' belongs to the section. */
  predicate ClosedHeader(t: string, section: string, i: nat)
    requires i <= |t| + 1
    decreases |t| + 1 - i
  {
    if At(t, i) == '\0' then false
    else if HeaderStart(t, i) then
      var c := HeaderEnd(t, i + 1);
      At(t, c) == ']' && (t[i + 1..c] <= section || ClosedHeader(t, section, c))
    else ClosedHeader(t, section, i + 1)
  }

  // -------------------------------------------------- what the walks mean

  lemma {:induction false} HeaderEndMeans(t: string, i: nat)
    ensures var e := HeaderEnd(t, i);
            && (At(t, e) == ']' || At(t, e) == '\0')
            && forall k :: i <= k < e ==> At(t, k) != ']' && At(t, k) != '\0'
    decreases |t| - i
  {
    if At(t, i) != ']' && At(t, i) != '\0' {
      HeaderEndMeans(t, i + 1);
    }
  }

  lemma {:induction false} HeaderEndIs(u: string, i: nat, e: nat)
    requires i <= e && (At(u, e) == ']' || At(u, e) == '\0')
    requires forall k :: i <= k < e ==> At(u, k) != ']' && At(u, k) != '\0'
    ensures HeaderEnd(u, i) == e
    decreases e - i
  {
    if i < e {
      HeaderEndIs(u, i + 1, e);
    }
  }

  lemma {:induction false} SpaceEndMeans(t: string, i: nat)
    ensures var e := SpaceEnd(t, i);
            !IsSpace(At(t, e)) && forall k :: i <= k < e ==> IsSpace(At(t, k))
    decreases |t| - i
  {
    if IsSpace(At(t, i)) {
      SpaceEndMeans(t, i + 1);
    }
  }

  lemma {:induction false} SpaceEndIs(u: string, i: nat, e: nat)
    requires i <= e && !IsSpace(At(u, e)) && forall k :: i <= k < e ==> IsSpace(At(u, k))
    ensures SpaceEnd(u, i) == e
    decreases e - i
  {
    if i < e {
      SpaceEndIs(u, i + 1, e);
    }
  }

  predicate EndsLine(c: char) { IsNewline(c) || c == '\0' }

  lemma {:induction false} LineEndMeans(t: string, i: nat)
    ensures var e := LineEnd(t, i);
            EndsLine(At(t, e)) && forall k :: i <= k < e ==> !EndsLine(At(t, k))
    decreases |t| - i
  {
    if !EndsLine(At(t, i)) {
      LineEndMeans(t, i + 1);
    }
  }

  lemma {:induction false} LineEndIs(u: string, i: nat, e: nat)
    requires i <= e && EndsLine(At(u, e)) && forall k :: i <= k < e ==> !EndsLine(At(u, k))
    ensures LineEnd(u, i) == e
    decreases e - i
  {
    if i < e {
      LineEndIs(u, i + 1, e);
    }
  }

  lemma {:induction false} EqualSignMeans(t: string, i: nat, e: nat)
    requires i <= e
    ensures var j := EqualSign(t, i, e);
            (j < e ==> At(t, j) == '=') && forall k :: i <= k < j ==> At(t, k) != '='
    decreases e - i
  {
    if i < e && At(t, i) != '=' {
      EqualSignMeans(t, i + 1, e);
    }
  }

  lemma {:induction false} EqualSignIs(u: string, i: nat, e: nat, j: nat)
    requires i <= j <= e && (j < e ==> At(u, j) == '=') && forall k :: i <= k < j ==> At(u, k) != '='
    ensures EqualSign(u, i, e) == j
    decreases j - i
  {
    if i < j {
      EqualSignIs(u, i + 1, e, j);
    }
  }

  // ------------------------------------- the same walks in another text

  /** The texts agree on their first n characters. */
  ghost predicate Agree(t: string, u: string, n: nat) {
    n <= |t| && n <= |u| && forall k :: 0 <= k < n ==> At(t, k) == At(u, k)
  }

  lemma SameSlice(t: string, u: string, n: nat, i: nat, j: nat)
    requires Agree(t, u, n) && i <= j <= n
    ensures t[i..j] == u[i..j]
  {
    forall k | i <= k < j ensures t[k] == u[k] {
      assert At(t, k) == At(u, k);
    }
  }

  lemma SameHeader(t: string, u: string, n: nat, i: nat)
    requires Agree(t, u, n) && HeaderEnd(t, i) < n
    ensures HeaderEnd(u, i) == HeaderEnd(t, i) && t[i..HeaderEnd(t, i)] == u[i..HeaderEnd(t, i)]
  {
    HeaderEndMeans(t, i);
    HeaderEndIs(u, i, HeaderEnd(t, i));
    SameSlice(t, u, n, i, HeaderEnd(t, i));
  }

  lemma SameOpens(t: string, u: string, n: nat, i: nat, section: string)
    requires Agree(t, u, n) && i < |t| && i < |u| && HeaderEnd(t, i + 1) < n
    ensures HeaderEnd(u, i + 1) == HeaderEnd(t, i + 1) && (Opens(u, i, section) <==> Opens(t, i, section))
  {
    SameHeader(t, u, n, i + 1);
  }

  lemma SameSpaces(t: string, u: string, n: nat, i: nat)
    requires Agree(t, u, n) && SpaceEnd(t, i) <= n && !IsSpace(At(u, SpaceEnd(t, i)))
    ensures SpaceEnd(u, i) == SpaceEnd(t, i)
  {
    SpaceEndMeans(t, i);
    SpaceEndIs(u, i, SpaceEnd(t, i));
  }

  lemma SameLine(t: string, u: string, n: nat, i: nat, key: string)
    requires Agree(t, u, n) && LineEnd(t, i) < n
    ensures LineEnd(u, i) == LineEnd(t, i)
    ensures KeyAt(u, i, LineEnd(t, i), key) <==> KeyAt(t, i, LineEnd(t, i), key)
  {
    var e := LineEnd(t, i);
    LineEndMeans(t, i);
    LineEndIs(u, i, e);
    EqualSignMeans(t, i, e);
    EqualSignIs(u, i, e, EqualSign(t, i, e));
    SameSlice(t, u, n, i, EqualSign(t, i, e));
  }

  /** A section without the key is left at the same place. */
  lemma {:induction false} SameMiss(t: string, u: string, n: nat, key: string, i: nat)
    requires Agree(t, u, n) && 0 < i
    requires ScanSection(t, key, i).Miss? && ScanSection(t, key, i).next < n
    ensures ScanSection(u, key, i) == ScanSection(t, key, i)
    decreases |t| + 1 - i
  {
    if !((IsNewline(At(t, i - 1)) && At(t, i) == '[') || At(t, i) == '\0') {
      SameLine(t, u, n, i, key);
      SameMiss(t, u, n, key, LineEnd(t, i) + 1);
    }
  }

  /** The value from n to e in place of the old one. */
  ghost predicate NewLineEnd(u: string, n: nat, e: nat) {
    n <= e && EndsLine(At(u, e)) && forall k :: n <= k < e ==> !EndsLine(At(u, k))
  }

  /** The line with the key ends where the new value behind the '=' at j does. */
  lemma SameLineEnd(t: string, u: string, i: nat, j: nat, e: nat)
    requires i <= j <= LineEnd(t, i) && Agree(t, u, j + 1) && !EndsLine(At(t, j)) && NewLineEnd(u, j + 1, e)
    ensures LineEnd(u, i) == e && j < e <= |u|
  {
    hide LineEnd, EndsLine;
    LineEndMeans(t, i);
    forall k | i <= k < e ensures !EndsLine(At(u, k)) {
      if k <= j {
        assert At(u, k) == At(t, k);
      }
    }
    LineEndIs(u, i, e);
  }

  lemma SameEqualSign(t: string, u: string, i: nat, j: nat, d: nat, e: nat)
    requires i <= j < d && j == EqualSign(t, i, d) && Agree(t, u, j + 1) && j < e
    ensures EqualSign(u, i, e) == j
  {
    hide EqualSign;
    EqualSignMeans(t, i, d);
    forall k | i <= k <= j ensures At(u, k) == At(t, k) {
    }
    EqualSignIs(u, i, e, j);
  }

  lemma KeyAtMeans(t: string, i: nat, key: string, j: nat)
    requires i <= LineEnd(t, i) && KeyAt(t, i, LineEnd(t, i), key) && j == EqualSign(t, i, LineEnd(t, i))
    ensures i < j < LineEnd(t, i) <= |t| && !EndsLine(At(t, j)) && At(t, i) != ';' && t[i..j] <= key
  {
    EqualSignMeans(t, i, LineEnd(t, i));
  }

  lemma SameKeyAt(t: string, u: string, i: nat, j: nat, e: nat, key: string)
    requires i < j < e <= |u| && j == EqualSign(u, i, e) && j < |t| && Agree(t, u, j + 1)
    requires At(t, i) != ';' && t[i..j] <= key
    ensures KeyAt(u, i, e, key)
  {
    hide EqualSign;
    SameSlice(t, u, j + 1, i, j);
    assert At(u, i) == At(t, i);
  }

  lemma SameKeyLine(t: string, u: string, key: string, i: nat, j: nat, e: nat)
    requires KeyAt(t, i, LineEnd(t, i), key) && j == EqualSign(t, i, LineEnd(t, i))
    requires Agree(t, u, j + 1) && NewLineEnd(u, j + 1, e)
    ensures LineEnd(u, i) == e && (e <= |u| || e == i) && KeyAt(u, i, e, key) && EqualSign(u, i, e) == j
    ensures At(u, i) == At(t, i)
  {
    hide *;
    KeyAtMeans(t, i, key, j);
    SameChar(t, u, j + 1, i);
    SameChar(t, u, j + 1, j);
    SameLineEnd(t, u, i, j, e);
    SameEqualSign(t, u, i, j, LineEnd(t, i), e);
    SameKeyAt(t, u, i, j, e, key);
  }

  lemma {:induction false} SameHit(t: string, u: string, n: nat, key: string, i: nat, e: nat)
    requires 0 < i && ScanSection(t, key, i).Hit? && n == ScanSection(t, key, i).equals + 1
    requires Agree(t, u, n) && NewLineEnd(u, n, e)
    ensures ScanSection(u, key, i) == ScanSection(t, key, i).(lineEnd := e)
    decreases |t| + 1 - i
  {
    hide KeyAt, LineEnd, EqualSign, NewLineEnd;
    HitInText(t, key, i);
    assert At(u, i - 1) == At(t, i - 1) && At(u, i) == At(t, i);
    if KeyAt(t, i, LineEnd(t, i), key) {
      SameKeyLine(t, u, key, i, n - 1, e);
    } else {
      HitInText(t, key, LineEnd(t, i) + 1);
      SameLine(t, u, n, i, key);
      SameHit(t, u, n, key, LineEnd(t, i) + 1, e);
    }
  }

  // ------------------------------------------------ one step of the scan

  /** The header at i belongs to the section. */
  predicate Opens(t: string, i: nat, section: string)
    requires i < |t|
  {
    t[i + 1..HeaderEnd(t, i + 1)] <= section
  }

  lemma StepOver(t: string, section: string, key: string, i: nat, secS: int, secE: int)
    requires i <= |t| && At(t, i) != '\0' && !HeaderStart(t, i)
    ensures ScanFile(t, section, key, i, secS, secE) == ScanFile(t, section, key, i + 1, secS, secE)
  {
  }

  lemma StepPast(t: string, section: string, key: string, i: nat, c: nat, secS: int, secE: int)
    requires i < |t| && HeaderStart(t, i) && c == HeaderEnd(t, i + 1) && !Opens(t, i, section)
    ensures ScanFile(t, section, key, i, secS, secE) == ScanFile(t, section, key, c, secS, secE)
  {
    hide ScanSection, HeaderEnd, SpaceEnd, IsNewline;
  }

  lemma StepHit(t: string, section: string, key: string, i: nat, c: nat, b: nat, secS: int, secE: int)
    requires i < |t| && HeaderStart(t, i) && c == HeaderEnd(t, i + 1) && Opens(t, i, section)
    requires b == SpaceEnd(t, c + 1) && ScanSection(t, key, b).Hit?
    ensures var r := ScanSection(t, key, b);
            ScanFile(t, section, key, i, secS, secE)
            == Span(i + 1, b, r.lineStart, r.equals - 1, r.equals + 1, r.lineEnd)
  {
    hide ScanSection, HeaderEnd, SpaceEnd, IsNewline;
  }

  lemma StepMiss(t: string, section: string, key: string, i: nat, c: nat, b: nat, secS: int, secE: int)
    requires i < |t| && HeaderStart(t, i) && c == HeaderEnd(t, i + 1) && Opens(t, i, section)
    requires b == SpaceEnd(t, c + 1) && ScanSection(t, key, b).Miss?
    ensures var m := ScanSection(t, key, b).next;
            m <= |t| + 1 && ScanFile(t, section, key, i, secS, secE) == ScanFile(t, section, key, m, i + 1, b)
  {
    hide ScanSection, HeaderEnd, SpaceEnd, IsNewline;
  }

  lemma ScanStops(t: string, section: string, key: string, i: nat, secS: int, secE: int)
    requires i <= |t| + 1
    ensures At(t, i) == '\0' ==> ScanFile(t, section, key, i, secS, secE) == Span(secS, secE, -1, -1, -1, -1)
  {
  }

  /** Where the results of a scan from i lie. */
  lemma {:induction false} SpanOrder(t: string, section: string, key: string, i: nat, secS: int, secE: int)
    requires i <= |t| + 1
    ensures var r := ScanFile(t, section, key, i, secS, secE);
            && (r.keyS != -1 ==> i <= r.keyS && r.keyS + 2 <= r.valueS <= r.valueE <= |t|)
            && (r.keyS == -1 ==> (r.secS == secS && r.secE == secE) || i < r.secS < r.secE)
    decreases |t| + 1 - i, 1
  {
    ScanStops(t, section, key, i, secS, secE);
    hide ScanFile, ScanSection, HeaderEnd, SpaceEnd, HeaderStart;
    if At(t, i) != '\0' {
      if HeaderStart(t, i) {
        SpanOrderHeader(t, section, key, i, secS, secE);
      } else {
        StepOver(t, section, key, i, secS, secE);
        SpanOrder(t, section, key, i + 1, secS, secE);
      }
    }
  }

  lemma {:induction false} SpanOrderHeader(t: string, section: string, key: string, i: nat, secS: int, secE: int)
    requires i <= |t| + 1
    requires i < |t| && At(t, i) != '\0' && HeaderStart(t, i)
    ensures var r := ScanFile(t, section, key, i, secS, secE);
            && (r.keyS != -1 ==> i <= r.keyS && r.keyS + 2 <= r.valueS <= r.valueE <= |t|)
            && (r.keyS == -1 ==> (r.secS == secS && r.secE == secE) || i < r.secS < r.secE)
    decreases |t| + 1 - i, 0
  {
    hide *;
    var c := HeaderEnd(t, i + 1);
    if Opens(t, i, section) {
      var b := SpaceEnd(t, c + 1);
      HitInText(t, key, b);
      match ScanSection(t, key, b)
      case Hit(_, _, _) => StepHit(t, section, key, i, c, b, secS, secE);
      case Miss(m) =>
        StepMiss(t, section, key, i, c, b, secS, secE);
        SpanOrder(t, section, key, m, i + 1, b);
    } else {
      StepPast(t, section, key, i, c, secS, secE);
      SpanOrder(t, section, key, c, secS, secE);
    }
  }

  // ----------------------------------------------- a key that is there

  lemma {:induction false} FileHit(t: string, u: string, section: string, key: string, i: nat, secS: int, secE: int,
                                   n: nat, e: nat)
    requires i <= |t| + 1 && ScanFile(t, section, key, i, secS, secE).keyS != -1
    requires n == ScanFile(t, section, key, i, secS, secE).valueS
    requires Agree(t, u, n) && NewLineEnd(u, n, e)
    ensures i <= |u| + 1
    ensures ScanFile(u, section, key, i, secS, secE) == ScanFile(t, section, key, i, secS, secE).(valueE := e)
    decreases |t| + 1 - i, 2
  {
    ScanStops(t, section, key, i, secS, secE);
    SpanOrder(t, section, key, i, secS, secE);
    SameChar(t, u, n, i);
    hide ScanFile, ScanSection, HeaderEnd, SpaceEnd, NewLineEnd, HeaderStart, At, Agree;
    if HeaderStart(t, i) {
      FileHitHeader(t, u, section, key, i, secS, secE, n, e);
    } else {
      StepOver(t, section, key, i, secS, secE);
      FileHit(t, u, section, key, i + 1, secS, secE, n, e);
      StepOver(u, section, key, i, secS, secE);
    }
  }

  lemma {:induction false} FileHitHeader(t: string, u: string, section: string, key: string, i: nat, secS: int, secE: int,
                                         n: nat, e: nat)
    requires i < |t| && i < |u| && HeaderStart(t, i) && HeaderStart(u, i)
    requires ScanFile(t, section, key, i, secS, secE).keyS != -1
    requires n == ScanFile(t, section, key, i, secS, secE).valueS
    requires Agree(t, u, n) && NewLineEnd(u, n, e)
    ensures ScanFile(u, section, key, i, secS, secE) == ScanFile(t, section, key, i, secS, secE).(valueE := e)
    decreases |t| + 1 - i, 1
  {
    hide *;
    if !Opens(t, i, section) {
      FileHitPast(t, u, section, key, i, secS, secE, n, e);
    } else {
      OpensSame(t, u, section, key, i, secS, secE, n);
      if ScanSection(t, key, SpaceEnd(t, HeaderEnd(t, i + 1) + 1)).Hit? {
        FileHitHere(t, u, section, key, i, secS, secE, n, e);
      } else {
        FileHitLater(t, u, section, key, i, secS, secE, n, e);
      }
    }
  }

  lemma FileHitHere(t: string, u: string, section: string, key: string, i: nat, secS: int, secE: int, n: nat, e: nat)
    requires i < |t| && i < |u| && HeaderStart(t, i) && HeaderStart(u, i)
    requires var c := HeaderEnd(t, i + 1);
             var b := SpaceEnd(t, c + 1);
             && Opens(t, i, section) && Opens(u, i, section)
             && HeaderEnd(u, i + 1) == c && SpaceEnd(u, c + 1) == b
             && ScanSection(t, key, b).Hit? && n == ScanSection(t, key, b).equals + 1
    requires Agree(t, u, n) && NewLineEnd(u, n, e)
    ensures ScanFile(u, section, key, i, secS, secE) == ScanFile(t, section, key, i, secS, secE).(valueE := e)
  {
    hide *;
    var c := HeaderEnd(t, i + 1);
    var b := SpaceEnd(t, c + 1);
    StepHit(t, section, key, i, c, b, secS, secE);
    SameHit(t, u, n, key, b, e);
    StepHit(u, section, key, i, c, b, secS, secE);
  }

  lemma {:induction false} FileHitLater(t: string, u: string, section: string, key: string, i: nat, secS: int, secE: int,
                                        n: nat, e: nat)
    requires i < |t| && i < |u| && HeaderStart(t, i) && HeaderStart(u, i)
    requires var c := HeaderEnd(t, i + 1);
             var b := SpaceEnd(t, c + 1);
             && Opens(t, i, section) && Opens(u, i, section)
             && HeaderEnd(u, i + 1) == c && SpaceEnd(u, c + 1) == b
             && ScanSection(t, key, b).Miss? && ScanSection(t, key, b).next < n
    requires ScanFile(t, section, key, i, secS, secE).keyS != -1
    requires n == ScanFile(t, section, key, i, secS, secE).valueS
    requires Agree(t, u, n) && NewLineEnd(u, n, e)
    ensures ScanFile(u, section, key, i, secS, secE) == ScanFile(t, section, key, i, secS, secE).(valueE := e)
    decreases |t| + 1 - i, 0
  {
    hide *;
    var c := HeaderEnd(t, i + 1);
    var b := SpaceEnd(t, c + 1);
    StepMiss(t, section, key, i, c, b, secS, secE);
    FileHit(t, u, section, key, ScanSection(t, key, b).next, i + 1, b, n, e);
    SameMiss(t, u, n, key, b);
    StepMiss(u, section, key, i, c, b, secS, secE);
  }

  lemma {:induction false} FileHitPast(t: string, u: string, section: string, key: string, i: nat, secS: int, secE: int,
                                       n: nat, e: nat)
    requires i < |t| && i < |u| && HeaderStart(t, i) && HeaderStart(u, i) && !Opens(t, i, section)
    requires ScanFile(t, section, key, i, secS, secE).keyS != -1
    requires n == ScanFile(t, section, key, i, secS, secE).valueS
    requires Agree(t, u, n) && NewLineEnd(u, n, e)
    ensures ScanFile(u, section, key, i, secS, secE) == ScanFile(t, section, key, i, secS, secE).(valueE := e)
    decreases |t| + 1 - i, 0
  {
    var c := HeaderEnd(t, i + 1);
    StepPast(t, section, key, i, c, secS, secE);
    SpanOrder(t, section, key, c, secS, secE);
    hide *;
    SameOpens(t, u, n, i, section);
    FileHit(t, u, section, key, c, secS, secE, n, e);
    StepPast(u, section, key, i, c, secS, secE);
  }

  lemma SameChar(t: string, u: string, n: nat, i: nat)
    requires Agree(t, u, n) && i < n
    ensures At(u, i) == At(t, i) && (HeaderStart(u, i) <==> HeaderStart(t, i)) && i < |t| && i < |u|
  {
    if i > 0 {
      assert At(u, i - 1) == At(t, i - 1);
    }
  }

  /** A header before the key is read alike. */
  lemma OpensSame(t: string, u: string, section: string, key: string, i: nat, secS: int, secE: int, n: nat)
    requires i < |t| && HeaderStart(t, i) && Opens(t, i, section)
    requires ScanFile(t, section, key, i, secS, secE).keyS != -1
    requires n == ScanFile(t, section, key, i, secS, secE).valueS && Agree(t, u, n)
    ensures var c := HeaderEnd(t, i + 1);
            var b := SpaceEnd(t, c + 1);
            && c < n && HeaderEnd(u, i + 1) == c && Opens(u, i, section)
            && b < n && SpaceEnd(u, c + 1) == b
            && (match ScanSection(t, key, b)
                case Miss(m) => m < n
                case Hit(_, j, _) => n == j + 1)
  {
    hide Opens, ScanFile, ScanSection, HeaderEnd, SpaceEnd, HeaderStart, IsSpace;
    var c := HeaderEnd(t, i + 1);
    var b := SpaceEnd(t, c + 1);
    HitInText(t, key, b);
    match ScanSection(t, key, b) {
      case Hit(_, _, _) => StepHit(t, section, key, i, c, b, secS, secE);
      case Miss(m) =>
        StepMiss(t, section, key, i, c, b, secS, secE);
        SpanOrder(t, section, key, m, i + 1, b);
    }
    SameOpens(t, u, n, i, section);
    SpaceEndMeans(t, c + 1);
    assert At(u, b) == At(t, b);
    SameSpaces(t, u, n, c + 1);
  }

  // --------------------------------------------- a key that is inserted

  /** At position b of the text stands the line of the key. */
  ghost predicate KeyLineAt(u: string, b: nat, key: string, value: string) {
    KeyName(key) && AllPlain(value) && LineAt(u, b, KeyLine(key, value))
  }

  lemma KeyLineFacts(key: string, value: string)
    requires KeyName(key) && AllPlain(value)
    ensures var line := KeyLine(key, value);
            WellFormedLine(line) && line != "" && line[0] == key[0] && !IsHeader(line) && EqualsAt(line) == |key|
            && Belongs(line, key)
  {
    KeyLineBelongs(key, value);
  }

  /** The section that begins with the line of the key has the key. */
  lemma KeyLineHit(u: string, b: nat, key: string, value: string)
    requires KeyLineAt(u, b, key, value) && 0 < b
    ensures !IsSpace(At(u, b)) && At(u, b) != '['
    ensures ScanSection(u, key, b) == Hit(b, b + |key|, b + |KeyLine(key, value)|)
  {
    var line := KeyLine(key, value);
    KeyLineFacts(key, value);
    FirstChar(u, b, line);
    LineEndAt(u, b, line, 0);
    KeyAtIs(u, b, line, key);
    hide KeyAt, LineEnd, LineAt, AllPlain, Belongs;
  }

  /** The parser finds the new line at b. */
  predicate InsertedAt(r: Span, b: nat, key: string, value: string) {
    r.keyS == b && r.valueS == b + |key| + 1 && r.valueE == b + |KeyLine(key, value)|
  }

  lemma IsInserted(r: Span, b: nat, key: string, value: string)
    requires r.keyS == b && r.valueS == b + |key| + 1 && r.valueE == b + |KeyLine(key, value)|
    ensures InsertedAt(r, b, key, value)
  {
  }

  lemma {:induction false} FileInsert(t: string, u: string, section: string, key: string, value: string,
                                      i: nat, secS: int, secE: int, b: nat)
    requires i <= |t| + 1 && secS <= i
    requires var r := ScanFile(t, section, key, i, secS, secE); r.keyS == -1 && r.secS > i && r.secE == b
    requires 0 < b <= |t| && Agree(t, u, b) && KeyLineAt(u, b, key, value)
    ensures i <= |u| + 1
    ensures InsertedAt(ScanFile(u, section, key, i, secS, secE), b, key, value)
    decreases |t| + 1 - i, 2
  {
    ScanStops(t, section, key, i, secS, secE);
    SpanOrder(t, section, key, i, secS, secE);
    SameChar(t, u, b, i);
    hide ScanFile, ScanSection, HeaderEnd, SpaceEnd, KeyLineAt, KeyLine, HeaderStart, At, Agree;
    if HeaderStart(t, i) {
      FileInsertHeader(t, u, section, key, value, i, secS, secE, b);
    } else {
      StepOver(t, section, key, i, secS, secE);
      SpanOrder(t, section, key, i + 1, secS, secE);
      FileInsert(t, u, section, key, value, i + 1, secS, secE, b);
      StepOver(u, section, key, i, secS, secE);
    }
  }

  lemma {:induction false} FileInsertHeader(t: string, u: string, section: string, key: string, value: string,
                                            i: nat, secS: int, secE: int, b: nat)
    requires i < |t| && i < |u| && HeaderStart(t, i) && HeaderStart(u, i) && secS <= i
    requires var r := ScanFile(t, section, key, i, secS, secE); r.keyS == -1 && r.secS > i && r.secE == b
    requires 0 < b <= |t| && Agree(t, u, b) && KeyLineAt(u, b, key, value)
    ensures InsertedAt(ScanFile(u, section, key, i, secS, secE), b, key, value)
    decreases |t| + 1 - i, 1
  {
    hide *;
    if Opens(t, i, section) {
      var c := HeaderEnd(t, i + 1);
      var b0 := SpaceEnd(t, c + 1);
      OpensForInsert(t, u, section, key, value, i, secS, secE, b);
      if b0 < b {
        FileInsert(t, u, section, key, value, ScanSection(t, key, b0).next, i + 1, b0, b);
        StepMiss(u, section, key, i, c, b0, secS, secE);
      } else {
        StepHit(u, section, key, i, c, b0, secS, secE);
        IsInserted(ScanFile(u, section, key, i, secS, secE), b, key, value);
      }
    } else {
      FileInsertPast(t, u, section, key, value, i, secS, secE, b);
    }
  }

  lemma {:induction false} FileInsertPast(t: string, u: string, section: string, key: string, value: string,
                                          i: nat, secS: int, secE: int, b: nat)
    requires i < |t| && i < |u| && HeaderStart(t, i) && HeaderStart(u, i) && !Opens(t, i, section) && secS <= i
    requires var r := ScanFile(t, section, key, i, secS, secE); r.keyS == -1 && r.secS > i && r.secE == b
    requires 0 < b <= |t| && Agree(t, u, b) && KeyLineAt(u, b, key, value)
    ensures InsertedAt(ScanFile(u, section, key, i, secS, secE), b, key, value)
    decreases |t| + 1 - i, 0
  {
    var c := HeaderEnd(t, i + 1);
    StepPast(t, section, key, i, c, secS, secE);
    SpanOrder(t, section, key, c, secS, secE);
    hide *;
    SameOpens(t, u, b, i, section);
    FileInsert(t, u, section, key, value, c, secS, secE, b);
    StepPast(u, section, key, i, c, secS, secE);
  }

  /** A matching header, the last one or an earlier one, is read alike. */
  lemma OpensForInsert(t: string, u: string, section: string, key: string, value: string,
                       i: nat, secS: int, secE: int, b: nat)
    requires i < |t| && HeaderStart(t, i) && Opens(t, i, section)
    requires var r := ScanFile(t, section, key, i, secS, secE); r.keyS == -1 && r.secE == b
    requires 0 < b <= |t| && Agree(t, u, b) && KeyLineAt(u, b, key, value)
    ensures var c := HeaderEnd(t, i + 1);
            var b0 := SpaceEnd(t, c + 1);
            && HeaderEnd(u, i + 1) == c < |u| && Opens(u, i, section) && SpaceEnd(u, c + 1) == b0 <= b
            && (b0 == b ==> ScanSection(u, key, b) == Hit(b, b + |key|, b + |KeyLine(key, value)|))
            && (b0 < b ==>
                  var m := ScanSection(t, key, b0);
                  && m.Miss? && ScanSection(u, key, b0) == m && i < m.next <= |t| + 1
                  && ScanFile(t, section, key, i, secS, secE) == ScanFile(t, section, key, m.next, i + 1, b0)
                  && ScanFile(t, section, key, m.next, i + 1, b0).secS > m.next)
  {
    hide Opens, ScanFile, ScanSection, HeaderEnd, SpaceEnd, KeyLineAt, KeyLine, IsSpace, HeaderStart;
    var c := HeaderEnd(t, i + 1);
    var b0 := SpaceEnd(t, c + 1);
    MissOf(t, section, key, i, c, b0, secS, secE);
    var m := ScanSection(t, key, b0).next;
    SpanOrder(t, section, key, m, i + 1, b0);
    KeyLineHit(u, b, key, value);
    SameOpens(t, u, b, i, section);
    SpaceEndMeans(t, c + 1);
    if b0 < b {
      assert At(u, b0) == At(t, b0);
      SameMiss(t, u, b, key, b0);
    }
    SameSpaces(t, u, b, c + 1);
  }

  /** A header whose scan found no key was followed by a section without it. */
  lemma MissOf(t: string, section: string, key: string, i: nat, c: nat, b: nat, secS: int, secE: int)
    requires i < |t| && HeaderStart(t, i) && c == HeaderEnd(t, i + 1) && Opens(t, i, section)
    requires b == SpaceEnd(t, c + 1) && ScanFile(t, section, key, i, secS, secE).keyS == -1
    ensures ScanSection(t, key, b).Miss? && ScanSection(t, key, b).next <= |t| + 1
    ensures ScanFile(t, section, key, i, secS, secE)
         == ScanFile(t, section, key, ScanSection(t, key, b).next, i + 1, b)
  {
    hide Opens, ScanFile, ScanSection, HeaderEnd, SpaceEnd, HeaderStart;
    HitInText(t, key, b);
    if ScanSection(t, key, b).Hit? {
      StepHit(t, section, key, i, c, b, secS, secE);
    } else {
      StepMiss(t, section, key, i, c, b, secS, secE);
    }
  }

  // ----------------------------------------------- the headers of a text

  /** No header starts from i up to j. */
  ghost predicate NoHeaderIn(t: string, i: nat, j: nat) {
    forall k :: i <= k < j ==> At(t, k) != '\0' && !HeaderStart(t, k)
  }

  lemma {:induction false} HeadersSkip(t: string, section: string, i: nat, j: nat)
    requires i <= j <= |t| + 1 && NoHeaderIn(t, i, j)
    ensures OpenHeader(t, i) == OpenHeader(t, j) && ClosedHeader(t, section, i) == ClosedHeader(t, section, j)
    decreases j - i
  {
    if i < j {
      assert At(t, i) != '\0' && !HeaderStart(t, i);
      HeadersSkip(t, section, i + 1, j);
    }
  }

  /** The lines of a section hold no header, up to where the scan leaves it. */
  lemma {:induction false} NoHeaderInSection(t: string, key: string, i: nat)
    requires NoNul(t) && 0 < i <= |t| + 1 && ScanSection(t, key, i).Miss?
    ensures ScanSection(t, key, i).next <= |t| + 1
    ensures forall k :: i <= k < ScanSection(t, key, i).next && k < |t| ==> !HeaderStart(t, k)
    decreases |t| + 1 - i
  {
    if !((IsNewline(At(t, i - 1)) && At(t, i) == '[') || At(t, i) == '\0') {
      var e := LineEnd(t, i);
      LineEndMeans(t, i);
      NoHeaderInSection(t, key, e + 1);
      forall k | i <= k < e + 1 && k < |t| ensures !HeaderStart(t, k) {
        if k > i {
          assert !EndsLine(At(t, k - 1));
        }
      }
    }
  }

  /** From the ']' of a header to where its section is left there is no other header. */
  lemma SectionHasNone(t: string, section: string, key: string, c: nat)
    requires NoNul(t) && c < |t| && t[c] == ']'
    requires ScanSection(t, key, SpaceEnd(t, c + 1)).Miss?
    ensures SpaceEnd(t, c + 1) <= |t|
    ensures var m := ScanSection(t, key, SpaceEnd(t, c + 1)).next;
            && m <= |t| + 1
            && OpenHeader(t, c) == OpenHeader(t, m) && ClosedHeader(t, section, c) == ClosedHeader(t, section, m)
  {
    var b := SpaceEnd(t, c + 1);
    var m := ScanSection(t, key, b).next;
    SpaceEndMeans(t, c + 1);
    NoHeaderInSection(t, key, b);
    var j := if m <= |t| then m else |t|;
    forall k | c <= k < j ensures At(t, k) != '\0' && !HeaderStart(t, k) {
      if c < k < b {
        assert IsSpace(At(t, k));
      }
    }
    HeadersSkip(t, section, c, j);
  }

  /**
   * An open header that belongs to the section takes it over, behind the end
   * of the text; otherwise the section is found just when a header is `closed`.
   */
  ghost predicate Decided(t: string, section: string, i: nat, r: Span, open: Option<nat>, closed: bool) {
    && (open.Some? ==> i <= open.value < |t|)
    && if open.Some? && t[open.value + 1..] <= section then r.secS != -1 && r.secE > |t|
       else (r.secS != -1 <==> closed) && (r.secS != -1 ==> 0 <= r.secE <= |t|)
  }

  lemma HeadersStep(t: string, section: string, i: nat, c: nat)
    requires i < |t| && HeaderStart(t, i) && c == HeaderEnd(t, i + 1)
    ensures OpenHeader(t, i) == if At(t, c) == ']' then OpenHeader(t, c) else Some(i)
    ensures ClosedHeader(t, section, i)
            <==> At(t, c) == ']' && (Opens(t, i, section) || ClosedHeader(t, section, c))
  {
    hide HeaderEnd;
  }

  /** What the parser says of the section is what the headers say. */
  lemma {:induction false} HeadersDecide(t: string, section: string, key: string, i: nat, secS: int, secE: int)
    requires NoNul(t) && i <= |t| + 1 && (secS == -1 || (0 <= secS && 0 <= secE <= |t|))
    requires ScanFile(t, section, key, i, secS, secE).keyS == -1
    ensures Decided(t, section, i, ScanFile(t, section, key, i, secS, secE), OpenHeader(t, i),
                    secS != -1 || ClosedHeader(t, section, i))
    decreases |t| + 1 - i, 1
  {
    ScanStops(t, section, key, i, secS, secE);
    hide ScanFile, ScanSection, HeaderEnd, SpaceEnd, HeaderStart;
    if At(t, i) != '\0' {
      if HeaderStart(t, i) {
        HeadersDecideHeader(t, section, key, i, secS, secE);
      } else {
        StepOver(t, section, key, i, secS, secE);
        HeadersDecide(t, section, key, i + 1, secS, secE);
      }
    }
  }

  lemma {:induction false} HeadersDecideHeader(t: string, section: string, key: string, i: nat, secS: int, secE: int)
    requires NoNul(t) && i <= |t| + 1 && (secS == -1 || (0 <= secS && 0 <= secE <= |t|))
    requires ScanFile(t, section, key, i, secS, secE).keyS == -1
    requires i < |t| && At(t, i) != '\0' && HeaderStart(t, i)
    ensures Decided(t, section, i, ScanFile(t, section, key, i, secS, secE), OpenHeader(t, i),
                    secS != -1 || ClosedHeader(t, section, i))
    decreases |t| + 1 - i, 0
  {
    hide Opens, ScanFile, ScanSection, HeaderEnd, SpaceEnd, HeaderStart, OpenHeader, ClosedHeader;
    var c := HeaderEnd(t, i + 1);
    HeaderEndMeans(t, i + 1);
    HeadersStep(t, section, i, c);
    if At(t, c) == ']' {
      if Opens(t, i, section) {
        var b := SpaceEnd(t, c + 1);
        MissOf(t, section, key, i, c, b, secS, secE);
        SectionHasNone(t, section, key, c);
        HeadersDecide(t, section, key, ScanSection(t, key, b).next, i + 1, b);
      } else {
        StepPast(t, section, key, i, c, secS, secE);
        HeadersDecide(t, section, key, c, secS, secE);
      }
    } else {
      OpenEnds(t, section, key, i, secS, secE);
    }
  }

  /** At an open header the scan is at its end. */
  lemma OpenEnds(t: string, section: string, key: string, i: nat, secS: int, secE: int)
    requires NoNul(t) && i < |t| && HeaderStart(t, i) && At(t, HeaderEnd(t, i + 1)) != ']'
    ensures HeaderEnd(t, i + 1) == |t|
    ensures ScanFile(t, section, key, i, secS, secE)
         == if t[i + 1..] <= section then Span(i + 1, |t| + 1, -1, -1, -1, -1) else Span(secS, secE, -1, -1, -1, -1)
  {
    HeaderEndMeans(t, i + 1);
    var c := HeaderEnd(t, i + 1);
    assert c == |t|;
    assert t[i + 1..c] == t[i + 1..];
    assert SpaceEnd(t, c + 1) == c + 1;
    assert ScanSection(t, key, c + 1) == Miss(c + 1);
  }

  // ------------------------------------------- a key in a new section

  /** A text without the section is passed over, up to a header left open. */
  lemma {:induction false} Unfound(t: string, u: string, section: string, key: string, i: nat)
    requires NoNul(t) && Agree(t, u, |t|) && i <= |t|
    requires var r := ScanFile(t, section, key, i, -1, -1); r.keyS == -1 && r.secS == -1
    ensures OpenHeader(t, i).Some? ==> i <= OpenHeader(t, i).value < |t| && HeaderStart(t, OpenHeader(t, i).value)
                                       && HeaderEnd(t, OpenHeader(t, i).value + 1) == |t|
    ensures ScanFile(u, section, key, i, -1, -1)
         == ScanFile(u, section, key, if OpenHeader(t, i).Some? then OpenHeader(t, i).value else |t|, -1, -1)
    decreases |t| - i
  {
    hide Opens, ScanFile, ScanSection, HeaderEnd, SpaceEnd, HeaderStart, ClosedHeader, Agree;
    if i < |t| {
      SameChar(t, u, |t|, i);
      if HeaderStart(t, i) {
        if Opens(t, i, section) {
          UnfoundHeader(t, section, key, i);
        }
        WhereHeaderEnds(t, i + 1);
        var c := HeaderEnd(t, i + 1);
        if At(t, c) == ']' {
          StepPast(t, section, key, i, c, -1, -1);
          SameOpens(t, u, |t|, i, section);
          Unfound(t, u, section, key, c);
          StepPast(u, section, key, i, c, -1, -1);
        }
      } else {
        StepOver(t, section, key, i, -1, -1);
        Unfound(t, u, section, key, i + 1);
        StepOver(u, section, key, i, -1, -1);
      }
    }
  }

  lemma UnfoundHeader(t: string, section: string, key: string, i: nat)
    requires i < |t| && HeaderStart(t, i) && Opens(t, i, section)
    ensures var r := ScanFile(t, section, key, i, -1, -1); r.keyS == -1 ==> r.secS != -1
  {
    hide *;
    var c := HeaderEnd(t, i + 1);
    var b := SpaceEnd(t, c + 1);
    if ScanFile(t, section, key, i, -1, -1).keyS == -1 {
      MissOf(t, section, key, i, c, b, -1, -1);
      SpanOrder(t, section, key, ScanSection(t, key, b).next, i + 1, b);
    }
  }

  lemma WhereHeaderEnds(t: string, i: nat)
    requires NoNul(t) && i <= |t|
    ensures var c := HeaderEnd(t, i); if At(t, c) == ']' then c < |t| else c == |t|
  {
    HeaderEndMeans(t, i);
  }

  /** The lines the setter adds for a new section, at p and q. */
  ghost predicate NewSectionAt(u: string, p: nat, section: string, key: string, value: string) {
    && SectionName(section) && LineAt(u, p, "[" + section + "]") && IsLineStart(u, p)
    && KeyLineAt(u, p + |section| + 3, key, value)
    && |u| == p + |section| + 3 + |KeyLine(key, value)| + 1
  }

  lemma HeaderLine(section: string)
    requires SectionName(section)
    ensures var h := "[" + section + "]";
            WellFormedLine(h) && IsHeader(h) && Name(h) == section && |h| == |section| + 2 && h[0] == '['
  {
    HeaderFor(section);
  }

  /** Reached from outside, the new section has the key. */
  lemma NewSectionHit(u: string, p: nat, section: string, key: string, value: string)
    requires NewSectionAt(u, p, section, key, value)
    ensures InsertedAt(ScanFile(u, section, key, p, -1, -1), p + |section| + 3, key, value)
  {
    var q := p + |section| + 3;
    HeaderLine(section);
    KeyLineHit(u, q, key, value);
    HeaderStep(u, p, "[" + section + "]", section, key, -1, -1);
    assert SpaceEnd(u, q) == q;
    hide ScanFile, ScanSection, SpaceEnd, KeyLineAt, KeyLine, LineAt;
  }

  /** A header left open before the new section runs on to the new section's ']'. */
  lemma NewSectionSwallowed(u: string, h: nat, p: nat, section: string, key: string, value: string)
    requires NewSectionAt(u, p, section, key, value) && h < p && h < |u|
    requires forall k :: h < k < p ==> At(u, k) != ']' && At(u, k) != '\0'
    ensures HeaderEnd(u, h + 1) == p + |section| + 1 && !Opens(u, h, section)
  {
    var header := "[" + section + "]";
    HeaderLine(section);
    HeaderName(u, p, header);
    HeaderEndMeans(u, p + 1);
    FirstChar(u, p, header);
    HeaderEndIs(u, h + 1, p + |section| + 1);
    assert |u[h + 1..p + |section| + 1]| > |section|;
  }

  /** From the ']' of the new section on there is no header. */
  lemma NewSectionRest(u: string, p: nat, section: string, key: string, value: string)
    requires NewSectionAt(u, p, section, key, value)
    ensures p + |section| + 1 <= |u|
    ensures ScanFile(u, section, key, p + |section| + 1, -1, -1).keyS == -1
  {
    var header, line := "[" + section + "]", KeyLine(key, value);
    HeaderLine(section);
    KeyLineFacts(key, value);
    hide ScanFile, LineAt, IsHeader, Belongs, EqualsAt;
    SkipLine(u, p, header, |header| - 1, section, key, -1, -1);
    SkipLine(u, p + |header| + 1, line, 0, section, key, -1, -1);
    ScanFileEnd(u, section, key, -1, -1);
  }

  /** Swallowed, it has not. */
  lemma NewSectionLost(u: string, h: nat, p: nat, section: string, key: string, value: string)
    requires NewSectionAt(u, p, section, key, value) && h < p && h < |u| && HeaderStart(u, h)
    requires forall k :: h < k < p ==> At(u, k) != ']' && At(u, k) != '\0'
    ensures ScanFile(u, section, key, h, -1, -1).keyS == -1
  {
    hide *;
    NewSectionSwallowed(u, h, p, section, key, value);
    NewSectionRest(u, p, section, key, value);
    StepPast(u, section, key, h, p + |section| + 1, -1, -1);
  }

  // ------------------------------------------------------- main results

  /** The line of a value that was found ends where the value ends. */
  lemma {:induction false} HitLineEnds(t: string, key: string, i: nat)
    requires 0 < i && ScanSection(t, key, i).Hit?
    ensures EndsLine(At(t, ScanSection(t, key, i).lineEnd))
    decreases |t| + 1 - i
  {
    LineEndMeans(t, i);
    hide LineEnd, KeyAt, EqualSign;
    if !KeyAt(t, i, LineEnd(t, i), key) {
      HitLineEnds(t, key, LineEnd(t, i) + 1);
    }
  }

  /** A value that was found is in a section that was found, and ends its line. */
  lemma {:induction false} ValueEndsLine(t: string, section: string, key: string, i: nat, secS: int, secE: int)
    requires i <= |t| + 1 && ScanFile(t, section, key, i, secS, secE).keyS != -1
    ensures var r := ScanFile(t, section, key, i, secS, secE); r.secS >= 0 && r.valueE >= 0 && EndsLine(At(t, r.valueE))
    decreases |t| + 1 - i
  {
    hide Opens, ScanFile, ScanSection, HeaderEnd, SpaceEnd, HeaderStart, EndsLine;
    ScanStops(t, section, key, i, secS, secE);
    if !HeaderStart(t, i) {
      StepOver(t, section, key, i, secS, secE);
      ValueEndsLine(t, section, key, i + 1, secS, secE);
    } else {
      var c := HeaderEnd(t, i + 1);
      if !Opens(t, i, section) {
        StepPast(t, section, key, i, c, secS, secE);
        ValueEndsLine(t, section, key, c, secS, secE);
      } else {
        var b := SpaceEnd(t, c + 1);
        if ScanSection(t, key, b).Hit? {
          StepHit(t, section, key, i, c, b, secS, secE);
          HitLineEnds(t, key, b);
        } else {
          StepMiss(t, section, key, i, c, b, secS, secE);
          ValueEndsLine(t, section, key, ScanSection(t, key, b).next, i + 1, b);
        }
      }
    }
  }

  /** A value put between two stretches of text. */
  lemma Spliced(t: string, s: nat, e: nat, value: string)
    requires s <= e <= |t| && AllPlain(value) && EndsLine(At(t, e))
    ensures var u := t[..s] + value + t[e..];
            Agree(t, u, s) && NewLineEnd(u, s, s + |value|) && u[s..s + |value|] == value
  {
    var u := t[..s] + value + t[e..];
    assert At(u, s + |value|) == At(t, e);
    forall k | s <= k < s + |value| ensures !EndsLine(At(u, k)) {
      assert At(u, k) == value[k - s];
    }
  }

  /** A key that is there is updated in place and reads as its new value, in any text. */
  lemma SetPresent(t: string, section: string, key: string, value: string)
    requires ReadText(t, section, key).Some? && AllPlain(value)
    ensures ReadText(SetText(t, section, key, value), section, key) == Some(value)
  {
    var r := ScanFile(t, section, key, 0, -1, -1);
    SpanInText(t, section, key, 0, -1, -1);
    ValueEndsLine(t, section, key, 0, -1, -1);
    Spliced(t, r.valueS, r.valueE, value);
    var u := t[..r.valueS] + value + t[r.valueE..];
    FileHit(t, u, section, key, 0, -1, -1, r.valueS, r.valueS + |value|);
    hide ScanFile, EndsLine, NewLineEnd, Agree;
    assert SetText(t, section, key, value) == u;
  }

  /** A line put in at b. */
  lemma Inserted(t: string, b: nat, key: string, value: string)
    requires b <= |t| && KeyName(key) && AllPlain(value)
    ensures var u := t[..b] + KeyLine(key, value) + "\n" + t[b..];
            Agree(t, u, b) && KeyLineAt(u, b, key, value)
  {
    var line := KeyLine(key, value);
    LineBetween(t[..b], line, t[b..]);
    hide KeyLine;
    var u := t[..b] + line + "\n" + t[b..];
    assert forall k :: 0 <= k < b ==> u[k] == t[k];
  }

  /** A key that is not there, in a section that is. */
  lemma SetInserted(t: string, section: string, key: string, value: string)
    requires NoNul(t) && KeyName(key) && AllPlain(value)
    requires var r := ScanFile(t, section, key, 0, -1, -1); r.keyS == -1 && r.secS != -1 && 0 <= r.secE <= |t|
    ensures ReadText(SetText(t, section, key, value), section, key) == Some(value)
  {
    var r := ScanFile(t, section, key, 0, -1, -1);
    SpanOrder(t, section, key, 0, -1, -1);
    var b: nat := r.secE;
    Inserted(t, b, key, value);
    var u := t[..b] + KeyLine(key, value) + "\n" + t[b..];
    FileInsert(t, u, section, key, value, 0, -1, -1, b);
    assert SetText(t, section, key, value) == u;
    hide ScanFile, KeyLineAt, Agree, KeyLine, InsertedAt;
    InsertedValue(u, section, key, value, b);
  }

  /** What the setter appends for a new section. */
  function WithSection(t: string, section: string, key: string, value: string): string {
    t + (if t == "" then "" else "\n") + ("[" + section + "]") + "\n" + KeyLine(key, value) + "\n"
  }

  function SectionAt(t: string): nat { if t == "" then 0 else |t| + 1 }

  lemma AppendedLines(front: string, header: string, line: string)
    ensures var u := front + header + "\n" + line + "\n";
            && LineAt(u, |front|, header) && LineAt(u, |front| + |header| + 1, line)
            && forall k :: 0 <= k < |front| ==> At(u, k) == At(front, k)
  {
    var u := front + header + "\n" + line + "\n";
    LineBetween(front, header, line + "\n");
    assert front + header + "\n" + (line + "\n") == u;
    LineBetween(front + header + "\n", line, "");
    assert front + header + "\n" + line + "\n" + "" == u;
    hide LineAt;
  }

  lemma Appended(t: string, section: string, key: string, value: string)
    requires SectionName(section) && KeyName(key) && AllPlain(value)
    ensures var p, u := SectionAt(t), WithSection(t, section, key, value);
            && Agree(t, u, |t|) && NewSectionAt(u, p, section, key, value)
            && |t| < |u| && (t != "" ==> At(u, |t|) == '\n')
  {
    var front := t + (if t == "" then "" else "\n");
    var u := WithSection(t, section, key, value);
    AppendedLines(front, "[" + section + "]", KeyLine(key, value));
    hide LineAt, KeyLine;
    forall k | 0 <= k < |t| ensures At(u, k) == At(t, k) {
      assert At(u, k) == At(front, k);
    }
    if t != "" {
      assert At(u, |t|) == At(front, |t|);
    }
  }

  /** The value of the line the parser finds. */
  lemma InsertedValue(u: string, section: string, key: string, value: string, b: nat)
    requires KeyLineAt(u, b, key, value) && InsertedAt(ScanFile(u, section, key, 0, -1, -1), b, key, value)
    ensures ReadText(u, section, key) == Some(value)
  {
    KeyLineBelongs(key, value);
    ValueAt(u, b, KeyLine(key, value));
    SpanInText(u, section, key, 0, -1, -1);
    hide ScanFile, KeyLine, EqualsAt, Value, IsHeader, LineAt;
  }

  lemma SetTextAppends(t: string, section: string, key: string, value: string)
    requires var r := ScanFile(t, section, key, 0, -1, -1); r.keyS == -1 && r.secS == -1
    ensures SetText(t, section, key, value) == WithSection(t, section, key, value)
  {
    hide ScanFile;
  }

  /** A key that is not there, in a section that is not either. */
  lemma SetAppended(t: string, section: string, key: string, value: string)
    requires NoNul(t) && SectionName(section) && KeyName(key) && AllPlain(value)
    requires var r := ScanFile(t, section, key, 0, -1, -1); r.keyS == -1 && r.secS == -1
    ensures ReadText(SetText(t, section, key, value), section, key)
         == if OpenHeader(t, 0).None? then Some(value) else None
  {
    hide SetText, WithSection, SectionAt, Agree, NewSectionAt, OpenHeader, ScanFile, NoNul, SectionName, KeyName, AllPlain,
         HeaderStart, HeaderEnd, At, ReadText;
    var u := WithSection(t, section, key, value);
    SetTextAppends(t, section, key, value);
    Appended(t, section, key, value);
    Unfound(t, u, section, key, 0);
    if OpenHeader(t, 0).None? {
      AppendedHit(t, u, section, key, value);
    } else {
      AppendedLost(t, u, OpenHeader(t, 0).value, section, key, value);
    }
  }

  lemma AppendedHit(t: string, u: string, section: string, key: string, value: string)
    requires |t| < |u| && (t != "" ==> At(u, |t|) == '\n') && NewSectionAt(u, SectionAt(t), section, key, value)
    requires ScanFile(u, section, key, 0, -1, -1) == ScanFile(u, section, key, |t|, -1, -1)
    ensures ReadText(u, section, key) == Some(value)
  {
    AtNewline(t, u, section, key);
    NewSectionHit(u, SectionAt(t), section, key, value);
    assert KeyLineAt(u, SectionAt(t) + |section| + 3, key, value);
    hide ReadText, ScanFile, NewSectionAt, InsertedAt, KeyLineAt;
    InsertedValue(u, section, key, value, SectionAt(t) + |section| + 3);
  }

  lemma AppendedLost(t: string, u: string, h: nat, section: string, key: string, value: string)
    requires NoNul(t) && h < |t| < |u| && HeaderStart(t, h) && HeaderEnd(t, h + 1) == |t|
    requires Agree(t, u, |t|) && At(u, |t|) == '\n' && NewSectionAt(u, SectionAt(t), section, key, value)
    requires ScanFile(u, section, key, 0, -1, -1) == ScanFile(u, section, key, h, -1, -1)
    ensures ReadText(u, section, key) == None
  {
    SameChar(t, u, |t|, h);
    HeaderEndMeans(t, h + 1);
    forall k | h < k < SectionAt(t) ensures At(u, k) != ']' && At(u, k) != '\0' {
      if k < |t| {
        assert At(u, k) == At(t, k);
      }
    }
    hide ScanFile, NewSectionAt, HeaderStart, HeaderEnd;
    NewSectionLost(u, h, SectionAt(t), section, key, value);
  }

  /** The blank line in front of a new section. */
  lemma AtNewline(t: string, u: string, section: string, key: string)
    requires |t| < |u| && (t != "" ==> At(u, |t|) == '\n')
    ensures t != "" ==> ScanFile(u, section, key, |t|, -1, -1) == ScanFile(u, section, key, |t| + 1, -1, -1)
  {
  }

  /**
   * In any text, a key that was not there reads back after it has been set
   * exactly when no header is left open, or the open one does not belong to the
   * section and a closed one before it does.
   */
  lemma SetAbsentIff(t: string, section: string, key: string, value: string)
    requires NoNul(t) && SectionName(section) && KeyName(key) && AllPlain(value)
    requires ReadText(t, section, key) == None
    ensures ReadText(SetText(t, section, key, value), section, key) == Some(value) <==>
            match OpenHeader(t, 0)
            case None => true
            case Some(h) => h < |t| && !(t[h + 1..] <= section) && ClosedHeader(t, section, 0)
  {
    var r := ScanFile(t, section, key, 0, -1, -1);
    HeadersDecide(t, section, key, 0, -1, -1);
    hide ScanFile, OpenHeader, ClosedHeader;
    if r.secS == -1 {
      SetAppended(t, section, key, value);
    } else if r.secE <= |t| {
      SetInserted(t, section, key, value);
    } else {
      assert SetText(t, section, key, value) == t;
    }
  }

  /** Witnesses: an open header swallows a new section, and leaves an earlier section alone. */
  lemma OpenHeaderWitnesses()
    ensures ReadText("[b", "a", "k") == None && ReadText(SetText("[b", "a", "k", "v"), "a", "k") != Some("v")
    ensures ReadText("[a]\n[b", "a", "k") == None && ReadText(SetText("[a]\n[b", "a", "k", "v"), "a", "k") == Some("v")
  {
    assert SectionName("a") && KeyName("k") && AllPlain("v");
    OpenAlone();
    SetAbsentIff("[b", "a", "k", "v");
    OpenBehind();
    SetAbsentIff("[a]\n[b", "a", "k", "v");
  }

  lemma OpenAlone()
    ensures NoNul("[b") && ReadText("[b", "a", "k") == None
    ensures OpenHeader("[b", 0) == Some(0) && !ClosedHeader("[b", "a", 0)
  {
    var t := "[b";
    assert HeaderEnd(t, 2) == 2 && HeaderEnd(t, 1) == 2;
    assert t[1..2] == "b";
    assert ScanFile(t, "a", "k", 0, -1, -1) == ScanFile(t, "a", "k", 2, -1, -1);
  }

  lemma OpenBehind()
    ensures NoNul("[a]\n[b") && ReadText("[a]\n[b", "a", "k") == None
    ensures OpenHeader("[a]\n[b", 0) == Some(4) && "[a]\n[b"[5..] == "b" && ClosedHeader("[a]\n[b", "a", 0)
  {
    OpenBehindHeaders();
    OpenBehindScan();
    hide *;
  }

  lemma OpenBehindEnds()
    ensures HeaderEnd("[a]\n[b", 1) == 2 && "[a]\n[b"[1..2] == "a"
    ensures HeaderEnd("[a]\n[b", 5) == 6 && "[a]\n[b"[5..6] == "b" && "[a]\n[b"[5..] == "b"
  {
    var t := "[a]\n[b";
    assert HeaderEnd(t, 2) == 2 && HeaderEnd(t, 6) == 6;
  }

  lemma OpenBehindHeaders()
    ensures NoNul("[a]\n[b") && OpenHeader("[a]\n[b", 0) == Some(4) && "[a]\n[b"[5..] == "b"
    ensures ClosedHeader("[a]\n[b", "a", 0)
  {
    hide HeaderEnd;
    OpenBehindEnds();
    var t := "[a]\n[b";
    assert OpenHeader(t, 4) == Some(4);
    assert OpenHeader(t, 3) == OpenHeader(t, 4);
    assert OpenHeader(t, 2) == OpenHeader(t, 3);
  }

  lemma OpenBehindScan()
    ensures ReadText("[a]\n[b", "a", "k") == None
  {
    hide HeaderEnd;
    OpenBehindEnds();
    var t := "[a]\n[b";
    assert SpaceEnd(t, 4) == 4 && SpaceEnd(t, 3) == 4;
    assert ScanSection(t, "k", 4) == Miss(4);
    assert t[5..6][0] == 'b' && "a"[0] == 'a';
    assert ScanFile(t, "a", "k", 0, -1, -1) == ScanFile(t, "a", "k", 4, 1, 4);
    assert HeaderStart(t, 4) && !Opens(t, 4, "a");
    StepPast(t, "a", "k", 4, 6, 1, 4);
  }
}
