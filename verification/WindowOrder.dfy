/**
 * The priorities of a video wall: every open window has a priority in its
 * decoder, renumbered in place when a window is opened, raised or closed.
 * The priorities represent one list of windows from bottom to top.
 */
module WindowOrder {
  import opened TaskIds

  const U32: nat := 0x1_0000_0000

  /** DP_U32 arithmetic. */
  function Plus1(p: nat): nat { (p + 1) % U32 }
  function Minus1(p: nat): nat { (p + U32 - 1) % U32 }

  // ------------------------------------------------------- the z-order

  /**
   * z lists the slots of the open windows from bottom to top: the priority of
   * each is its place, and no other decoder is shown.
   */
  ghost predicate Represents(decoders: seq<Decoder>, z: seq<nat>) {
    && (forall k :: 0 <= k < |z| ==>
          z[k] < |decoders| && decoders[z[k]].bSwms && decoders[z[k]].priority == k)
    && (forall i :: 0 <= i < |decoders| && decoders[i].bSwms ==>
          decoders[i].priority < |z| && z[decoders[i].priority] == i)
  }

  /** The priority vector 0, 1, ..., n - 1. */
  function UpTo(n: nat): (s: seq<nat>)
    ensures |s| == n && forall i :: 0 <= i < n ==> s[i] == i
  {
    if n == 0 then [] else UpTo(n - 1) + [n - 1]
  }

  lemma UpToPop(n: nat)
    requires n > 0
    ensures UpTo(n)[..n - 1] == UpTo(n - 1)
  {
  }

  function Removed(z: seq<nat>, k: nat): seq<nat>
    requires k < |z|
  {
    z[..k] + z[k + 1..]
  }

  function Raised(z: seq<nat>, k: nat): seq<nat>
    requires k < |z|
  {
    Removed(z, k) + [z[k]]
  }

  /** What one decoder becomes when the loop over all decoders meets it. */
  function Lowered(d: Decoder, origin: nat): Decoder {
    if d.bSwms && d.priority >= origin then d.(priority := Minus1(d.priority)) else d
  }

  /** Every shown decoder but `it` at or above `origin` moves down by one. */
  ghost predicate Renumbered(before: seq<Decoder>, after: seq<Decoder>, it: nat, origin: nat) {
    && |after| == |before|
    && forall i :: 0 <= i < |before| ==> after[i] == if i == it then before[i] else Lowered(before[i], origin)
  }

  lemma OpenRepresents(decoders: seq<Decoder>, z: seq<nat>, s: nat, d: Decoder)
    requires Represents(decoders, z) && s < |decoders| && !decoders[s].bSwms
    requires d.bSwms && d.priority == |z|
    ensures Represents(decoders[s := d], z + [s])
  {
  }

  lemma MoveRepresents(decoders: seq<Decoder>, z: seq<nat>, s: nat, d: Decoder, after: seq<Decoder>)
    requires Represents(decoders, z) && s < |decoders| && decoders[s].bSwms && |z| < U32
    requires d.bSwms && d.priority == |z| - 1
    requires Renumbered(decoders[s := d], after, s, decoders[s].priority)
    ensures Represents(after, Raised(z, decoders[s].priority))
  {
    var k := decoders[s].priority;
    assert z[k] == s;
    forall i | 0 <= i < |after| && after[i].bSwms && i != s
      ensures after[i].priority == if decoders[i].priority > k then decoders[i].priority - 1 else decoders[i].priority
    {
      assert z[decoders[i].priority] == i;
    }
    var z' := Raised(z, k);
    forall j | 0 <= j < |z'|
      ensures z'[j] < |after| && after[z'[j]].bSwms && after[z'[j]].priority == j
    {
      if j < |z| - 1 {
        assert z'[j] == if j < k then z[j] else z[j + 1];
      }
    }
  }

  lemma CloseRepresents(decoders: seq<Decoder>, z: seq<nat>, s: nat, d: Decoder, after: seq<Decoder>)
    requires Represents(decoders, z) && s < |decoders| && decoders[s].bSwms && |z| < U32
    requires !d.bSwms
    requires Renumbered(decoders[s := d], after, s, decoders[s].priority)
    ensures Represents(after, Removed(z, decoders[s].priority))
  {
    var k := decoders[s].priority;
    assert z[k] == s;
    forall i | 0 <= i < |after| && after[i].bSwms
      ensures after[i].priority == if decoders[i].priority > k then decoders[i].priority - 1 else decoders[i].priority
    {
      assert z[decoders[i].priority] == i;
    }
    var z' := Removed(z, k);
    forall j | 0 <= j < |z'|
      ensures z'[j] < |after| && after[z'[j]].bSwms && after[z'[j]].priority == j
    {
      assert z'[j] == if j < k then z[j] else z[j + 1];
    }
  }

  function Shown(decoders: seq<Decoder>): set<nat> {
    set i | 0 <= i < |decoders| && decoders[i].bSwms
  }

  /** Any list the priorities represent has one place for each shown decoder. */
  lemma PlacesCount(decoders: seq<Decoder>, z: seq<nat>)
    requires Represents(decoders, z)
    ensures |z| == |Shown(decoders)| <= |decoders|
  {
    MembersCount(z);
    assert Members(z) == Shown(decoders) by {
      forall i | i in Shown(decoders) ensures i in Members(z) {
        assert z[decoders[i].priority] == i;
      }
    }
    forall i | i in Shown(decoders) ensures i in Members(UpTo(|decoders|)) {
      assert UpTo(|decoders|)[i] == i;
    }
    MembersCount(UpTo(|decoders|));
    Subset(Shown(decoders), Members(UpTo(|decoders|)));
  }

  lemma SamePriority(decoders: seq<Decoder>, z: seq<nat>, v: nat, w: nat)
    requires v < |decoders| && w < |decoders| && v != w
    requires decoders[v].bSwms && decoders[w].bSwms && decoders[v].priority == decoders[w].priority
    ensures !Represents(decoders, z)
  {
  }

  lemma HighPriority(decoders: seq<Decoder>, z: seq<nat>, w: nat)
    requires w < |decoders| && decoders[w].bSwms && decoders[w].priority >= |decoders|
    ensures !Represents(decoders, z)
  {
    if Represents(decoders, z) {
      PlacesCount(decoders, z);
    }
  }

  /**
   * Moving a decoder that is not shown gives two windows one priority, or lets
   * the bottom window's underflow: no list is represented any more.
   */
  lemma MovedStranger(decoders: seq<Decoder>, z: seq<nat>, s: nat, d: Decoder, after: seq<Decoder>, z': seq<nat>)
    requires Represents(decoders, z) && s < |decoders| && !decoders[s].bSwms && !d.bSwms
    requires decoders[s].priority < |z| && |decoders| < U32
    requires Renumbered(decoders[s := d], after, s, decoders[s].priority)
    ensures !Represents(after, z')
  {
    var k := decoders[s].priority;
    PlacesCount(decoders, z);
    assert after[z[k]].bSwms && after[z[k]].priority == Minus1(k);
    if k > 0 {
      assert after[z[k - 1]] == decoders[z[k - 1]];
      SamePriority(after, z', z[k - 1], z[k]);
    } else {
      HighPriority(after, z', z[k]);
    }
  }

  /** A stranger closed or moved leaves the set of shown decoders as it was. */
  lemma StrangerShows(decoders: seq<Decoder>, s: nat, d: Decoder, after: seq<Decoder>, origin: nat)
    requires s < |decoders| && !decoders[s].bSwms && !d.bSwms
    requires Renumbered(decoders[s := d], after, s, origin)
    ensures Shown(after) == Shown(decoders)
  {
  }

  /** With no priority at or above its origin, the loop changes nothing. */
  lemma HighStranger(decoders: seq<Decoder>, z: seq<nat>, s: nat, d: Decoder, after: seq<Decoder>, origin: nat)
    requires Represents(decoders, z) && s < |decoders| && !decoders[s].bSwms && !d.bSwms
    requires origin >= |z|
    requires Renumbered(decoders[s := d], after, s, origin)
    ensures Represents(after, z)
  {
    assert forall i :: 0 <= i < |after| && i != s ==> after[i] == decoders[i];
  }

  // -------------------------------------------------- recovered windows

  /** The priorities of the shown decoders, in the order of the table. */
  function Priorities(decoders: seq<Decoder>): seq<nat> {
    if decoders == [] then [] else
      var d := decoders[|decoders| - 1];
      Priorities(decoders[..|decoders| - 1]) + if d.bSwms then [d.priority] else []
  }

  ghost predicate Apart(decoders: seq<Decoder>) {
    forall i, j :: 0 <= i < j < |decoders| && decoders[i].bSwms && decoders[j].bSwms ==>
      decoders[i].priority != decoders[j].priority
  }

  lemma {:induction false} PrioritiesAre(decoders: seq<Decoder>)
    ensures forall p :: p in Priorities(decoders) <==>
              exists i :: 0 <= i < |decoders| && decoders[i].bSwms && decoders[i].priority == p
  {
    if decoders != [] {
      PrioritiesAre(decoders[..|decoders| - 1]);
      assert decoders == decoders[..|decoders| - 1] + [decoders[|decoders| - 1]];
    }
  }

  lemma {:induction false} PrioritiesApart(decoders: seq<Decoder>)
    ensures NoDuplicates(Priorities(decoders)) <==> Apart(decoders)
  {
    if decoders != [] {
      var front, d := decoders[..|decoders| - 1], decoders[|decoders| - 1];
      PrioritiesApart(front);
      PrioritiesAre(front);
      ApartSnoc(front, d);
      assert decoders == front + [d];
      assert Priorities(front) + [] == Priorities(front);
      hide Apart, NoDuplicates;
      if d.bSwms {
        SnocDuplicates(Priorities(front), d.priority);
      }
    }
  }

  lemma ApartSnoc(front: seq<Decoder>, d: Decoder)
    ensures Apart(front + [d]) <==>
            Apart(front) && forall i :: 0 <= i < |front| && front[i].bSwms && d.bSwms ==> front[i].priority != d.priority
  {
    var all := front + [d];
    if Apart(all) {
      assert forall i :: 0 <= i < |front| ==> all[i] == front[i];
      assert all[|front|] == d;
      forall i, j | 0 <= i < j < |front| && front[i].bSwms && front[j].bSwms
        ensures front[i].priority != front[j].priority
      {
        assert all[i].bSwms && all[j].bSwms;
      }
    }
  }

  lemma SnocDuplicates(s: seq<nat>, x: nat)
    ensures NoDuplicates(s + [x]) <==> NoDuplicates(s) && x !in s
  {
    if NoDuplicates(s + [x]) {
      forall i, j | 0 <= i < j < |s| ensures s[i] != s[j] {
        assert (s + [x])[i] != (s + [x])[j];
      }
      forall i | 0 <= i < |s| ensures s[i] != x {
        assert (s + [x])[i] != (s + [x])[|s|];
      }
    }
  }

  lemma ConsDuplicates(x: nat, s: seq<nat>)
    ensures NoDuplicates([x] + s) <==> NoDuplicates(s) && x !in s
  {
    if NoDuplicates([x] + s) {
      forall i, j | 0 <= i < j < |s| ensures s[i] != s[j] {
        assert ([x] + s)[i + 1] != ([x] + s)[j + 1];
      }
      forall i | 0 <= i < |s| ensures s[i] != x {
        assert ([x] + s)[0] != ([x] + s)[i + 1];
      }
    }
  }

  /** `std::sort`. */
  function Sort(s: seq<nat>): seq<nat> {
    if s == [] then [] else Inserted(Sort(s[..|s| - 1]), s[|s| - 1])
  }

  function Inserted(s: seq<nat>, x: nat): seq<nat> {
    if s == [] || x <= s[0] then [x] + s else [s[0]] + Inserted(s[1..], x)
  }

  ghost predicate Ascending(s: seq<nat>) {
    forall i, j :: 0 <= i < j < |s| ==> s[i] <= s[j]
  }

  lemma AscendingCons(x: nat, s: seq<nat>)
    requires Ascending(s) && forall y :: y in s ==> x <= y
    ensures Ascending([x] + s)
  {
    forall i | 0 <= i < |s| ensures x <= s[i] {
      assert s[i] in s;
    }
  }

  lemma {:induction false} InsertedMembers(s: seq<nat>, x: nat)
    ensures |Inserted(s, x)| == |s| + 1
    ensures forall y :: y in Inserted(s, x) <==> y in s || y == x
  {
    if s != [] && x > s[0] {
      assert s == [s[0]] + s[1..];
      InsertedMembers(s[1..], x);
    }
  }

  lemma {:induction false} InsertedDuplicates(s: seq<nat>, x: nat)
    ensures NoDuplicates(Inserted(s, x)) <==> NoDuplicates(s) && x !in s
  {
    if s == [] || x <= s[0] {
      ConsDuplicates(x, s);
    } else {
      assert s == [s[0]] + s[1..];
      InsertedDuplicates(s[1..], x);
      InsertedMembers(s[1..], x);
      ConsDuplicates(s[0], s[1..]);
      ConsDuplicates(s[0], Inserted(s[1..], x));
      hide NoDuplicates;
    }
  }

  lemma {:induction false} InsertedAscending(s: seq<nat>, x: nat)
    requires Ascending(s)
    ensures Ascending(Inserted(s, x))
  {
    if s == [] || x <= s[0] {
      AscendingCons(x, s);
    } else {
      InsertedAscending(s[1..], x);
      InsertedMembers(s[1..], x);
      AscendingCons(s[0], Inserted(s[1..], x));
    }
  }

  lemma {:induction false} SortIs(s: seq<nat>)
    ensures var r := Sort(s);
            && |r| == |s| && Ascending(r) && (NoDuplicates(r) <==> NoDuplicates(s))
            && forall x :: x in r <==> x in s
  {
    if s != [] {
      assert s == s[..|s| - 1] + [s[|s| - 1]];
      SortIs(s[..|s| - 1]);
      InsertedMembers(Sort(s[..|s| - 1]), s[|s| - 1]);
      InsertedDuplicates(Sort(s[..|s| - 1]), s[|s| - 1]);
      InsertedAscending(Sort(s[..|s| - 1]), s[|s| - 1]);
      SnocDuplicates(s[..|s| - 1], s[|s| - 1]);
      hide Ascending, NoDuplicates;
    }
  }

  /** n different numbers below n, in order, are 0 to n - 1. */
  lemma {:induction false} AscendingIs(s: seq<nat>)
    requires Ascending(s) && NoDuplicates(s) && forall i :: 0 <= i < |s| ==> s[i] < |s|
    ensures s == UpTo(|s|)
  {
    if s != [] {
      var front := s[..|s| - 1];
      assert forall i :: 0 <= i < |front| ==> s[i] < s[|s| - 1];
      AscendingIs(front);
      if front != [] {
        assert front[|front| - 1] == |front| - 1;
      }
    }
  }

  ghost function SlotWith(decoders: seq<Decoder>, p: nat): (i: nat)
    requires p in Priorities(decoders)
    ensures i < |decoders| && decoders[i].bSwms && decoders[i].priority == p
  {
    PrioritiesAre(decoders);
    var i :| 0 <= i < |decoders| && decoders[i].bSwms && decoders[i].priority == p;
    i
  }

  /** A recovered table stands for a list of windows exactly when its sorted priorities are 0 to n - 1. */
  lemma RecoveredIff(decoders: seq<Decoder>)
    ensures (exists z :: Represents(decoders, z)) <==> Sort(Priorities(decoders)) == UpTo(|Priorities(decoders)|)
    ensures forall z :: Represents(decoders, z) ==> Sort(Priorities(decoders)) == UpTo(|z|)
  {
    forall z | Represents(decoders, z)
      ensures Sort(Priorities(decoders)) == UpTo(|z|) && |z| == |Priorities(decoders)|
    {
      RecoveredList(decoders, z);
    }
    if Sort(Priorities(decoders)) == UpTo(|Priorities(decoders)|) {
      RecoveredSome(decoders);
    }
    hide Represents, Sort, Priorities, UpTo;
  }

  lemma RecoveredList(decoders: seq<Decoder>, z: seq<nat>)
    requires Represents(decoders, z)
    ensures Sort(Priorities(decoders)) == UpTo(|z|) && |Priorities(decoders)| == |z|
  {
    PrioritiesApart(decoders);
    PrioritiesAre(decoders);
    forall p | 0 <= p < |z| ensures p in Priorities(decoders) {
      assert decoders[z[p]].priority == p;
    }
    SortedIs(Priorities(decoders), |z|);
  }

  /** The numbers below n, each once, are sorted to 0, 1, ..., n - 1. */
  lemma SortedIs(s: seq<nat>, n: nat)
    requires NoDuplicates(s) && (forall p :: 0 <= p < n ==> p in s) && (forall p :: p in s ==> p < n)
    ensures Sort(s) == UpTo(n) && |s| == n
  {
    MembersCount(s);
    MembersCount(UpTo(n));
    forall p ensures p in Members(s) <==> p in Members(UpTo(n)) {
      if p in s {
        assert UpTo(n)[p] == p;
      }
    }
    assert Members(s) == Members(UpTo(n));
    SortIs(s);
    hide Sort, Members;
    forall i | 0 <= i < n ensures Sort(s)[i] < n {
      assert Sort(s)[i] in s;
    }
    AscendingIs(Sort(s));
  }

  lemma RecoveredSome(decoders: seq<Decoder>)
    requires Sort(Priorities(decoders)) == UpTo(|Priorities(decoders)|)
    ensures exists z :: Represents(decoders, z)
  {
    var s := Priorities(decoders);
    var n := |s|;
    SortIs(s);
    PrioritiesAre(decoders);
    PrioritiesApart(decoders);
    forall p | 0 <= p < n ensures p in s {
      assert UpTo(n)[p] == p;
    }
    var z := seq(n, k requires 0 <= k < n => SlotWith(decoders, k));
    forall i | 0 <= i < |decoders| && decoders[i].bSwms
      ensures decoders[i].priority < n && z[decoders[i].priority] == i
    {
      var p := decoders[i].priority;
      assert p in s && p in UpTo(n);
      assert decoders[z[p]].priority == p;
    }
    assert Represents(decoders, z);
  }
}
