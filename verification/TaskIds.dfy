/**
 * Codec task IDs of the decoders of an output node.  IDs come from three typed
 * pools; a map from the client's task IDs, a list of IDs in use and a counter
 * per pool have to agree.
 */
module TaskIds {

  const DP_ERR_PROTOCOL_PRASE_PACKET_TYPE: nat := 0xC204
  const DP_ERR_TASK_ID_NOTEXIST: nat := 0xC804
  const DP_ERR_TASK_SOURCE_NOTENOUGH: nat := 0xC806
  const DP_ERR_THIRD_TASK_ID: nat := 0xCB01
  const DP_ERR_FULL_CODEC_TASK_ID: nat := 0xCB02

  datatype TaskType = AudioTask | VideoTask | AudioAndVideoTask | UnknownTask

  /** What a decoder is bound to; Other covers the bindings of the encoders. */
  datatype BindType = AdecToAo | VdecToVo | AdecToAoVdecToVo | Other

  /** The fields of DP_M2S_AVDEC_INFO_S that tasks and windows use. */
  datatype Decoder = Decoder(
    taskId: nat,             // s32TskId
    bind: BindType,          // AvBindAttr.enBindType
    open: nat,               // s8Open of the RTSP client: 0 closed, 1 audio, 2 window
    bSwms: bool,             // shown in the window manager
    priority: nat)           // stSwms.u32Priority

  /** The ranges of initAVDec. */
  function BindOf(taskId: nat): BindType {
    if 256 <= taskId < 512 then AdecToAo
    else if 1024 <= taskId < 1280 then VdecToVo
    else if 1536 <= taskId < 1792 then AdecToAoVdecToVo
    else Other
  }

  ghost predicate NoDuplicates(s: seq<nat>) {
    forall i, j :: 0 <= i < j < |s| ==> s[i] != s[j]
  }

  function Members(s: seq<nat>): set<nat> { set x | x in s }

  function InUse(pool: seq<nat>, used: seq<nat>): set<nat> { set x | x in pool && x in used }

  lemma {:induction false} MembersCount(s: seq<nat>)
    requires NoDuplicates(s)
    ensures |Members(s)| == |s|
  {
    if s != [] {
      var front, last := s[..|s| - 1], s[|s| - 1];
      MembersCount(front);
      assert s == front + [last];
      assert Members(s) == Members(front) + {last};
      assert last !in Members(front);
    }
  }

  /** Pigeonhole: a pool has an unused ID exactly when fewer than all are counted. */
  lemma UnusedExists(pool: seq<nat>, used: seq<nat>)
    requires NoDuplicates(pool)
    ensures |InUse(pool, used)| <= |pool|
    ensures |InUse(pool, used)| < |pool| <==> exists x :: x in pool && x !in used
  {
    MembersCount(pool);
    assert InUse(pool, used) <= Members(pool);
    Subset(InUse(pool, used), Members(pool));
    if x :| x in pool && x !in used {
      assert x in Members(pool) && x !in InUse(pool, used);
    }
    if forall x :: x in pool ==> x in used {
      assert InUse(pool, used) == Members(pool);
    }
  }

  lemma {:induction false} Subset(a: set<nat>, b: set<nat>)
    requires a <= b
    ensures |a| <= |b| && (a != b ==> |a| < |b|)
  {
    if a != b {
      var x :| x in b && x !in a;
      Subset(a, b - {x});
    }
  }

  /** `erase(find(...))`: the list without the first occurrence of x. */
  function Without(s: seq<nat>, x: nat): seq<nat> {
    if s == [] then [] else if s[0] == x then s[1..] else [s[0]] + Without(s[1..], x)
  }

  lemma {:induction false} WithoutMembers(s: seq<nat>, x: nat)
    requires NoDuplicates(s)
    ensures NoDuplicates(Without(s, x))
    ensures forall y :: y in Without(s, x) <==> y in s && y != x
  {
    if s != [] {
      assert s == [s[0]] + s[1..];
      assert s[0] !in s[1..];
      if s[0] != x {
        WithoutMembers(s[1..], x);
      }
    }
  }

  /** Erasing undoes appending. */
  lemma {:induction false} WithoutLast(s: seq<nat>, x: nat)
    requires x !in s
    ensures Without(s + [x], x) == s
  {
    if s != [] {
      assert (s + [x])[1..] == s[1..] + [x];
      WithoutLast(s[1..], x);
    }
  }

  /** The pool is searched from its front. */
  ghost predicate FirstUnused(pool: seq<nat>, used: seq<nat>, x: nat) {
    x !in used && exists i :: 0 <= i < |pool| && pool[i] == x && forall j :: 0 <= j < i ==> pool[j] in used
  }

  /** The search of findNewID. */
  method FindUnused(pool: seq<nat>, used: seq<nat>) returns (x: nat)
    requires exists x :: x in pool && x !in used
    ensures x in pool && FirstUnused(pool, used, x)
  {
    var i := 0;
    while pool[i] in used
      invariant 0 <= i < |pool|
      invariant forall j :: 0 <= j < i ==> pool[j] in used
      invariant exists k :: i <= k < |pool| && pool[k] !in used
      decreases |pool| - i
    {
      i := i + 1;
    }
    x := pool[i];
  }

  /** A binding is one of the ranges of 256 IDs, by the high byte of the ID. */
  lemma BindIs(taskId: nat)
    ensures BindOf(taskId) == AdecToAo <==> taskId / 256 == 1
    ensures BindOf(taskId) == VdecToVo <==> taskId / 256 == 4
    ensures BindOf(taskId) == AdecToAoVdecToVo <==> taskId / 256 == 6
  {
  }

  /** The error codes lie outside every range, so they are never taken for IDs. */
  lemma PoolsHoldNoErrors(audio: seq<nat>, video: seq<nat>, auVi: seq<nat>)
    requires Pools(audio, video, auVi)
    ensures NoDuplicates(audio) && NoDuplicates(video) && NoDuplicates(auVi)
    ensures forall e :: e in {DP_ERR_THIRD_TASK_ID, DP_ERR_FULL_CODEC_TASK_ID, DP_ERR_PROTOCOL_PRASE_PACKET_TYPE} ==>
              e !in audio && e !in video && e !in auVi
    ensures forall x :: x in audio ==> BindOf(x) == AdecToAo
    ensures forall x :: x in video ==> BindOf(x) == VdecToVo
    ensures forall x :: x in auVi ==> BindOf(x) == AdecToAoVdecToVo
  {
  }

  lemma CountAfterUse(pool: seq<nat>, used: seq<nat>, x: nat)
    requires x !in used
    ensures |InUse(pool, used + [x])| == |InUse(pool, used)| + if x in pool then 1 else 0
  {
    if x in pool {
      assert InUse(pool, used + [x]) == InUse(pool, used) + {x};
    } else {
      assert InUse(pool, used + [x]) == InUse(pool, used);
    }
  }

  lemma CountAfterRelease(pool: seq<nat>, used: seq<nat>, x: nat)
    requires NoDuplicates(used) && x in used
    ensures |InUse(pool, Without(used, x))| == |InUse(pool, used)| - if x in pool then 1 else 0
  {
    WithoutMembers(used, x);
    if x in pool {
      assert InUse(pool, Without(used, x)) == InUse(pool, used) - {x};
    } else {
      assert InUse(pool, Without(used, x)) == InUse(pool, used);
    }
  }

  /** The pools hold IDs of their own ranges, each once. */
  ghost predicate Pools(audio: seq<nat>, video: seq<nat>, auVi: seq<nat>) {
    && NoDuplicates(audio) && NoDuplicates(video) && NoDuplicates(auVi)
    && (forall x :: x in audio ==> BindOf(x) == AdecToAo)
    && (forall x :: x in video ==> BindOf(x) == VdecToVo)
    && (forall x :: x in auVi ==> BindOf(x) == AdecToAoVdecToVo)
  }

  /** The list of IDs in use: each once, each from a pool. */
  ghost predicate UsedFrom(used: seq<nat>, audio: seq<nat>, video: seq<nat>, auVi: seq<nat>) {
    NoDuplicates(used) && forall x :: x in used ==> x in audio || x in video || x in auVi
  }

  /** Client IDs map to IDs in use, no two to the same. */
  ghost predicate MapsInto(third: map<nat, nat>, used: seq<nat>) {
    && (forall t :: t in third ==> third[t] in used)
    && (forall t, u :: t in third && u in third && third[t] == third[u] ==> t == u)
  }

  /** Every ID in use has a client that can give it back. */
  ghost predicate AllServed(third: map<nat, nat>, used: seq<nat>) {
    forall x :: x in used ==> x in third.Values
  }

  ghost predicate Counted(beUsed: map<seq<nat>, nat>, pool: seq<nat>, used: seq<nat>) {
    pool in beUsed && beUsed[pool] == |InUse(pool, used)|
  }

  /** Taking an unused ID of a pool keeps the three structures in agreement. */
  lemma UseKeeps(audio: seq<nat>, video: seq<nat>, auVi: seq<nat>, beUsed: map<seq<nat>, nat>,
                 third: map<nat, nat>, used: seq<nat>, pool: seq<nat>, t: nat, x: nat)
    requires Pools(audio, video, auVi) && UsedFrom(used, audio, video, auVi) && MapsInto(third, used)
    requires Counted(beUsed, audio, used) && Counted(beUsed, video, used) && Counted(beUsed, auVi, used)
    requires (pool == audio || pool == video || pool == auVi) && x in pool && x !in used && t !in third
    ensures UsedFrom(used + [x], audio, video, auVi) && MapsInto(third[t := x], used + [x])
    ensures var beUsed' := beUsed[pool := beUsed[pool] + 1];
            Counted(beUsed', audio, used + [x]) && Counted(beUsed', video, used + [x]) && Counted(beUsed', auVi, used + [x])
  {
    CountAfterUse(audio, used, x);
    CountAfterUse(video, used, x);
    CountAfterUse(auVi, used, x);
    hide InUse;
  }

  /** Giving an ID back keeps them in agreement; its range names its pool. */
  lemma ReleaseKeeps(audio: seq<nat>, video: seq<nat>, auVi: seq<nat>, beUsed: map<seq<nat>, nat>,
                     third: map<nat, nat>, used: seq<nat>, pool: seq<nat>, t: nat)
    requires Pools(audio, video, auVi) && UsedFrom(used, audio, video, auVi) && MapsInto(third, used)
    requires Counted(beUsed, audio, used) && Counted(beUsed, video, used) && Counted(beUsed, auVi, used)
    requires t in third
    requires pool == match BindOf(third[t])
                     case AdecToAo => audio
                     case VdecToVo => video
                     case AdecToAoVdecToVo => auVi
                     case Other => []
    ensures BindOf(third[t]) != Other && third[t] in used && pool in beUsed && beUsed[pool] > 0
    ensures var used' := Without(used, third[t]);
            && UsedFrom(used', audio, video, auVi) && MapsInto(third - {t}, used')
            && var beUsed' := beUsed[pool := beUsed[pool] - 1];
               Counted(beUsed', audio, used') && Counted(beUsed', video, used') && Counted(beUsed', auVi, used')
  {
    hide InUse, Without;
    var x := third[t];
    WithoutMembers(used, x);
    CountAfterRelease(audio, used, x);
    CountAfterRelease(video, used, x);
    CountAfterRelease(auVi, used, x);
    assert x in pool;
    InUseSome(pool, used, x);
  }

  lemma UseServes(third: map<nat, nat>, used: seq<nat>, t: nat, x: nat)
    requires t !in third
    ensures forall y :: y in third[t := x].Values <==> y in third.Values || y == x
    ensures AllServed(third, used) ==> AllServed(third[t := x], used + [x])
  {
    var third' := third[t := x];
    forall y ensures y in third'.Values <==> y in third.Values || y == x {
      assert third'[t] == x;
      if y in third.Values {
        var u :| u in third && third[u] == y;
        assert third'[u] == y;
      }
    }
  }

  lemma ReleaseServes(third: map<nat, nat>, used: seq<nat>, t: nat)
    requires MapsInto(third, used) && NoDuplicates(used) && t in third
    ensures forall y :: y in (third - {t}).Values <==> y in third.Values && y != third[t]
    ensures AllServed(third, used) ==> AllServed(third - {t}, Without(used, third[t]))
  {
    WithoutMembers(used, third[t]);
    forall y ensures y in (third - {t}).Values <==> y in third.Values && y != third[t] {
      if y in third.Values && y != third[t] {
        var u :| u in third && third[u] == y;
        assert (third - {t})[u] == y;
      }
    }
  }

  /**
   * An ID in use that has no client is lost: whatever else is allocated or
   * given back, it is not, and no client can name it.
   */
  lemma LeakStays(third: map<nat, nat>, used: seq<nat>, x: nat)
    requires MapsInto(third, used) && NoDuplicates(used) && x in used && x !in third.Values
    ensures forall t: nat, y: nat :: t !in third && y !in used ==> x in used + [y] && x !in third[t := y].Values
    ensures forall t :: t in third ==> x in Without(used, third[t]) && x !in (third - {t}).Values
  {
    forall t: nat, y: nat | t !in third && y !in used ensures x !in third[t := y].Values {
      UseServes(third, used, t, y);
    }
    forall t | t in third ensures x in Without(used, third[t]) && x !in (third - {t}).Values {
      ReleaseServes(third, used, t);
      WithoutMembers(used, third[t]);
      assert third[t] in third.Values;
    }
  }

  lemma InUseSome(pool: seq<nat>, used: seq<nat>, x: nat)
    requires x in pool && x in used
    ensures |InUse(pool, used)| > 0
  {
    assert x in InUse(pool, used);
  }

  // ------------------------------------------------------ initialisation

  /** The map after the clients of codecID, if any, give way to thirdId, unless that has an ID already. */
  function HandedOver(third: map<nat, nat>, thirdId: nat, codecID: nat): map<nat, nat> {
    var others := map t | t in third && third[t] != codecID :: third[t];
    if thirdId in others then others else others[thirdId := codecID]
  }

  lemma HandOverKeeps(third: map<nat, nat>, used: seq<nat>, thirdId: nat, codecID: nat)
    requires MapsInto(third, used)
    ensures MapsInto(HandedOver(third, thirdId, codecID), used) <==> codecID in used || thirdId in third
    ensures forall t :: t in third && third[t] == codecID ==>
              third - {t} == map u | u in third && third[u] != codecID :: third[u]
    ensures codecID !in third.Values ==> third == map u | u in third && third[u] != codecID :: third[u]
  {
    var after := HandedOver(third, thirdId, codecID);
    if thirdId !in third {
      assert thirdId in after && after[thirdId] == codecID;
    }
  }

  /** A hand-over strands the ID exactly when the new client keeps another one. */
  lemma HandOverServes(third: map<nat, nat>, used: seq<nat>, thirdId: nat, codecID: nat)
    requires MapsInto(third, used) && AllServed(third, used)
    ensures AllServed(HandedOver(third, thirdId, codecID), used) <==>
            !(codecID in used && thirdId in third && third[thirdId] != codecID)
  {
    var after := HandedOver(third, thirdId, codecID);
    if codecID in used && thirdId in third && third[thirdId] != codecID {
      assert codecID !in after.Values;
    } else {
      forall x | x in used ensures x in after.Values {
        var t :| t in third && third[t] == x;
        if x == codecID {
          assert after[thirdId] == x;
        } else {
          assert t in after && after[t] == x;
        }
      }
    }
  }

  /** A decoder table as initAVDec fills it: distinct IDs, bound by their ranges. */
  ghost predicate Table(decoders: seq<Decoder>) {
    && (forall i, j :: 0 <= i < j < |decoders| ==> decoders[i].taskId != decoders[j].taskId)
    && (forall i :: 0 <= i < |decoders| ==> decoders[i].bind == BindOf(decoders[i].taskId))
  }

  function IdsOf(decoders: seq<Decoder>, bind: BindType): seq<nat> {
    if decoders == [] then [] else
      var d := decoders[|decoders| - 1];
      IdsOf(decoders[..|decoders| - 1], bind) + if d.bind == bind then [d.taskId] else []
  }

  /** The IDs of the open decoders. */
  function OpenIds(decoders: seq<Decoder>): seq<nat> {
    if decoders == [] then [] else
      var d := decoders[|decoders| - 1];
      OpenIds(decoders[..|decoders| - 1]) + if d.bind != Other && d.open != 0 then [d.taskId] else []
  }

  lemma {:induction false} IdsOfMembers(decoders: seq<Decoder>, bind: BindType)
    requires Table(decoders)
    ensures NoDuplicates(IdsOf(decoders, bind))
    ensures forall x :: x in IdsOf(decoders, bind) <==>
              exists i :: 0 <= i < |decoders| && decoders[i].taskId == x && decoders[i].bind == bind
  {
    if decoders != [] {
      IdsOfMembers(decoders[..|decoders| - 1], bind);
      assert decoders[|decoders| - 1].taskId !in IdsOf(decoders[..|decoders| - 1], bind);
      assert decoders == decoders[..|decoders| - 1] + [decoders[|decoders| - 1]];
    }
  }

  /** The IDs of a pool stand in the order of the table, which decides the one that is taken first. */
  lemma {:induction false} IdsOfOrder(a: seq<Decoder>, b: seq<Decoder>, bind: BindType)
    ensures IdsOf(a + b, bind) == IdsOf(a, bind) + IdsOf(b, bind)
  {
    if b == [] {
      assert a + b == a;
    } else {
      var front, d := b[..|b| - 1], b[|b| - 1];
      IdsOfOrder(a, front, bind);
      IdsOfNext(front, d, bind);
      IdsOfNext(a + front, d, bind);
      hide IdsOf;
      assert b == front + [d] && a + b == a + front + [d];
    }
  }

  lemma IdsOfNext(front: seq<Decoder>, d: Decoder, bind: BindType)
    ensures IdsOf(front + [d], bind) == IdsOf(front, bind) + if d.bind == bind then [d.taskId] else []
  {
    assert (front + [d])[..|front|] == front;
  }

  lemma {:induction false} OpenIdsMembers(decoders: seq<Decoder>)
    requires Table(decoders)
    ensures NoDuplicates(OpenIds(decoders))
    ensures forall x :: x in OpenIds(decoders) <==>
              exists i :: 0 <= i < |decoders| && decoders[i].taskId == x && decoders[i].bind != Other
                          && decoders[i].open != 0
  {
    if decoders != [] {
      OpenIdsMembers(decoders[..|decoders| - 1]);
      assert decoders[|decoders| - 1].taskId !in OpenIds(decoders[..|decoders| - 1]);
      assert decoders == decoders[..|decoders| - 1] + [decoders[|decoders| - 1]];
    }
  }

  /** How many decoders of a kind are open. */
  function OpenCount(decoders: seq<Decoder>, bind: BindType): nat {
    if decoders == [] then 0 else
      var d := decoders[|decoders| - 1];
      OpenCount(decoders[..|decoders| - 1], bind) + if d.bind == bind && d.open != 0 then 1 else 0
  }

  lemma InUseGrows(pool: seq<nat>, used: seq<nat>, x: nat)
    requires x !in pool && x !in used
    ensures |InUse(pool + [x], used + [x])| == |InUse(pool, used)| + 1
    ensures InUse(pool + [x], used) == InUse(pool, used) && InUse(pool, used + [x]) == InUse(pool, used)
  {
    assert InUse(pool + [x], used + [x]) == InUse(pool, used) + {x};
  }

  lemma {:induction false} OpenCounts(decoders: seq<Decoder>, bind: BindType)
    requires Table(decoders) && bind != Other
    ensures OpenCount(decoders, bind) == |InUse(IdsOf(decoders, bind), OpenIds(decoders))|
  {
    if decoders == [] {
      assert InUse([], []) == {};
    } else {
      hide InUse;
      var front, d := decoders[..|decoders| - 1], decoders[|decoders| - 1];
      OpenCounts(front, bind);
      IdsOfMembers(front, bind);
      OpenIdsMembers(front);
      assert d.taskId !in IdsOf(front, bind) && d.taskId !in OpenIds(front);
      InUseGrows(IdsOf(front, bind), OpenIds(front), d.taskId);
      assert IdsOf(front, bind) + [] == IdsOf(front, bind) && OpenIds(front) + [] == OpenIds(front);
    }
  }

  lemma InitialAgreement(decoders: seq<Decoder>, before: map<seq<nat>, nat>, beUsed: map<seq<nat>, nat>)
    requires Table(decoders)
    requires beUsed == before[IdsOf(decoders, AdecToAo) := OpenCount(decoders, AdecToAo)]
                             [IdsOf(decoders, VdecToVo) := OpenCount(decoders, VdecToVo)]
                             [IdsOf(decoders, AdecToAoVdecToVo) := OpenCount(decoders, AdecToAoVdecToVo)]
    ensures var audio, video := IdsOf(decoders, AdecToAo), IdsOf(decoders, VdecToVo);
            var auVi := IdsOf(decoders, AdecToAoVdecToVo);
            var used := OpenIds(decoders);
            && Pools(audio, video, auVi) && UsedFrom(used, audio, video, auVi)
            && Counted(beUsed, audio, used) && Counted(beUsed, video, used) && Counted(beUsed, auVi, used)
  {
    IdsOfMembers(decoders, AdecToAo);
    IdsOfMembers(decoders, VdecToVo);
    IdsOfMembers(decoders, AdecToAoVdecToVo);
    OpenIdsMembers(decoders);
    OpenCounts(decoders, AdecToAo);
    OpenCounts(decoders, VdecToVo);
    OpenCounts(decoders, AdecToAoVdecToVo);
  }

  class TaskIds {
    var audio: seq<nat>                   // _vAudioTaskID
    var video: seq<nat>                   // _vVideoTaskID
    var auVi: seq<nat>                    // _vAuViTaskID
    var beUsed: map<seq<nat>, nat>        // _mOutCodecTaskIDBeUsed, keyed by the pool itself
    var third: map<nat, nat>              // _mOutThirdCodecTaskID
    var used: seq<nat>                    // _vAllUseCodecTaskID

    ghost predicate Valid()
      reads this
    {
      && Pools(audio, video, auVi)
      && UsedFrom(used, audio, video, auVi)
      && MapsInto(third, used)
      && Counted(beUsed, audio, used) && Counted(beUsed, video, used) && Counted(beUsed, auVi, used)
    }

    ghost predicate Served()
      reads this
    {
      AllServed(third, used)
    }

    /** The output node starts with some tasks recovered: these decoders are open, for these clients. */
    constructor (decoders: seq<Decoder>, recovered: map<nat, nat>)
      requires Table(decoders)
      ensures Valid() <==> MapsInto(recovered, OpenIds(decoders))
      ensures third == recovered && used == OpenIds(decoders)
      ensures audio == IdsOf(decoders, AdecToAo) && video == IdsOf(decoders, VdecToVo)
      ensures auVi == IdsOf(decoders, AdecToAoVdecToVo)
    {
      audio, video, auVi, beUsed, third, used := [], [], [], map[], recovered, [];
      new;
      SetOutputTaskIDInMap(decoders);
    }

    method SetOutputTaskIDInMap(decoders: seq<Decoder>)
      requires Table(decoders)
      requires audio == video == auVi == used == []
      modifies `audio, `video, `auVi, `used, `beUsed
      ensures Valid() <==> MapsInto(third, OpenIds(decoders))
      ensures used == OpenIds(decoders)
      ensures audio == IdsOf(decoders, AdecToAo) && video == IdsOf(decoders, VdecToVo)
      ensures auVi == IdsOf(decoders, AdecToAoVdecToVo)
    {
      hide Pools, UsedFrom, MapsInto, InUse, Counted, BindOf, Table;
      var audioCount, videoCount, audioVideoCount := 0, 0, 0;
      for i := 0 to |decoders|
        invariant audio == IdsOf(decoders[..i], AdecToAo) && video == IdsOf(decoders[..i], VdecToVo)
        invariant auVi == IdsOf(decoders[..i], AdecToAoVdecToVo) && used == OpenIds(decoders[..i])
        invariant audioCount == OpenCount(decoders[..i], AdecToAo)
        invariant videoCount == OpenCount(decoders[..i], VdecToVo)
        invariant audioVideoCount == OpenCount(decoders[..i], AdecToAoVdecToVo)
      {
        var it := decoders[i];
        assert decoders[..i + 1][..i] == decoders[..i];
        match it.bind {
          case AdecToAo =>
            audio := audio + [it.taskId];
            if it.open != 0 {
              used := used + [it.taskId];
              audioCount := audioCount + 1;
            }
          case VdecToVo =>
            video := video + [it.taskId];
            if it.open != 0 {
              used := used + [it.taskId];
              videoCount := videoCount + 1;
            }
          case AdecToAoVdecToVo =>
            auVi := auVi + [it.taskId];
            if it.open != 0 {
              used := used + [it.taskId];
              audioVideoCount := audioVideoCount + 1;
            }
          case Other =>
        }
      }
      assert decoders[..|decoders|] == decoders;
      ghost var before := beUsed;
      beUsed := beUsed[audio := audioCount][video := videoCount][auVi := audioVideoCount];
      InitialAgreement(decoders, before, beUsed);
    }

    function Pool(taskType: TaskType): seq<nat>
      reads this
    {
      match taskType
      case AudioTask => audio
      case VideoTask => video
      case AudioAndVideoTask => auVi
      case UnknownTask => []
    }

    /** The pool an ID belongs to by its range. */
    function PoolOf(id: nat): seq<nat>
      reads this
    {
      match BindOf(id)
      case AdecToAo => audio
      case VdecToVo => video
      case AdecToAoVdecToVo => auVi
      case Other => []
    }

    /** A free ID of the pool for the client's task, or why there is none. */
    method FindNewID(thirdId: nat, pool: seq<nat>) returns (id: nat)
      requires Valid() && (pool == audio || pool == video || pool == auVi)
      modifies `used, `beUsed, `third
      ensures Valid()
      ensures var full := forall x :: x in pool ==> x in old(used);
              if thirdId in old(third) then id == DP_ERR_THIRD_TASK_ID
              else if full then id == DP_ERR_FULL_CODEC_TASK_ID
              else id in pool && FirstUnused(pool, old(used), id)
      ensures if id !in pool then used == old(used) && third == old(third) && beUsed == old(beUsed)
              else id !in old(used) && used == old(used) + [id]
                   && third == old(third)[thirdId := id] && thirdId !in old(third)
                   && pool in old(beUsed) && beUsed == old(beUsed)[pool := old(beUsed)[pool] + 1]
                   && PoolOf(id) == pool
      ensures old(Served()) ==> Served()
    {
      hide Pools, UsedFrom, MapsInto, InUse, BindOf, AllServed;
      PoolsHoldNoErrors(audio, video, auVi);
      UnusedExists(pool, used);
      if thirdId in third {
        return DP_ERR_THIRD_TASK_ID;
      }
      if |pool| <= beUsed[pool] {
        return DP_ERR_FULL_CODEC_TASK_ID;
      }
      // The search cannot fail, so DP_ERR_TASK_SOURCE_NOTENOUGH is never returned.
      id := FindUnused(pool, used);
      UseKeeps(audio, video, auVi, beUsed, third, used, pool, thirdId, id);
      UseServes(third, used, thirdId, id);
      used := used + [id];
      beUsed := beUsed[pool := beUsed[pool] + 1];
      third := third[thirdId := id];
    }

    /** The pool is chosen by the type of the task. */
    method GetNewCodecTaskID(thirdId: nat, taskType: TaskType) returns (id: nat)
      requires Valid()
      modifies `used, `beUsed, `third
      ensures Valid()
      ensures var full := forall x :: x in Pool(taskType) ==> x in old(used);
              if taskType == UnknownTask then id == DP_ERR_PROTOCOL_PRASE_PACKET_TYPE
              else if thirdId in old(third) then id == DP_ERR_THIRD_TASK_ID
              else if full then id == DP_ERR_FULL_CODEC_TASK_ID
              else id in Pool(taskType) && FirstUnused(Pool(taskType), old(used), id)
      ensures if id !in Pool(taskType) then used == old(used) && third == old(third) && beUsed == old(beUsed)
              else var pool := Pool(taskType);
                   && id !in old(used) && used == old(used) + [id]
                   && third == old(third)[thirdId := id] && thirdId !in old(third)
                   && pool in old(beUsed) && beUsed == old(beUsed)[pool := old(beUsed)[pool] + 1]
                   && PoolOf(id) == pool
      ensures old(Served()) ==> Served()
    {
      hide Pools, UsedFrom, MapsInto, InUse, BindOf, AllServed;
      match taskType {
        case AudioTask => id := FindNewID(thirdId, audio);
        case VideoTask => id := FindNewID(thirdId, video);
        case AudioAndVideoTask => id := FindNewID(thirdId, auVi);
        case UnknownTask => id := DP_ERR_PROTOCOL_PRASE_PACKET_TYPE;
      }
    }

    /** The ID of the client's task, by its range, goes back to its pool. */
    method RemoveCodecTaskID(thirdId: nat)
      requires Valid()
      modifies `used, `beUsed, `third
      ensures Valid()
      ensures if thirdId !in old(third) then used == old(used) && third == old(third) && beUsed == old(beUsed)
              else var id := old(third)[thirdId];
                   && third == old(third) - {thirdId} && id in old(used) && used == Without(old(used), id)
                   && PoolOf(id) in old(beUsed) && old(beUsed)[PoolOf(id)] > 0
                   && beUsed == old(beUsed)[PoolOf(id) := old(beUsed)[PoolOf(id)] - 1]
      ensures old(Served()) ==> Served()
    {
      hide Pools, UsedFrom, MapsInto, InUse, Without, BindOf, AllServed;
      if thirdId !in third {
        return;
      }
      var id := third[thirdId];
      ReleaseKeeps(audio, video, auVi, beUsed, third, used, PoolOf(id), thirdId);
      match BindOf(id) {
        case AdecToAo => Release(thirdId, audio);
        case VdecToVo => Release(thirdId, video);
        case AdecToAoVdecToVo => Release(thirdId, auVi);
        case Other =>
      }
    }

    /** One case of the switch in removeCodecTaskID. */
    method Release(thirdId: nat, pool: seq<nat>)
      requires Valid() && thirdId in third && pool == PoolOf(third[thirdId])
      modifies `used, `beUsed, `third
      ensures Valid()
      ensures third == old(third) - {thirdId} && used == Without(old(used), old(third)[thirdId])
      ensures pool in old(beUsed) && old(beUsed)[pool] > 0 && beUsed == old(beUsed)[pool := old(beUsed)[pool] - 1]
      ensures old(Served()) ==> Served()
    {
      hide Pools, MapsInto, InUse, Without, BindOf, AllServed;
      ReleaseServes(third, used, thirdId);
      ReleaseKeeps(audio, video, auVi, beUsed, third, used, pool, thirdId);
      var codecID := third[thirdId];
      third := third - {thirdId};
      if codecID in used {
        used := Without(used, codecID);
        if beUsed[pool] > 0 {
          beUsed := beUsed[pool := beUsed[pool] - 1];
        }
      }
    }

    /** An open that fails after its ID was allocated leaves no trace: remove undoes allocate. */
    method AllocateAndRemove(thirdId: nat, taskType: TaskType) returns (id: nat)
      requires Valid() && thirdId !in third
      modifies `used, `beUsed, `third
      ensures Valid() && used == old(used) && third == old(third) && beUsed == old(beUsed)
    {
      hide Pools, UsedFrom, MapsInto, InUse, Without, BindOf, Counted, Pool;
      id := GetNewCodecTaskID(thirdId, taskType);
      if id in Pool(taskType) {
        WithoutLast(old(used), id);
      }
      RemoveCodecTaskID(thirdId);
    }

    /** The codec ID of a client's task. */
    method SetServerTaskID(thirdId: nat) returns (id: nat)
      requires Valid()
      ensures id == if thirdId in third then third[thirdId] else DP_ERR_TASK_ID_NOTEXIST
      ensures thirdId in third <==> id != DP_ERR_TASK_ID_NOTEXIST
    {
      if thirdId in third {
        return third[thirdId];
      }
      return DP_ERR_TASK_ID_NOTEXIST;
    }

    /**
     * Hands a codec ID over to another client task.  The structures stay in
     * agreement exactly when the ID is in use, or the new client already has
     * one; but then an ID in use is stranded, unless it is the same.
     */
    method UpdateThirdTaskIDCodecTaskid(thirdId: nat, codecID: nat)
      requires Valid()
      modifies `third
      ensures Valid() <==> codecID in used || thirdId in old(third)
      ensures third == HandedOver(old(third), thirdId, codecID)
      ensures old(Served()) ==>
                (Served() <==> !(codecID in used && thirdId in old(third) && old(third)[thirdId] != codecID))
    {
      hide Pools, UsedFrom, Counted, AllServed;
      if Served() {
        HandOverServes(third, used, thirdId, codecID);
      }
      HandOverKeeps(third, used, thirdId, codecID);
      if codecID in third.Values {
        var t :| t in third && third[t] == codecID;
        third := third - {t};
      }
      if thirdId !in third {       // std::map::insert does not overwrite
        third := third[thirdId := codecID];
      }
    }
  }
}
