/**
 * The server's list of connections, oldest first, and the timer that walks it
 * to shut down the idle ones and stops at the first young one.
 *
 * Stamps are microseconds; the limit is in seconds.  Two stamps may be out of
 * order by some slack: with slack 0 the list is sorted.
 */
module IdleScan {

  import opened IdleRoster

  /** The context of a connection: when it was heard last and where its entry is. */
  datatype Node = Node(lastReceiveTime: int, position: nat)

  /** A node of the linked list, at its address. */
  datatype Entry = Entry(node: nat, conn: nat)

  // ------------------------------------------------------------- stamps

  /** Earlier entries are at most `slack` younger than later ones. */
  ghost predicate Ordered(stamps: seq<int>, slack: nat) {
    forall i, j :: 0 <= i < j < |stamps| ==> stamps[i] <= stamps[j] + slack
  }

  ghost predicate AtMost(stamps: seq<int>, t: int) {
    forall i :: 0 <= i < |stamps| ==> stamps[i] <= t
  }

  /** At time `now` the scan meets every entry that is idle by more than the slack. */
  ghost predicate ReachesIdle(stamps: seq<int>, idleSeconds: int, slack: nat, now: int) {
    forall j :: 0 <= j < |stamps| && IsIdle(stamps[j] + slack, idleSeconds, now) ==> j < FirstYoung(stamps, idleSeconds, now)
  }

  lemma OrderedReachesIdle(stamps: seq<int>, idleSeconds: int, slack: nat, now: int)
    requires idleSeconds < 0 || Ordered(stamps, slack)
    ensures ReachesIdle(stamps, idleSeconds, slack, now)
  {
    var k := FirstYoung(stamps, idleSeconds, now);
    if k < |stamps| {
      forall j | k < j < |stamps| ensures !IsIdle(stamps[j] + slack, idleSeconds, now) {
        assert stamps[k] <= stamps[j] + slack;
      }
    }
  }

  /** The early exit is right at all times exactly when the list is in order. */
  lemma ReachesIdleIff(stamps: seq<int>, idleSeconds: int, slack: nat)
    ensures (forall now :: ReachesIdle(stamps, idleSeconds, slack, now)) <==> idleSeconds < 0 || Ordered(stamps, slack)
  {
    if idleSeconds < 0 || Ordered(stamps, slack) {
      forall now ensures ReachesIdle(stamps, idleSeconds, slack, now) {
        OrderedReachesIdle(stamps, idleSeconds, slack, now);
      }
    } else {
      var i, j :| 0 <= i < j < |stamps| && stamps[i] > stamps[j] + slack;
      var now := stamps[i] + idleSeconds * MICROSECONDS_PER_SECOND;
      assert IsYoung(stamps[i], idleSeconds, now);
      assert IsIdle(stamps[j] + slack, idleSeconds, now);
      assert !ReachesIdle(stamps, idleSeconds, slack, now);
    }
  }

  /** A stamp put at the end keeps the order exactly when it is not too old. */
  lemma OrderedAtEnd(stamps: seq<int>, t: int, slack: nat)
    ensures Ordered(stamps + [t], slack) <==> Ordered(stamps, slack) && AtMost(stamps, t + slack)
  {
    var after := stamps + [t];
    if Ordered(after, slack) {
      forall i, j | 0 <= i < j < |stamps| ensures stamps[i] <= stamps[j] + slack {
        assert after[i] <= after[j] + slack;
      }
      forall i | 0 <= i < |stamps| ensures stamps[i] <= t + slack {
        assert after[i] <= after[|stamps|] + slack;
      }
    }
  }

  function Skip(p: nat, i: nat): nat { if i < p then i else i + 1 }

  function Removed<T>(s: seq<T>, p: nat): (r: seq<T>)
    requires p < |s|
    ensures |r| == |s| - 1
    ensures forall i :: 0 <= i < |r| ==> r[i] == s[Skip(p, i)]
  {
    s[..p] + s[p + 1..]
  }

  lemma OrderedRemoved(stamps: seq<int>, p: nat)
    requires p < |stamps|
    ensures forall slack: nat :: Ordered(stamps, slack) ==> Ordered(Removed(stamps, p), slack)
    ensures forall t :: AtMost(stamps, t) ==> AtMost(Removed(stamps, p), t)
  {
    hide Removed;
    var r := Removed(stamps, p);
    forall slack: nat | Ordered(stamps, slack) ensures Ordered(r, slack) {
      forall i, j | 0 <= i < j < |r| ensures r[i] <= r[j] + slack {
        assert stamps[Skip(p, i)] <= stamps[Skip(p, j)] + slack;
      }
    }
  }

  /** One stamp renewed and moved to the end. */
  lemma OrderedMoved(stamps: seq<int>, p: nat, time: int)
    requires p < |stamps|
    ensures var others := Removed(stamps, p);
            && (forall slack: nat :: Ordered(others + [time], slack)
                                     <==> Ordered(others, slack) && AtMost(others, time + slack))
            && (forall t :: time <= t && AtMost(stamps, t) ==> AtMost(others + [time], t))
            && (forall slack: nat :: Ordered(stamps, slack) && AtMost(stamps, time + slack)
                                     ==> Ordered(others + [time], slack))
  {
    OrderedRemoved(stamps, p);
    var others := Removed(stamps, p);
    forall slack: nat
      ensures Ordered(others + [time], slack) <==> Ordered(others, slack) && AtMost(others, time + slack)
    {
      OrderedAtEnd(others, time, slack);
    }
    hide Removed, Ordered;
  }

  /** The stamps after the scan: future ones it met are set back. */
  ghost predicate SetBack(before: seq<int>, after: seq<int>, k: nat, idleSeconds: int, now: int) {
    && |after| == |before| && k <= |before|
    && forall i :: 0 <= i < |before| ==>
         after[i] == if i < k && !IsIdle(before[i], idleSeconds, now) then now else before[i]
  }

  lemma OrderedSetBack(before: seq<int>, after: seq<int>, idleSeconds: int, now: int, slack: nat, t: int)
    requires SetBack(before, after, FirstYoung(before, idleSeconds, now), idleSeconds, now)
    ensures idleSeconds >= 0 && Ordered(before, slack) ==> Ordered(after, slack)
    ensures AtMost(before, t) ==> AtMost(after, t)
  {
    var k := FirstYoung(before, idleSeconds, now);
    assert forall i :: 0 <= i < |before| ==> after[i] <= before[i];
    if idleSeconds >= 0 && Ordered(before, slack) {
      forall i, j | 0 <= i < j < |before| ensures after[i] <= after[j] + slack {
        assert before[i] <= before[j] + slack;
        if j < k && !IsIdle(before[j], idleSeconds, now) && IsIdle(before[i], idleSeconds, now) {
          assert now - before[j] < 0;
        }
      }
    }
  }

  // ----------------------------------------------------------- the list

  /** Each entry is that of a living connection whose context points back to it. */
  ghost predicate Linked(list: seq<Entry>, contexts: map<nat, Node>) {
    && (forall i :: 0 <= i < |list| ==> list[i].conn in contexts && contexts[list[i].conn].position == list[i].node)
    && (forall i, j :: 0 <= i < j < |list| ==> list[i].node != list[j].node)
  }

  ghost predicate Listed(list: seq<Entry>, conn: nat) {
    exists i :: 0 <= i < |list| && list[i].conn == conn
  }

  /** A connection is listed until it is disconnected. */
  ghost predicate ListedWhileUp(list: seq<Entry>, phase: map<nat, Phase>) {
    && (forall i :: 0 <= i < |list| ==> list[i].conn in phase)
    && (forall c :: c in phase ==> (Listed(list, c) <==> phase[c] != Disconnected))
  }

  ghost function Stamps(list: seq<Entry>, contexts: map<nat, Node>): (s: seq<int>)
    requires Linked(list, contexts)
    ensures |s| == |list| && forall i :: 0 <= i < |s| ==> s[i] == contexts[list[i].conn].lastReceiveTime
  {
    seq(|list|, i requires 0 <= i < |list| => contexts[list[i].conn].lastReceiveTime)
  }

  /** No connection is listed twice. */
  lemma OneEntry(list: seq<Entry>, contexts: map<nat, Node>, i: nat, j: nat)
    requires Linked(list, contexts) && i < |list| && j < |list| && list[i].conn == list[j].conn
    ensures i == j
  {
  }

  /** The connected ones that were heard more than the limit and the slack ago. */
  ghost function Idle(list: seq<Entry>, contexts: map<nat, Node>, phase: map<nat, Phase>, idleSeconds: int,
                      slack: nat, now: int): set<nat>
    requires Linked(list, contexts) && ListedWhileUp(list, phase)
  {
    set i | 0 <= i < |list| && phase[list[i].conn] == Connected
            && IsIdle(contexts[list[i].conn].lastReceiveTime + slack, idleSeconds, now) :: list[i].conn
  }

  // ------------------------------------------------ one event at a time

  lemma AppendLinked(list: seq<Entry>, contexts: map<nat, Node>, phase: map<nat, Phase>, conn: nat, n: Node, up: Phase)
    requires Linked(list, contexts) && ListedWhileUp(list, phase)
    requires !Listed(list, conn) && up != Disconnected
    requires forall i :: 0 <= i < |list| ==> list[i].node != n.position
    ensures var list', contexts' := list + [Entry(n.position, conn)], contexts[conn := n];
            && Linked(list', contexts') && ListedWhileUp(list', phase[conn := up])
            && Stamps(list', contexts') == Stamps(list, contexts) + [n.lastReceiveTime]
  {
    var list' := list + [Entry(n.position, conn)];
    assert list'[|list|].conn == conn;
    forall c | c != conn ensures Listed(list', c) <==> Listed(list, c) {
      if Listed(list, c) {
        var i :| 0 <= i < |list| && list[i].conn == c;
        assert list'[i].conn == c;
      }
    }
  }

  lemma RemovedListed(list: seq<Entry>, contexts: map<nat, Node>, p: nat)
    requires Linked(list, contexts) && p < |list|
    ensures !Listed(Removed(list, p), list[p].conn)
    ensures forall c :: c != list[p].conn ==> (Listed(Removed(list, p), c) <==> Listed(list, c))
  {
    hide Removed;
    var list' := Removed(list, p);
    forall i | 0 <= i < |list'| ensures list'[i].conn != list[p].conn {
      if list'[i].conn == list[p].conn {
        OneEntry(list, contexts, Skip(p, i), p);
      }
    }
    hide Linked;
    forall c | c != list[p].conn && Listed(list, c) ensures Listed(list', c) {
      var i :| 0 <= i < |list| && list[i].conn == c;
      var k := if i < p then i else i - 1;
      assert Skip(p, k) == i && list'[k].conn == c;
    }
  }

  lemma EraseLinked(list: seq<Entry>, contexts: map<nat, Node>, phase: map<nat, Phase>, p: nat)
    requires Linked(list, contexts) && ListedWhileUp(list, phase) && p < |list|
    ensures var list' := Removed(list, p);
            && Linked(list', contexts) && !Listed(list', list[p].conn)
            && ListedWhileUp(list', phase[list[p].conn := Disconnected])
            && (forall i :: 0 <= i < |list'| ==> list'[i].node != list[p].node)
            && Stamps(list', contexts) == Removed(Stamps(list, contexts), p)
  {
    RemovedListed(list, contexts, p);
    hide Listed, Removed;
  }

  /** The splice to the end, with a new stamp. */
  lemma MoveToEndLinked(list: seq<Entry>, contexts: map<nat, Node>, phase: map<nat, Phase>, p: nat, time: int)
    requires Linked(list, contexts) && ListedWhileUp(list, phase) && p < |list| && phase[list[p].conn] != Disconnected
    ensures list[p].conn in contexts
    ensures var list' := Removed(list, p) + [list[p]];
            var contexts' := contexts[list[p].conn := contexts[list[p].conn].(lastReceiveTime := time)];
            && Linked(list', contexts') && ListedWhileUp(list', phase)
            && Stamps(list', contexts') == Removed(Stamps(list, contexts), p) + [time]
  {
    var conn := list[p].conn;
    EraseLinked(list, contexts, phase, p);
    assert list[p] == Entry(contexts[conn].position, conn);
    assert phase[conn := Disconnected][conn := phase[conn]] == phase;
    hide Linked, ListedWhileUp, Listed, Removed, Stamps;
    AppendLinked(Removed(list, p), contexts, phase[conn := Disconnected], conn,
                 contexts[conn].(lastReceiveTime := time), phase[conn]);
  }

  // ----------------------------------------------------------- the scan

  /** The first i entries have been met, and none of them was young. */
  ghost predicate ScannedTo(list: seq<Entry>, contexts0: map<nat, Node>, contexts: map<nat, Node>,
                            phase0: map<nat, Phase>, phase: map<nat, Phase>, closed: set<nat>,
                            i: nat, idleSeconds: int, now: int)
    requires Linked(list, contexts0) && ListedWhileUp(list, phase0)
  {
    && i <= |list|
    && contexts.Keys == contexts0.Keys && phase.Keys == phase0.Keys
    && (forall j :: 0 <= j < i ==> !IsYoung(contexts0[list[j].conn].lastReceiveTime, idleSeconds, now))
    && (forall c :: c in contexts0 && !Listed(list, c) ==> contexts[c] == contexts0[c])
    && (forall j :: 0 <= j < |list| ==>
          var n := contexts0[list[j].conn];
          contexts[list[j].conn] == if j < i && !IsIdle(n.lastReceiveTime, idleSeconds, now)
                                    then n.(lastReceiveTime := now) else n)
    && (forall c :: c in phase0 ==> phase[c] == if c in closed then Disconnecting else phase0[c])
    && (forall c :: c in closed ==> Listed(list, c))
    && (forall j :: 0 <= j < |list| ==>
          (list[j].conn in closed <==>
             j < i && phase0[list[j].conn] == Connected
             && IsIdle(contexts0[list[j].conn].lastReceiveTime, idleSeconds, now)))
  }

  lemma ScanStep(list: seq<Entry>, contexts0: map<nat, Node>, contexts: map<nat, Node>, phase0: map<nat, Phase>,
                 phase: map<nat, Phase>, closed: set<nat>, i: nat, idleSeconds: int, now: int)
    requires Linked(list, contexts0) && ListedWhileUp(list, phase0)
    requires ScannedTo(list, contexts0, contexts, phase0, phase, closed, i, idleSeconds, now) && i < |list|
    requires !IsYoung(contexts0[list[i].conn].lastReceiveTime, idleSeconds, now)
    ensures var c := list[i].conn;
            if !IsIdle(contexts0[c].lastReceiveTime, idleSeconds, now) then
              ScannedTo(list, contexts0, contexts[c := contexts[c].(lastReceiveTime := now)], phase0, phase, closed,
                        i + 1, idleSeconds, now)
            else if phase0[c] == Connected then
              ScannedTo(list, contexts0, contexts, phase0, phase[c := Disconnecting], closed + {c}, i + 1, idleSeconds, now)
            else ScannedTo(list, contexts0, contexts, phase0, phase, closed, i + 1, idleSeconds, now)
  {
    var c := list[i].conn;
    forall j | 0 <= j < |list| && list[j].conn == c ensures j == i {
      OneEntry(list, contexts0, i, j);
    }
  }

  /** What the whole scan did. */
  lemma ScanEnd(list: seq<Entry>, contexts0: map<nat, Node>, contexts: map<nat, Node>, phase0: map<nat, Phase>,
                phase: map<nat, Phase>, closed: set<nat>, i: nat, idleSeconds: int, now: int)
    requires Linked(list, contexts0) && ListedWhileUp(list, phase0)
    requires ScannedTo(list, contexts0, contexts, phase0, phase, closed, i, idleSeconds, now)
    requires i < |list| ==> IsYoung(contexts0[list[i].conn].lastReceiveTime, idleSeconds, now)
    ensures Linked(list, contexts) && ListedWhileUp(list, phase)
    ensures closed <= Idle(list, contexts0, phase0, idleSeconds, 0, now)
    ensures SetBack(Stamps(list, contexts0), Stamps(list, contexts),
                    FirstYoung(Stamps(list, contexts0), idleSeconds, now), idleSeconds, now)
    ensures forall slack: nat :: ReachesIdle(Stamps(list, contexts0), idleSeconds, slack, now) ==>
                                   Idle(list, contexts0, phase0, idleSeconds, slack, now) <= closed
  {
    var s := Stamps(list, contexts0);
    var k := FirstYoung(s, idleSeconds, now);
    assert k == i;
    forall c | c in phase ensures Listed(list, c) <==> phase[c] != Disconnected {
    }
    forall c | c in closed ensures c in Idle(list, contexts0, phase0, idleSeconds, 0, now) {
      var j :| 0 <= j < |list| && list[j].conn == c;
    }
    forall slack: nat | ReachesIdle(s, idleSeconds, slack, now)
      ensures Idle(list, contexts0, phase0, idleSeconds, slack, now) <= closed
    {
      forall c | c in Idle(list, contexts0, phase0, idleSeconds, slack, now) ensures c in closed {
        var j :| 0 <= j < |list| && list[j].conn == c && phase0[c] == Connected
                 && IsIdle(contexts0[c].lastReceiveTime + slack, idleSeconds, now);
        assert IsIdle(s[j] + slack, idleSeconds, now);
      }
    }
  }

  lemma StartScan(list: seq<Entry>, contexts: map<nat, Node>, phase: map<nat, Phase>, idleSeconds: int, now: int)
    requires Linked(list, contexts) && ListedWhileUp(list, phase)
    ensures ScannedTo(list, contexts, contexts, phase, phase, {}, 0, idleSeconds, now)
  {
  }

  /** The entry the scan stands at has not been touched. */
  lemma ScanAt(list: seq<Entry>, contexts0: map<nat, Node>, contexts: map<nat, Node>, phase0: map<nat, Phase>,
               phase: map<nat, Phase>, closed: set<nat>, i: nat, idleSeconds: int, now: int)
    requires Linked(list, contexts0) && ListedWhileUp(list, phase0)
    requires ScannedTo(list, contexts0, contexts, phase0, phase, closed, i, idleSeconds, now) && i < |list|
    ensures var c := list[i].conn;
            c in contexts0 && c in contexts && c in phase && c in phase0
            && contexts[c] == contexts0[c] && phase[c] == phase0[c]
  {
  }

  lemma ScanResult(list: seq<Entry>, contexts0: map<nat, Node>, contexts: map<nat, Node>, phase0: map<nat, Phase>,
                   phase: map<nat, Phase>, closed: set<nat>, i: nat, idleSeconds: int, now: int)
    requires Linked(list, contexts0) && ListedWhileUp(list, phase0)
    requires ScannedTo(list, contexts0, contexts, phase0, phase, closed, i, idleSeconds, now)
    requires i < |list| ==> list[i].conn in contexts0 && IsYoung(contexts0[list[i].conn].lastReceiveTime, idleSeconds, now)
    ensures Linked(list, contexts) && ListedWhileUp(list, phase)
    ensures closed <= Idle(list, contexts0, phase0, idleSeconds, 0, now)
    ensures var before, after := Stamps(list, contexts0), Stamps(list, contexts);
            && SetBack(before, after, FirstYoung(before, idleSeconds, now), idleSeconds, now)
            && (forall slack: nat :: Ordered(before, slack) ==>
                                       Idle(list, contexts0, phase0, idleSeconds, slack, now) <= closed)
            && (Ordered(before, 0) ==> closed == Idle(list, contexts0, phase0, idleSeconds, 0, now))
            && (forall slack: nat :: idleSeconds >= 0 && Ordered(before, slack) ==> Ordered(after, slack))
            && (forall t :: AtMost(before, t) ==> AtMost(after, t))
    ensures phase.Keys == phase0.Keys
    ensures forall c :: c in phase0 ==> c in phase && phase[c] == if c in closed then Disconnecting else phase0[c]
  {
    hide Linked, ListedWhileUp, Idle, SetBack, Ordered, AtMost, ReachesIdle, FirstYoung;
    ScanEnd(list, contexts0, contexts, phase0, phase, closed, i, idleSeconds, now);
    var before, after := Stamps(list, contexts0), Stamps(list, contexts);
    forall slack: nat | Ordered(before, slack)
      ensures Idle(list, contexts0, phase0, idleSeconds, slack, now) <= closed
    {
      OrderedReachesIdle(before, idleSeconds, slack, now);
    }
    forall slack: nat | idleSeconds >= 0 && Ordered(before, slack) ensures Ordered(after, slack) {
      OrderedSetBack(before, after, idleSeconds, now, slack, now);
    }
    forall t | AtMost(before, t) ensures AtMost(after, t) {
      OrderedSetBack(before, after, idleSeconds, now, 0, t);
    }
  }

  lemma DestroyLinked(list: seq<Entry>, contexts: map<nat, Node>, phase: map<nat, Phase>, conn: nat)
    requires Linked(list, contexts) && ListedWhileUp(list, phase) && conn in phase && phase[conn] == Disconnected
    ensures Linked(list, contexts - {conn}) && ListedWhileUp(list, phase - {conn})
    ensures Stamps(list, contexts - {conn}) == Stamps(list, contexts)
  {
    assert !Listed(list, conn);
  }

  // ---------------------------------------------------- the simple form

  ghost function PeersOf(list: seq<Entry>, contexts: map<nat, Node>): (peers: seq<Peer>)
    requires Linked(list, contexts)
    ensures |peers| == |list|
    ensures forall i :: 0 <= i < |list| ==> peers[i] == Peer(list[i].conn, contexts[list[i].conn].lastReceiveTime)
    ensures StampsOf(peers) == Stamps(list, contexts)
  {
    seq(|list|, i requires 0 <= i < |list| => Peer(list[i].conn, contexts[list[i].conn].lastReceiveTime))
  }

  lemma PeersAppended(list: seq<Entry>, contexts: map<nat, Node>, conn: nat, n: Node)
    requires Linked(list, contexts) && !Listed(list, conn)
    requires Linked(list + [Entry(n.position, conn)], contexts[conn := n])
    ensures PeersOf(list + [Entry(n.position, conn)], contexts[conn := n])
            == PeersOf(list, contexts) + [Peer(conn, n.lastReceiveTime)]
  {
  }

  lemma PeersErased(list: seq<Entry>, contexts: map<nat, Node>, p: nat)
    requires Linked(list, contexts) && p < |list| && Linked(Removed(list, p), contexts)
    ensures PeersOf(Removed(list, p), contexts) == Dropped(PeersOf(list, contexts), list[p].conn)
  {
    var peers := PeersOf(list, contexts);
    forall i: nat | i < p ensures peers[i].conn != peers[p].conn {
      if list[i].conn == list[p].conn {
        OneEntry(list, contexts, i, p);
      }
    }
    DroppedAt(peers, p);
  }

  lemma PeersMoved(list: seq<Entry>, contexts: map<nat, Node>, p: nat, time: int)
    requires Linked(list, contexts) && p < |list| && list[p].conn in contexts
    requires var contexts' := contexts[list[p].conn := contexts[list[p].conn].(lastReceiveTime := time)];
             Linked(Removed(list, p) + [list[p]], contexts')
    ensures var contexts' := contexts[list[p].conn := contexts[list[p].conn].(lastReceiveTime := time)];
            PeersOf(Removed(list, p) + [list[p]], contexts')
            == Dropped(PeersOf(list, contexts), list[p].conn) + [Peer(list[p].conn, time)]
  {
    forall i | 0 <= i < |list| - 1 ensures Removed(list, p)[i].conn != list[p].conn {
      if Removed(list, p)[i].conn == list[p].conn {
        OneEntry(list, contexts, Skip(p, i), p);
      }
    }
    var peers := PeersOf(list, contexts);
    forall i: nat | i < p ensures peers[i].conn != peers[p].conn {
      if list[i].conn == list[p].conn {
        OneEntry(list, contexts, i, p);
      }
    }
    DroppedAt(peers, p);
  }

  lemma PeersScanned(list: seq<Entry>, contexts0: map<nat, Node>, contexts: map<nat, Node>, phase0: map<nat, Phase>,
                     phase: map<nat, Phase>, closed: set<nat>, i: nat, forced: set<nat>, idleSeconds: int, now: int)
    requires Linked(list, contexts0) && ListedWhileUp(list, phase0) && Linked(list, contexts)
    requires ScannedTo(list, contexts0, contexts, phase0, phase, closed, i, idleSeconds, now)
    requires i < |list| ==> IsYoung(contexts0[list[i].conn].lastReceiveTime, idleSeconds, now)
    ensures Roster(PeersOf(list, contexts), phase, forced + closed)
            == Ticked(Roster(PeersOf(list, contexts0), phase0, forced), idleSeconds, now)
  {
    var r := Roster(PeersOf(list, contexts0), phase0, forced);
    ClosedAre(list, contexts0, contexts, phase0, phase, closed, i, forced, idleSeconds, now);
    assert i == FirstYoung(Stamps(list, contexts0), idleSeconds, now);
    hide Closing, Listed, ListedWhileUp;
    assert PeersOf(list, contexts) == SetBackTo(r.peers, idleSeconds, now);
    assert phase == map c | c in phase0 :: if c in closed then Disconnecting else phase0[c];
  }

  lemma ClosedAre(list: seq<Entry>, contexts0: map<nat, Node>, contexts: map<nat, Node>, phase0: map<nat, Phase>,
                  phase: map<nat, Phase>, closed: set<nat>, i: nat, forced: set<nat>, idleSeconds: int, now: int)
    requires Linked(list, contexts0) && ListedWhileUp(list, phase0)
    requires ScannedTo(list, contexts0, contexts, phase0, phase, closed, i, idleSeconds, now)
    requires i < |list| ==> IsYoung(contexts0[list[i].conn].lastReceiveTime, idleSeconds, now)
    ensures closed == Closing(Roster(PeersOf(list, contexts0), phase0, forced), idleSeconds, now)
  {
    var r := Roster(PeersOf(list, contexts0), phase0, forced);
    assert i == FirstYoung(Stamps(list, contexts0), idleSeconds, now);
    forall c | c in closed ensures c in Closing(r, idleSeconds, now) {
      var j :| 0 <= j < |list| && list[j].conn == c;
      assert r.peers[j].conn == c;
    }
    forall c | c in Closing(r, idleSeconds, now) ensures c in closed {
      var j :| 0 <= j < |list| && j < i && IsIdle(r.peers[j].stamp, idleSeconds, now)
               && r.peers[j].conn in phase0 && phase0[r.peers[j].conn] == Connected && r.peers[j].conn == c;
      assert list[j].conn == c;
    }
  }

  lemma PeersForgotten(list: seq<Entry>, contexts: map<nat, Node>, conn: nat)
    requires Linked(list, contexts) && Linked(list, contexts - {conn})
    ensures PeersOf(list, contexts - {conn}) == PeersOf(list, contexts)
  {
  }

  /** A node the list does not hold: the one proposed, or one past them all. */
  function Allocated(list: seq<Entry>, node: nat): (a: nat)
    ensures forall i :: 0 <= i < |list| ==> list[i].node != a
  {
    if exists i :: 0 <= i < |list| && list[i].node == node then PastAll(list) else node
  }

  function PastAll(list: seq<Entry>): (n: nat)
    ensures forall i :: 0 <= i < |list| ==> list[i].node < n
  {
    if list == [] then 0
    else
      var n := PastAll(list[..|list| - 1]);
      if list[|list| - 1].node < n then n else list[|list| - 1].node + 1
  }

  // --------------------------------------------------------------- runs

  function Later(t: int, stamp: int): int { if stamp > t then stamp else t }

  /** The latest stamp after one more event. */
  ghost function Stamped(e: Event, latest: int): int {
    match e
    case Up(_, _, now) => Later(latest, now)
    case Received(_, time) => Later(latest, time)
    case _ => latest
  }

  ghost predicate Timely(e: Event, latest: int, slack: nat) {
    match e
    case Up(_, _, now) => latest <= now + slack
    case Received(_, time) => latest <= time + slack
    case _ => true
  }

  /** No stamp is older than an earlier one by more than the slack; ticks may come at any time. */
  ghost predicate InStep(events: seq<Event>, latest: int, slack: nat) {
    events == [] || (Timely(events[0], latest, slack) && InStep(events[1..], Stamped(events[0], latest), slack))
  }

  /** The latest stamp so far. */
  ghost function Latest(events: seq<Event>, latest: int): int {
    if events == [] then latest else Latest(events[1..], Stamped(events[0], latest))
  }

  /** An event that cannot happen now changes nothing. */
  lemma HappenedIf(r: Roster, idleSeconds: int, e: Event)
    ensures e.Up? && e.conn in r.phase ==> Happened(r, idleSeconds, e) == r
    ensures e.Received? && !r.Listed(e.conn) ==> Happened(r, idleSeconds, e) == r
    ensures e.Down? && !r.Listed(e.conn) ==> Happened(r, idleSeconds, e) == r
    ensures e.Destroyed? && !(e.conn in r.phase && r.phase[e.conn] == Disconnected) ==>
              Happened(r, idleSeconds, e) == r
  {
  }

  class ServerHandle {
    const idleSeconds: int
    var connectionList: seq<Entry>
    var contexts: map<nat, Node>       // of every living connection
    var phase: map<nat, Phase>
    var forceClosing: set<nat>         // a forceCloseWithDelay is pending

    ghost predicate Valid()
      reads this
    {
      Linked(connectionList, contexts) && ListedWhileUp(connectionList, phase) && contexts.Keys == phase.Keys
    }

    /** The stamps along the list are in order, up to the slack. */
    ghost predicate InOrder(slack: nat)
      reads this
      requires Valid()
    {
      Ordered(Stamps(connectionList, contexts), slack)
    }

    /** The connections in their simple form. */
    ghost function View(): Roster
      reads this
      requires Valid()
    {
      Roster(PeersOf(connectionList, contexts), phase, forceClosing)
    }

    ghost predicate NoneAfter(t: int)
      reads this
      requires Valid()
    {
      AtMost(Stamps(connectionList, contexts), t)
    }

    constructor (idleSeconds: int)
      ensures Valid() && this.idleSeconds == idleSeconds && View() == NOBODY
      ensures (forall slack: nat :: InOrder(slack)) && (forall t :: NoneAfter(t))
    {
      this.idleSeconds, connectionList, contexts, phase, forceClosing := idleSeconds, [], map[], map[], {};
    }

    /**
     * onConnection for a new connection; the list allocates its node somewhere.
     * The list stays in order exactly when the clock has not gone back.
     */
    method ConnectionUp(conn: nat, node: nat, now: int)
      requires Valid() && conn !in contexts
      requires forall i :: 0 <= i < |connectionList| ==> connectionList[i].node != node
      modifies `connectionList, `contexts, `phase
      ensures Valid() && connectionList == old(connectionList) + [Entry(node, conn)]
      ensures contexts == old(contexts)[conn := Node(now, node)] && phase == old(phase)[conn := Connected]
      ensures View() == Joined(old(View()), conn, now)
      ensures forall slack: nat :: InOrder(slack) <==> old(InOrder(slack)) && old(NoneAfter(now + slack))
      ensures forall t :: now <= t && old(NoneAfter(t)) ==> NoneAfter(t)
    {
      AppendLinked(connectionList, contexts, phase, conn, Node(now, node), Connected);
      PeersAppended(connectionList, contexts, conn, Node(now, node));
      ghost var stamps := Stamps(connectionList, contexts);
      forall slack: nat
        ensures Ordered(stamps + [now], slack) <==> Ordered(stamps, slack) && AtMost(stamps, now + slack)
      {
        OrderedAtEnd(stamps, now, slack);
      }
      hide Linked, ListedWhileUp, Ordered;
      connectionList := connectionList + [Entry(node, conn)];
      contexts := contexts[conn := Node(now, node)];
      phase := phase[conn := Connected];
    }

    /** onConnection for a connection that went down: its own entry is erased. */
    method ConnectionDown(conn: nat)
      requires Valid() && conn in phase && phase[conn] != Disconnected
      modifies `connectionList, `phase
      ensures Valid() && phase == old(phase)[conn := Disconnected]
      ensures exists p :: 0 <= p < |old(connectionList)| && old(connectionList)[p].conn == conn
                          && connectionList == Removed(old(connectionList), p)
      ensures View() == Gone(old(View()), conn)
      ensures forall slack: nat :: old(InOrder(slack)) ==> InOrder(slack)
      ensures forall t :: old(NoneAfter(t)) ==> NoneAfter(t)
    {
      ghost var i :| 0 <= i < |connectionList| && connectionList[i].conn == conn;
      var p :| 0 <= p < |connectionList| && connectionList[p].node == contexts[conn].position;
      assert p == i;
      EraseLinked(connectionList, contexts, phase, p);
      PeersErased(connectionList, contexts, p);
      OrderedRemoved(Stamps(connectionList, contexts), p);
      hide Linked, ListedWhileUp, Listed, Ordered, AtMost, Stamps;
      connectionList := connectionList[..p] + connectionList[p + 1..];
      phase := phase[conn := Disconnected];
    }

    /**
     * The end of onMessage.  The list is in order again exactly when every
     * other stamp is, and the message is not older than any of them.
     */
    method Message(conn: nat, time: int)
      requires Valid() && conn in phase && phase[conn] != Disconnected
      modifies `connectionList, `contexts
      ensures Valid()
      ensures conn in old(contexts) && contexts == old(contexts)[conn := old(contexts)[conn].(lastReceiveTime := time)]
      ensures View() == Heard(old(View()), conn, time)
      ensures exists p :: 0 <= p < |old(connectionList)| && old(connectionList)[p].conn == conn
                && connectionList == Removed(old(connectionList), p) + [old(connectionList)[p]]
                && forall slack: nat ::
                     InOrder(slack) <==> var others := Removed(old(Stamps(connectionList, contexts)), p);
                                         Ordered(others, slack) && AtMost(others, time + slack)
      ensures forall slack: nat :: old(InOrder(slack)) && old(NoneAfter(time + slack)) ==> InOrder(slack)
      ensures forall t :: time <= t && old(NoneAfter(t)) ==> NoneAfter(t)
    {
      ghost var i :| 0 <= i < |connectionList| && connectionList[i].conn == conn;
      var p :| 0 <= p < |connectionList| && connectionList[p].node == contexts[conn].position;
      assert p == i;
      ghost var stamps := Stamps(connectionList, contexts);
      MoveToEndLinked(connectionList, contexts, phase, p, time);
      PeersMoved(connectionList, contexts, p, time);
      OrderedMoved(stamps, p, time);
      hide Linked, ListedWhileUp, Listed, Ordered, AtMost, Stamps, Removed;
      contexts := contexts[conn := contexts[conn].(lastReceiveTime := time)];
      connectionList := Removed(connectionList, p) + [connectionList[p]];
    }

    /**
     * onTimer.  It closes idle connections only; with the list in order it
     * closes every one of them.  No entry is ever found expired.
     */
    method OnTimer(now: int) returns (closed: set<nat>)
      requires Valid()
      modifies `contexts, `phase, `forceClosing
      ensures Valid() && forceClosing == old(forceClosing) + closed
      ensures View() == Ticked(old(View()), idleSeconds, now)
      ensures closed <= old(Idle(connectionList, contexts, phase, idleSeconds, 0, now))
      ensures forall slack: nat :: old(InOrder(slack)) ==>
                old(Idle(connectionList, contexts, phase, idleSeconds, slack, now)) <= closed
      ensures old(InOrder(0)) ==> closed == old(Idle(connectionList, contexts, phase, idleSeconds, 0, now))
      ensures forall c :: c in old(phase) ==> c in phase && phase[c] == if c in closed then Disconnecting else old(phase)[c]
      ensures phase.Keys == old(phase).Keys
      ensures SetBack(old(Stamps(connectionList, contexts)), Stamps(connectionList, contexts),
                      FirstYoung(old(Stamps(connectionList, contexts)), idleSeconds, now), idleSeconds, now)
      ensures forall slack: nat :: idleSeconds >= 0 && old(InOrder(slack)) ==> InOrder(slack)
      ensures forall t :: old(NoneAfter(t)) ==> NoneAfter(t)
    {
      hide Linked, ListedWhileUp, Listed, Ordered, AtMost, Stamps, ScannedTo, SetBack, Idle, ReachesIdle;
      ghost var contexts0, phase0 := contexts, phase;
      closed := {};
      StartScan(connectionList, contexts, phase, idleSeconds, now);
      var i := 0;
      while i < |connectionList|
        invariant i <= |connectionList|
        invariant contexts.Keys == phase.Keys && forceClosing == old(forceClosing) + closed
        invariant ScannedTo(connectionList, contexts0, contexts, phase0, phase, closed, i, idleSeconds, now)
        invariant Linked(connectionList, contexts0) && ListedWhileUp(connectionList, phase0)
      {
        ScanAt(connectionList, contexts0, contexts, phase0, phase, closed, i, idleSeconds, now);
        var conn := connectionList[i].conn;
        if conn !in contexts {
          assert false;      // "Expired": a connection leaves the list before it is destroyed
        }
        var age := now - contexts[conn].lastReceiveTime;
        if age > idleSeconds * MICROSECONDS_PER_SECOND {
          ScanStep(connectionList, contexts0, contexts, phase0, phase, closed, i, idleSeconds, now);
          if phase[conn] == Connected {
            phase := phase[conn := Disconnecting];         // shutdown
            forceClosing := forceClosing + {conn};         // forceCloseWithDelay
            closed := closed + {conn};
          }
        } else if age < 0 {
          ScanStep(connectionList, contexts0, contexts, phase0, phase, closed, i, idleSeconds, now);
          contexts := contexts[conn := contexts[conn].(lastReceiveTime := now)];
        } else {
          break;
        }
        i := i + 1;
      }
      ScanResult(connectionList, contexts0, contexts, phase0, phase, closed, i, idleSeconds, now);
      PeersScanned(connectionList, contexts0, contexts, phase0, phase, closed, i, old(forceClosing), idleSeconds, now);
    }

    /** The connection object is destroyed: its weak pointers expire. */
    method Destroy(conn: nat)
      requires Valid() && conn in phase && phase[conn] == Disconnected
      modifies `contexts, `phase, `forceClosing
      ensures Valid() && contexts == old(contexts) - {conn} && phase == old(phase) - {conn}
      ensures Stamps(connectionList, contexts) == old(Stamps(connectionList, contexts))
      ensures View() == Forgotten(old(View()), conn)
    {
      DestroyLinked(connectionList, contexts, phase, conn);
      PeersForgotten(connectionList, contexts, conn);
      hide Linked, ListedWhileUp;
      contexts := contexts - {conn};
      phase := phase - {conn};
      forceClosing := forceClosing - {conn};
    }

    /** One event, if it can happen now. */
    method Handle(e: Event, ghost latest: int, ghost slack: nat)
      requires Valid()
      modifies this
      ensures Valid() && View() == Happened(old(View()), idleSeconds, e)
      ensures old(InOrder(slack)) && old(NoneAfter(latest)) && idleSeconds >= 0 && Timely(e, latest, slack) ==>
                InOrder(slack) && NoneAfter(Stamped(e, latest))
    {
      hide Linked, ListedWhileUp, Listed, Ordered, AtMost, Stamps, SetBack, Idle, Removed, FirstYoung, Joined, Heard,
           Gone, Ticked, Forgotten, PeersOf;
      StillLater(e, latest, slack);
      HappenedIf(View(), idleSeconds, e);
      match e {
        case Up(conn, node, now) =>
          if conn !in contexts {
            ConnectionUp(conn, Allocated(connectionList, node), now);
          }
        case Received(conn, time) =>
          if conn in phase && phase[conn] != Disconnected {
            Message(conn, time);
          }
        case Down(conn) =>
          if conn in phase && phase[conn] != Disconnected {
            ConnectionDown(conn);
          }
        case Tick(now) =>
          var closed := OnTimer(now);
        case Destroyed(conn) =>
          if conn in phase && phase[conn] == Disconnected {
            Destroy(conn);
          }
      }
    }

    lemma StillLater(e: Event, latest: int, slack: nat)
      requires Valid()
      ensures NoneAfter(latest) ==> NoneAfter(Stamped(e, latest))
      ensures NoneAfter(latest) && e.Up? && Timely(e, latest, slack) ==> NoneAfter(e.now + slack)
      ensures NoneAfter(latest) && e.Received? && Timely(e, latest, slack) ==> NoneAfter(e.time + slack)
    {
    }

    /**
     * Any run of events does to the connections what the simple form says; if
     * its stamps do not go back by more than the slack, the list stays in
     * order.
     */
    method Serve(events: seq<Event>, ghost latest: int, ghost slack: nat)
      requires Valid()
      modifies this
      ensures Valid() && View() == Replay(old(View()), idleSeconds, events)
      ensures old(InOrder(slack)) && old(NoneAfter(latest)) && idleSeconds >= 0 && InStep(events, latest, slack) ==>
                InOrder(slack) && NoneAfter(Latest(events, latest))
    {
      hide Linked, ListedWhileUp, Listed, Ordered, AtMost, Stamps, SetBack, Idle, Removed, FirstYoung;
      ghost var roster := View();
      ReplayEnds(roster, idleSeconds, events);
      ghost var inStep := InOrder(slack) && NoneAfter(latest) && idleSeconds >= 0 && InStep(events, latest, slack);
      ghost var t := latest;
      var i := 0;
      while i < |events|
        invariant 0 <= i <= |events| && Valid()
        invariant View() == Replay(roster, idleSeconds, events[..i])
        invariant inStep ==> InOrder(slack) && NoneAfter(t) && InStep(events[i..], t, slack)
        invariant Latest(events[i..], t) == Latest(events, latest)
      {
        ReplayStep(roster, idleSeconds, events, i);
        assert events[i..][0] == events[i] && events[i..][1..] == events[i + 1..];
        Handle(events[i], t, slack);
        t := Stamped(events[i], t);
        i := i + 1;
      }
    }
  }

  /**
   * The poll returned at 100; the acceptor, handled first, stamps a new
   * connection at 105, and a message of an older connection then gets stamp
   * 100.  With a limit of one second the timer at 1000105 closes nobody,
   * though the older connection is idle.
   */
  method PollTimeIsTooOld() returns (server: ServerHandle, closed: set<nat>)
    ensures server.Valid() && server.idleSeconds == 1
    ensures server.View().peers == [Peer(2, 105), Peer(1, 100)]
    ensures IsIdle(100, 1, 1000105) && server.phase == map[1 := Connected, 2 := Connected] && closed == {}
  {
    hide Linked, Listed, ListedWhileUp, Ordered, AtMost, Stamps, PeersOf, Idle, SetBack, Removed, Joined, Heard, Ticked,
         FirstYoung, IsIdle;
    LateRoster();
    server := new ServerHandle(1);
    server.ConnectionUp(1, 0, 50);
    server.ConnectionUp(2, 1, 105);
    server.Message(1, 100);
    closed := server.OnTimer(1000105);
  }

  lemma LateRoster()
    ensures var r := Heard(Joined(Joined(NOBODY, 1, 50), 2, 105), 1, 100);
            && r == Roster([Peer(2, 105), Peer(1, 100)], map[1 := Connected, 2 := Connected], {})
            && Ticked(r, 1, 1000105) == r
    ensures IsIdle(100, 1, 1000105)
  {
    var r := Roster([Peer(2, 105), Peer(1, 100)], map[1 := Connected, 2 := Connected], {});
    var peers := [Peer(1, 50), Peer(2, 105)];
    assert peers[1..] == [Peer(2, 105)] && Dropped(peers, 1) == peers[1..];
    assert IsYoung(StampsOf(r.peers)[0], 1, 1000105);
    assert FirstYoung(StampsOf(r.peers), 1, 1000105) == 0;
    assert SetBackTo(r.peers, 1, 1000105) == r.peers && Closing(r, 1, 1000105) == {};
  }
}
