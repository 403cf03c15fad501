/**
 * The connections of the server in their simple form: who is up, when each was
 * heard last, oldest first.  No nodes and no iterators; each event is one step.
 */
module IdleRoster {

  const MICROSECONDS_PER_SECOND: int := 1000000

  /** TcpConnection::state_, as far as the scan looks at it. */
  datatype Phase = Connected | Disconnecting | Disconnected

  predicate IsIdle(stamp: int, idleSeconds: int, now: int) {
    now - stamp > idleSeconds * MICROSECONDS_PER_SECOND
  }

  /** Neither idle nor in the future: the scan stops here. */
  predicate IsYoung(stamp: int, idleSeconds: int, now: int) {
    !IsIdle(stamp, idleSeconds, now) && now - stamp >= 0
  }

  /** Where the scan stops. */
  ghost function FirstYoung(stamps: seq<int>, idleSeconds: int, now: int): (k: nat)
    ensures k <= |stamps|
    ensures forall i :: 0 <= i < k ==> !IsYoung(stamps[i], idleSeconds, now)
    ensures k < |stamps| ==> IsYoung(stamps[k], idleSeconds, now)
  {
    if stamps == [] || IsYoung(stamps[0], idleSeconds, now) then 0
    else 1 + FirstYoung(stamps[1..], idleSeconds, now)
  }

  /** What can happen; node is where the list allocates an entry, if that is free. */
  datatype Event =
    | Up(conn: nat, node: nat, now: int)
    | Received(conn: nat, time: int)
    | Down(conn: nat)
    | Tick(now: int)
    | Destroyed(conn: nat)

  datatype Peer = Peer(conn: nat, stamp: int)

  datatype Roster = Roster(peers: seq<Peer>, phase: map<nat, Phase>, forceClosing: set<nat>) {
    predicate Listed(conn: nat) { conn in phase && phase[conn] != Disconnected }
  }

  function StampsOf(peers: seq<Peer>): (s: seq<int>)
    ensures |s| == |peers| && forall i :: 0 <= i < |s| ==> s[i] == peers[i].stamp
  {
    seq(|peers|, i requires 0 <= i < |peers| => peers[i].stamp)
  }

  function Dropped(peers: seq<Peer>, conn: nat): seq<Peer> {
    if peers == [] then [] else if peers[0].conn == conn then peers[1..] else [peers[0]] + Dropped(peers[1..], conn)
  }

  function Joined(r: Roster, conn: nat, now: int): Roster {
    if conn in r.phase then r
    else r.(peers := r.peers + [Peer(conn, now)], phase := r.phase[conn := Connected])
  }

  function Heard(r: Roster, conn: nat, time: int): Roster {
    if r.Listed(conn) then r.(peers := Dropped(r.peers, conn) + [Peer(conn, time)]) else r
  }

  function Gone(r: Roster, conn: nat): Roster {
    if r.Listed(conn) then r.(peers := Dropped(r.peers, conn), phase := r.phase[conn := Disconnected]) else r
  }

  /** Future stamps before the first young one are set back. */
  ghost function SetBackTo(peers: seq<Peer>, idleSeconds: int, now: int): (after: seq<Peer>)
    ensures |after| == |peers|
  {
    var k := FirstYoung(StampsOf(peers), idleSeconds, now);
    seq(|peers|, i requires 0 <= i < |peers| =>
      if i < k && !IsIdle(peers[i].stamp, idleSeconds, now) then peers[i].(stamp := now) else peers[i])
  }

  /** Whom the scan closes: the idle ones before the first young one. */
  ghost function Closing(r: Roster, idleSeconds: int, now: int): set<nat> {
    var k := FirstYoung(StampsOf(r.peers), idleSeconds, now);
    set i | 0 <= i < |r.peers| && i < k && IsIdle(r.peers[i].stamp, idleSeconds, now)
            && r.peers[i].conn in r.phase && r.phase[r.peers[i].conn] == Connected :: r.peers[i].conn
  }

  ghost function Ticked(r: Roster, idleSeconds: int, now: int): Roster {
    var closing := Closing(r, idleSeconds, now);
    Roster(SetBackTo(r.peers, idleSeconds, now),
           map c | c in r.phase :: if c in closing then Disconnecting else r.phase[c],
           r.forceClosing + closing)
  }

  function Forgotten(r: Roster, conn: nat): Roster {
    if conn in r.phase && r.phase[conn] == Disconnected then
      r.(phase := r.phase - {conn}, forceClosing := r.forceClosing - {conn})
    else r
  }

  ghost function Happened(r: Roster, idleSeconds: int, e: Event): Roster {
    match e
    case Up(conn, _, now) => Joined(r, conn, now)
    case Received(conn, time) => Heard(r, conn, time)
    case Down(conn) => Gone(r, conn)
    case Tick(now) => Ticked(r, idleSeconds, now)
    case Destroyed(conn) => Forgotten(r, conn)
  }

  ghost function Replay(r: Roster, idleSeconds: int, events: seq<Event>): Roster {
    if events == [] then r
    else Happened(Replay(r, idleSeconds, events[..|events| - 1]), idleSeconds, events[|events| - 1])
  }

  lemma ReplayEnds(r: Roster, idleSeconds: int, events: seq<Event>)
    ensures Replay(r, idleSeconds, events[..0]) == r && events[..|events|] == events
  {
  }

  lemma ReplayStep(r: Roster, idleSeconds: int, events: seq<Event>, i: nat)
    requires i < |events|
    ensures Replay(r, idleSeconds, events[..i + 1]) == Happened(Replay(r, idleSeconds, events[..i]), idleSeconds, events[i])
  {
    assert events[..i + 1][..i] == events[..i];
  }

  // ---------------------------------------------------- laws of the roster

  ghost predicate Distinct(peers: seq<Peer>) {
    forall i, j :: 0 <= i < j < |peers| ==> peers[i].conn != peers[j].conn
  }

  ghost predicate On(peers: seq<Peer>, conn: nat) {
    exists p :: p in peers && p.conn == conn
  }

  /** Each connection that is up is listed once, and no other. */
  ghost predicate Coherent(r: Roster) {
    Distinct(r.peers) && forall c :: r.Listed(c) <==> On(r.peers, c)
  }

  lemma {:induction false} DroppedAt(peers: seq<Peer>, p: nat)
    requires p < |peers| && forall i :: 0 <= i < p ==> peers[i].conn != peers[p].conn
    ensures Dropped(peers, peers[p].conn) == peers[..p] + peers[p + 1..]
  {
    if p > 0 {
      assert peers[0].conn != peers[p].conn;
      DroppedAt(peers[1..], p - 1);
      assert peers[..p] == [peers[0]] + peers[1..][..p - 1];
    }
  }

  lemma {:induction false} DroppedMembers(peers: seq<Peer>, conn: nat)
    requires Distinct(peers)
    ensures Distinct(Dropped(peers, conn))
    ensures forall p :: p in Dropped(peers, conn) <==> p in peers && p.conn != conn
  {
    if peers != [] {
      assert peers == [peers[0]] + peers[1..];
      assert forall p :: p in peers[1..] ==> p.conn != peers[0].conn;
      DroppedMembers(peers[1..], conn);
    }
  }

  lemma GoneCoherent(r: Roster, conn: nat)
    requires Coherent(r) && r.Listed(conn)
    ensures Coherent(Gone(r, conn)) && !On(Gone(r, conn).peers, conn)
    ensures forall p :: p in Gone(r, conn).peers <==> p in r.peers && p.conn != conn
  {
    DroppedMembers(r.peers, conn);
    hide Distinct;
    forall c | c != conn ensures On(Gone(r, conn).peers, c) <==> On(r.peers, c) {
    }
  }

  lemma JoinedCoherent(r: Roster, conn: nat, stamp: int, phase: Phase)
    requires Coherent(r) && !r.Listed(conn) && phase != Disconnected
    ensures Coherent(r.(peers := r.peers + [Peer(conn, stamp)], phase := r.phase[conn := phase]))
  {
    var after := r.(peers := r.peers + [Peer(conn, stamp)], phase := r.phase[conn := phase]);
    assert Peer(conn, stamp) in after.peers;
    forall c | c != conn ensures On(after.peers, c) <==> On(r.peers, c) {
    }
    forall i | 0 <= i < |r.peers| ensures r.peers[i].conn != conn {
      assert r.peers[i] in r.peers;
    }
  }

  lemma TickedCoherent(r: Roster, idleSeconds: int, now: int)
    requires Coherent(r)
    ensures Coherent(Ticked(r, idleSeconds, now))
  {
    var after := Ticked(r, idleSeconds, now);
    assert forall i :: 0 <= i < |r.peers| ==> after.peers[i].conn == r.peers[i].conn;
    forall c ensures On(after.peers, c) <==> On(r.peers, c) {
      if p :| p in r.peers && p.conn == c {
        var i :| 0 <= i < |r.peers| && r.peers[i] == p;
        assert after.peers[i] in after.peers;
      }
    }
    forall c | after.Listed(c) != r.Listed(c) ensures false {
    }
  }

  lemma HeardCoherent(r: Roster, conn: nat, time: int)
    requires Coherent(r) && r.Listed(conn)
    ensures Coherent(Heard(r, conn, time))
  {
    GoneCoherent(r, conn);
    var left := Gone(r, conn);
    JoinedCoherent(left, conn, time, r.phase[conn]);
    assert left.phase[conn := r.phase[conn]] == r.phase;
  }

  lemma HappenedCoherent(r: Roster, idleSeconds: int, e: Event)
    requires Coherent(r)
    ensures Coherent(Happened(r, idleSeconds, e))
  {
    match e {
      case Up(conn, _, now) => if conn !in r.phase { JoinedCoherent(r, conn, now, Connected); }
      case Received(conn, time) => if r.Listed(conn) { HeardCoherent(r, conn, time); }
      case Down(conn) => if r.Listed(conn) { GoneCoherent(r, conn); }
      case Tick(now) => TickedCoherent(r, idleSeconds, now);
      case Destroyed(conn) =>
    }
  }

  // ------------------------------------------------- what an event does

  /** Idle and young in seconds, as timeDifference gives the age. */
  lemma AgeInSeconds(stamp: int, idleSeconds: int, now: int)
    ensures var age := (now - stamp) as real / 1000000.0;
            && (IsIdle(stamp, idleSeconds, now) <==> age > idleSeconds as real)
            && (IsYoung(stamp, idleSeconds, now) <==> 0.0 <= age <= idleSeconds as real)
  {
  }

  /** The list without the connection, in order, and the connection with its stamp behind it. */
  ghost predicate LastOf(before: seq<Peer>, after: seq<Peer>, p: Peer) {
    && after != [] && after[|after| - 1] == p
    && forall k :: 0 <= k < |before| && before[k].conn == p.conn ==>
         after == before[..k] + before[k + 1..] + [p]
  }

  /** A new connection is up and heard last; one that is heard is last; one that goes down is off the list. */
  lemma ConnectionDoes(r: Roster, idleSeconds: int, conn: nat, node: nat, time: int)
    requires Coherent(r)
    ensures var after := Happened(r, idleSeconds, Up(conn, node, time));
            if conn in r.phase then after == r
            else after.peers == r.peers + [Peer(conn, time)] && after.phase == r.phase[conn := Connected]
                 && after.forceClosing == r.forceClosing
    ensures var after := Happened(r, idleSeconds, Received(conn, time));
            if On(r.peers, conn) then LastOf(r.peers, after.peers, Peer(conn, time)) && after == r.(peers := after.peers)
            else after == r
    ensures var after := Happened(r, idleSeconds, Down(conn));
            if On(r.peers, conn) then
              && after.phase == r.phase[conn := Disconnected] && after.forceClosing == r.forceClosing
              && !On(after.peers, conn)
              && forall k :: 0 <= k < |r.peers| && r.peers[k].conn == conn ==>
                   after.peers == r.peers[..k] + r.peers[k + 1..]
            else after == r
  {
    assert r.Listed(conn) <==> On(r.peers, conn);
    if r.Listed(conn) {
      GoneCoherent(r, conn);
      hide On;
      forall k | 0 <= k < |r.peers| && r.peers[k].conn == conn
        ensures Dropped(r.peers, conn) == r.peers[..k] + r.peers[k + 1..]
      {
        DroppedAt(r.peers, k);
      }
    }
  }

  /** A connection is forgotten with its timer exactly when it is down. */
  lemma DestroyedDoes(r: Roster, idleSeconds: int, conn: nat)
    ensures var after := Happened(r, idleSeconds, Destroyed(conn));
            if conn in r.phase && r.phase[conn] == Disconnected
            then after == Roster(r.peers, r.phase - {conn}, r.forceClosing - {conn})
            else after == r
    ensures forall c :: c in r.phase && r.phase[c] != Disconnected ==>
              c in Happened(r, idleSeconds, Destroyed(conn)).phase
  {
  }

  /** The connection is met by the scan, connected and older than the limit. */
  ghost predicate FoundIdle(r: Roster, idleSeconds: int, now: int, c: nat) {
    && c in r.phase && r.phase[c] == Connected
    && exists i :: 0 <= i < |r.peers| && r.peers[i].conn == c
         && (now - r.peers[i].stamp) as real / 1000000.0 > idleSeconds as real
         && forall j :: 0 <= j < i ==> !IsYoung(r.peers[j].stamp, idleSeconds, now)
  }

  /** The timer begins to close exactly those connections, and touches no other. */
  lemma TickDoes(r: Roster, idleSeconds: int, now: int)
    ensures var after := Happened(r, idleSeconds, Tick(now));
            && after.phase.Keys == r.phase.Keys
            && forall c :: c in r.phase ==>
                 && after.phase[c] == (if FoundIdle(r, idleSeconds, now, c) then Disconnecting else r.phase[c])
                 && (c in after.forceClosing <==> c in r.forceClosing || FoundIdle(r, idleSeconds, now, c))
  {
    var k := FirstYoung(StampsOf(r.peers), idleSeconds, now);
    forall c ensures FoundIdle(r, idleSeconds, now, c) <==> c in Closing(r, idleSeconds, now) {
      if FoundIdle(r, idleSeconds, now, c) {
        var i :| 0 <= i < |r.peers| && r.peers[i].conn == c
                 && (now - r.peers[i].stamp) as real / 1000000.0 > idleSeconds as real
                 && forall j :: 0 <= j < i ==> !IsYoung(r.peers[j].stamp, idleSeconds, now);
        AgeInSeconds(r.peers[i].stamp, idleSeconds, now);
        assert i < k;
      }
      if c in Closing(r, idleSeconds, now) {
        var i :| 0 <= i < |r.peers| && i < k && IsIdle(r.peers[i].stamp, idleSeconds, now) && r.peers[i].conn == c;
        AgeInSeconds(r.peers[i].stamp, idleSeconds, now);
        assert forall j :: 0 <= j < i ==> !IsYoung(StampsOf(r.peers)[j], idleSeconds, now);
      }
    }
  }

  /** Stamps in the future that the scan meets become the present, and every other stamp stays. */
  lemma TickStamps(r: Roster, idleSeconds: int, now: int, i: nat)
    requires i < |r.peers|
    ensures var after := Happened(r, idleSeconds, Tick(now));
            && |after.peers| == |r.peers| && after.peers[i].conn == r.peers[i].conn
            && after.peers[i].stamp ==
                 (if r.peers[i].stamp > now && !IsIdle(r.peers[i].stamp, idleSeconds, now)
                     && forall j :: 0 <= j < i ==> !IsYoung(r.peers[j].stamp, idleSeconds, now)
                  then now else r.peers[i].stamp)
  {
    var k := FirstYoung(StampsOf(r.peers), idleSeconds, now);
    var stamps := StampsOf(r.peers);
    if i < k {
      assert !IsYoung(stamps[i], idleSeconds, now);
      assert forall j :: 0 <= j < i ==> !IsYoung(stamps[j], idleSeconds, now);
    } else {
      assert k < i ==> IsYoung(r.peers[k].stamp, idleSeconds, now);
    }
  }

  const NOBODY := Roster([], map[], {})

  lemma {:induction false} ReplayCoherent(idleSeconds: int, events: seq<Event>)
    ensures Coherent(Replay(NOBODY, idleSeconds, events))
  {
    if events != [] {
      hide Coherent, Happened;
      ReplayCoherent(idleSeconds, events[..|events| - 1]);
      HappenedCoherent(Replay(NOBODY, idleSeconds, events[..|events| - 1]), idleSeconds, events[|events| - 1]);
    }
  }

  /** The time of the last event that stamped a connection. */
  ghost function LastHeard(idleSeconds: int, events: seq<Event>, conn: nat): int
    decreases |events|
  {
    if events == [] then 0
    else
      var front, e := events[..|events| - 1], events[|events| - 1];
      var before := Replay(NOBODY, idleSeconds, front);
      if e.Up? && e.conn == conn && conn !in before.phase then e.now
      else if e.Received? && e.conn == conn && before.Listed(conn) then e.time
      else LastHeard(idleSeconds, front, conn)
  }

  ghost predicate TickAt(events: seq<Event>, now: int) {
    exists i :: 0 <= i < |events| && events[i] == Tick(now)
  }

  /** A stamp is that of the connection's last event, or of a timer before it that found it in the future. */
  ghost predicate RightStamp(idleSeconds: int, events: seq<Event>, p: Peer) {
    var last := LastHeard(idleSeconds, events, p.conn);
    p.stamp == last || (p.stamp < last && TickAt(events, p.stamp))
  }

  lemma {:induction false} StampsAreLast(idleSeconds: int, events: seq<Event>, p: Peer)
    requires p in Replay(NOBODY, idleSeconds, events).peers
    ensures RightStamp(idleSeconds, events, p)
    decreases |events|
  {
    var front, e := events[..|events| - 1], events[|events| - 1];
    var before := Replay(NOBODY, idleSeconds, front);
    ReplayCoherent(idleSeconds, front);
    forall now | TickAt(front, now) ensures TickAt(events, now) {
      var i :| 0 <= i < |front| && front[i] == Tick(now);
      assert events[i] == Tick(now);
    }
    if e.Received? && before.Listed(e.conn) {
      GoneCoherent(before, e.conn);
    }
    if e.Down? && before.Listed(e.conn) {
      GoneCoherent(before, e.conn);
    }
    if p in before.peers {
      assert On(before.peers, p.conn) && before.Listed(p.conn);
      StampsAreLast(idleSeconds, front, p);
    } else if e.Tick? {
      var i :| 0 <= i < |before.peers| && Ticked(before, idleSeconds, e.now).peers[i] == p;
      assert events[|events| - 1] == Tick(e.now);
      StampsAreLast(idleSeconds, front, before.peers[i]);
    }
  }
}
