/**
 * What a shutdown does to messages that other threads have sent and that still
 * wait in the loop's queue: the write that empties the buffer half-closes the
 * socket as soon as the connection is disconnecting, whether or not they have
 * had their turn.
 */
module TcpShutdown {
  import opened ByteBuffer
  import opened TcpStream

  // ----------------------------------------------------- every schedule

  /** The loop finds the socket writable and executes functors, as it may; no write finds the socket broken. */
  predicate Schedule(events: seq<Event>) {
    forall i :: 0 <= i < |events| ==> (events[i].Writable? || events[i].TaskRuns?) && !Breaks(events[i])
  }

  /** Behind anything but an empty message no message waits. */
  predicate LastOnly(tasks: seq<Task>) {
    forall i, j :: 0 <= i < j < |tasks| && tasks[j].SendTask? ==> tasks[i] == SendTask([])
  }

  predicate NoSends(tasks: seq<Task>) {
    forall i :: 0 <= i < |tasks| ==> !tasks[i].SendTask?
  }

  /** Nothing is lost yet and nothing can be. */
  predicate OutOfDanger(l: Link) {
    && !l.lost && l.state == Disconnecting && ForceCloseTask !in l.tasks
    && (NoSends(l.tasks) || (!l.halfClosed && l.waiting == [] && LastOnly(l.tasks)))
  }

  /** On a sound socket a message is not lost. */
  lemma TakenIn(l: Link, m: seq<Byte>, w: WriteResult)
    requires l.state == Disconnecting && !l.halfClosed && l.waiting == [] && !w.Broken?
    ensures var l' := Accepted(l, m, w);
            && l'.state == l.state && !l'.halfClosed && l'.tasks == l.tasks && l'.lost == l.lost
            && (m == [] ==> l'.waiting == [])
  {
  }

  lemma QueueMoves(tasks: seq<Task>)
    requires tasks != [] && LastOnly(tasks)
    ensures LastOnly(tasks[1..]) && (tasks[0] != SendTask([]) ==> NoSends(tasks[1..]))
  {
  }

  lemma TurnOutOfDanger(l: Link, w: WriteResult)
    requires OutOfDanger(l) && l.tasks != [] && !w.Broken?
    ensures OutOfDanger(Turn(l, w))
  {
    if l.tasks[0].SendTask? {
      QueueMoves(l.tasks);
      TakenIn(l.(tasks := l.tasks[1..]), l.tasks[0].message, w);
      hide Accepted, LastOnly, NoSends;
    } else if NoSends(l.tasks) {
      assert NoSends(l.tasks[1..]);
      hide Accepted, LastOnly, NoSends;
    } else {
      QueueMoves(l.tasks);
      hide Accepted, LastOnly, NoSends;
    }
  }

  lemma StepOutOfDanger(l: Link, e: Event)
    requires OutOfDanger(l) && (e.Writable? || e.TaskRuns?) && !Breaks(e)
    ensures OutOfDanger(Happened(l, e))
  {
    if e.TaskRuns? && l.tasks != [] {
      TurnOutOfDanger(l, e.w);
    }
    hide Accepted, LastOnly, NoSends;
  }

  lemma {:induction false} ScheduleOutOfDanger(l: Link, events: seq<Event>)
    requires OutOfDanger(l) && Schedule(events)
    ensures OutOfDanger(Replay(l, events))
  {
    if events != [] {
      hide OutOfDanger, Happened;
      var front := events[..|events| - 1];
      ScheduleOutOfDanger(l, front);
      StepOutOfDanger(Replay(l, front), events[|events| - 1]);
    }
  }

  lemma {:induction false} ReplayCons(l: Link, e: Event, events: seq<Event>)
    ensures Replay(l, [e] + events) == Replay(Happened(l, e), events)
    decreases |events|
  {
    hide Happened;
    if events == [] {
      assert [e] + events == [e] && [e][..0] == [];
    } else {
      var front := events[..|events| - 1];
      assert ([e] + events)[..|events|] == [e] + front;
      ReplayCons(l, e, front);
    }
  }

  /** A message whose turn comes after the half-close. */
  lemma LostNow(l: Link)
    requires l.state == Disconnecting && l.halfClosed && l.waiting == [] && l.tasks != [] && l.tasks[0].SendTask?
    ensures Schedule([TaskRuns(WouldBlock)]) && Replay(l, [TaskRuns(WouldBlock)]).lost
  {
    ReplayCons(l, TaskRuns(WouldBlock), []);
    assert [TaskRuns(WouldBlock)] + [] == [TaskRuns(WouldBlock)];
  }

  /** Bytes are buffered and a message waits: the buffer may empty first. */
  lemma LostAfterWrite(l: Link) returns (events: seq<Event>)
    requires l.state == Disconnecting && !l.halfClosed && l.waiting != [] && l.tasks != [] && l.tasks[0].SendTask?
    ensures Schedule(events) && Replay(l, events).lost
  {
    var w := Writable(Wrote(|l.waiting|));
    var written := Happened(l, w);
    assert written.waiting == [] && written.halfClosed;
    LostNow(written);
    events := [w] + [TaskRuns(WouldBlock)];
    ReplayCons(l, w, [TaskRuns(WouldBlock)]);
  }

  /** A message that is not empty has its turn, and is written before that of the next one. */
  lemma {:induction false} LostBehind(l: Link, i: nat) returns (events: seq<Event>)
    requires l.state == Disconnecting && !l.halfClosed && i + 1 < |l.tasks|
    requires forall j :: 0 <= j <= i + 1 ==> l.tasks[j].SendTask?
    requires l.waiting != [] || l.tasks[i].message != []
    ensures Schedule(events) && Replay(l, events).lost
    decreases i
  {
    if l.waiting != [] {
      events := LostAfterWrite(l);
    } else {
      var e := TaskRuns(WouldBlock);
      var next := Happened(l, e);
      assert next.waiting == [] + l.tasks[0].message == l.tasks[0].message;
      var rest;
      if i == 0 {
        rest := LostAfterWrite(next);
      } else {
        rest := LostBehind(next, i - 1);
      }
      events := [e] + rest;
      ReplayCons(l, e, rest);
    }
  }

  /** When no message that waits at a shutdown is in danger. */
  predicate ShutsSafely(l: Link, here: bool) {
    if here || l.waiting != [] then l.tasks == []
    else forall i :: 0 <= i < |l.tasks| - 1 ==> l.tasks[i] == SendTask([])
  }

  lemma SafeIsOutOfDanger(l: Link, here: bool)
    requires l.state == Connected && Proper(l) && !l.lost && ShutsSafely(l, here)
    ensures OutOfDanger(ShutFrom(l, here))
  {
    var tasks := ShutFrom(l, here).tasks;
    if !here {
      assert tasks == l.tasks + [ShutdownTask];
      assert forall i :: 0 <= i < |l.tasks| ==> tasks[i] == l.tasks[i];
    }
  }

  lemma Endangered(l: Link, here: bool) returns (events: seq<Event>)
    requires l.state == Connected && Proper(l) && !ShutsSafely(l, here)
    ensures Schedule(events) && Replay(ShutFrom(l, here), events).lost
  {
    var shut := ShutFrom(l, here);
    assert l.tasks[0].SendTask? && shut.tasks[0] == l.tasks[0];
    if l.waiting != [] {
      events := LostAfterWrite(shut);
    } else if here {
      LostNow(shut);
      events := [TaskRuns(WouldBlock)];
    } else {
      var i :| 0 <= i < |l.tasks| - 1 && l.tasks[i] != SendTask([]);
      assert forall j :: 0 <= j < |l.tasks| ==> shut.tasks[j] == l.tasks[j];
      events := LostBehind(shut, i);
    }
  }

  /**
   * However the loop goes on after a shutdown, no message is lost, exactly when
   * no message waits; or, if another thread shuts down and nothing is buffered,
   * when all that wait but the last are empty.
   */
  lemma ShutdownLosesNothingIff(l: Link, here: bool)
    requires l.state == Connected && Proper(l) && !l.lost
    ensures (forall events :: Schedule(events) ==> !Replay(ShutFrom(l, here), events).lost) <==> ShutsSafely(l, here)
  {
    if ShutsSafely(l, here) {
      SafeIsOutOfDanger(l, here);
      forall events | Schedule(events) ensures !Replay(ShutFrom(l, here), events).lost {
        ScheduleOutOfDanger(ShutFrom(l, here), events);
      }
    } else {
      var events := Endangered(l, here);
    }
  }

  /** The loop drains the buffer after a shutdown from another thread, and then executes what waits. */
  lemma ShutBehind(l: Link)
    requires l.state == Connected && !l.halfClosed && l.waiting != [] && l.tasks != [] && l.tasks[0].SendTask?
    ensures var end := Replay(l, [ShutdownFrom(false), Writable(Wrote(|l.waiting|)), TaskRuns(WouldBlock)]);
            end.lost && end.halfClosed && end.sent == l.sent && end.wire == l.wire + l.waiting
  {
    var shut := ShutFrom(l, false);
    var written := Written(shut, Wrote(|l.waiting|));
    assert written.waiting == [] && written.halfClosed && written.wire == l.wire + l.waiting[..|l.waiting|];
    assert shut.tasks[0] == l.tasks[0];
    ThreeSteps(l, ShutdownFrom(false), Writable(Wrote(|l.waiting|)), TaskRuns(WouldBlock));
    hide Replay;
  }

  lemma ThreeSteps(l: Link, a: Event, b: Event, c: Event)
    ensures Replay(l, [a, b, c]) == Happened(Happened(Happened(l, a), b), c)
  {
    hide Happened;
    ReplayStep(l, [a, b, c], 0);
    ReplayStep(l, [a, b, c], 1);
    ReplayStep(l, [a, b, c], 2);
    ReplayEnds(l, [a, b, c]);
  }

  lemma {:induction false} ReplayAppend(l: Link, a: seq<Event>, b: seq<Event>)
    ensures Replay(l, a + b) == Replay(Replay(l, a), b)
    decreases |b|
  {
    hide Happened;
    if b == [] {
      assert a + b == a;
    } else {
      assert (a + b)[..|a + b| - 1] == a + b[..|b| - 1];
      ReplayAppend(l, a, b[..|b| - 1]);
    }
  }

  /**
   * Another thread sends and then shuts down; the loop finds the socket
   * writable before it executes the two functors, and the message is lost.
   */
  lemma LostBySender(setup: Setup)
    ensures var l := Replay(Fresh(setup), [Establish, SendFrom([1], true, WouldBlock), SendFrom([2], false, WouldBlock),
                                           ShutdownFrom(false), Writable(Wrote(1)), TaskRuns(WouldBlock)]);
            l.lost && l.halfClosed && l.sent == [[1], [2]] && l.wire == [1]
  {
    var a := [Establish, SendFrom([1], true, WouldBlock), SendFrom([2], false, WouldBlock)];
    var b := [ShutdownFrom(false), Writable(Wrote(1)), TaskRuns(WouldBlock)];
    BufferedAndQueued(setup);
    ShutBehind(Replay(Fresh(setup), a));
    ReplayAppend(Fresh(setup), a, b);
    assert a + b == [Establish, SendFrom([1], true, WouldBlock), SendFrom([2], false, WouldBlock),
                     ShutdownFrom(false), Writable(Wrote(1)), TaskRuns(WouldBlock)];
    hide Replay;
  }

  lemma BufferedAndQueued(setup: Setup)
    ensures var l := Replay(Fresh(setup), [Establish, SendFrom([1], true, WouldBlock), SendFrom([2], false, WouldBlock)]);
            && l.state == Connected && !l.halfClosed && l.waiting == [1] && l.wire == [] && l.tasks == [SendTask([2])]
            && l.sent == [[1], [2]]
  {
    ThreeSteps(Fresh(setup), Establish, SendFrom([1], true, WouldBlock), SendFrom([2], false, WouldBlock));
    hide Replay;
  }

  // ------------------------------------------------------- one schedule

  /** The functors queued have their turns, one answer of the kernel each. */
  function Turns(l: Link, ws: seq<WriteResult>): Link
    decreases |ws|
  {
    if ws == [] then l else Turns(Turn(l, ws[0]), ws[1..])
  }

  predicate NoneBroken(ws: seq<WriteResult>) {
    forall i :: 0 <= i < |ws| ==> !ws[i].Broken?
  }

  /** Waiting messages on their way to a sound socket all join the stream, in order. */
  lemma {:induction false} TurnsAccept(l: Link, ws: seq<WriteResult>)
    requires l.Up() && !l.halfClosed && NoneBroken(ws) && |ws| <= |l.tasks| && OnlySends(l.tasks[..|ws|])
    ensures var l' := Turns(l, ws);
            && l'.state == l.state && !l'.halfClosed && l'.tasks == l.tasks[|ws|..] && l'.lost == l.lost
            && l'.wire + l'.waiting == l.wire + l.waiting + Concat(Pending(l.tasks[..|ws|]))
            && (l.waiting != [] ==> l'.waiting != [] && l'.wire == l.wire)
    decreases |ws|
  {
    if ws != [] {
      var m := l.tasks[0].message;
      assert l.tasks[..|ws|][0].SendTask?;
      assert l.tasks[1..][..|ws| - 1] == l.tasks[..|ws|][1..];
      PendingFirst(l.tasks[..|ws|]);
      JoinsStream(l.(tasks := l.tasks[1..]), m, ws[0]);
      var rest := Pending(l.tasks[..|ws|][1..]);
      ConcatConcat([m], rest);
      ConcatSnoc([], m);
      hide Accepted, Concat, Pending;
      TurnsAccept(Turn(l, ws[0]), ws[1..]);
      assert [] + [m] == [m] && [] + m == m;
      Assoc(l.wire + l.waiting, m, Concat(rest));
      assert l.tasks[1..][|ws| - 1..] == l.tasks[|ws|..];
    } else {
      assert l.tasks[..0] == [];
    }
  }

  lemma JoinsStream(l: Link, m: seq<Byte>, w: WriteResult)
    requires l.Up() && !l.halfClosed && !w.Broken?
    ensures var l' := Accepted(l, m, w);
            && l'.wire + l'.waiting == l.wire + l.waiting + m
            && l'.state == l.state && !l'.halfClosed && l'.tasks == l.tasks && l'.lost == l.lost
            && (l.waiting != [] ==> l'.waiting != [] && l'.wire == l.wire)
  {
    var a := Answer(w, |m|, l.halfClosed);
    Joined(l.wire, l.waiting, m, if l.waiting == [] && a.Wrote? then a.n else 0);
  }

  /** On a half-closed socket every waiting message is lost. */
  lemma {:induction false} TurnsLose(l: Link, ws: seq<WriteResult>)
    requires l.state == Disconnecting && l.halfClosed && l.waiting == []
    requires |ws| <= |l.tasks| && OnlySends(l.tasks[..|ws|])
    ensures var l' := Turns(l, ws);
            && l'.state == l.state && l'.halfClosed && l'.wire == l.wire && l'.waiting == [] && l'.kept == l.kept
            && l'.lost == (l.lost || ws != [])
    decreases |ws|
  {
    if ws != [] {
      var next := Turn(l, ws[0]);
      assert l.tasks[..|ws|][0].SendTask?;
      assert next.tasks[..|ws| - 1] == l.tasks[..|ws|][1..];
      TurnsLose(next, ws[1..]);
    }
  }

  lemma TurnsSnoc(l: Link, ws: seq<WriteResult>, w: WriteResult)
    ensures Turns(l, ws + [w]) == Turn(Turns(l, ws), w)
    decreases |ws|
  {
    if ws != [] {
      assert (ws + [w])[1..] == ws[1..] + [w];
      TurnsSnoc(Turn(l, ws[0]), ws[1..], w);
    }
  }

  /**
   * One schedule: a shutdown, then the turns of all functors queued without a
   * write between them, then a write that takes what is left.  The stream is
   * half-closed, and on this schedule it ends with every message that waited
   * exactly when the shutdown was queued behind them, or bytes were still
   * buffered, or the messages were empty.
   */
  lemma DeliveredInTurn(l: Link, here: bool, ws: seq<WriteResult>)
    requires l.state == Connected && Proper(l)
    requires NoneBroken(ws) && |ws| == |ShutFrom(l, here).tasks|
    ensures var turned := Turns(ShutFrom(l, here), ws);
            var l' := Written(turned, Wrote(|turned.waiting|));
            && l'.halfClosed && l'.waiting == [] && l'.tasks == []
            && (l'.wire == l.wire + l.waiting + Concat(Pending(l.tasks)) <==>
                !here || l.waiting != [] || Concat(Pending(l.tasks)) == [])
            && (l'.lost <==> l.lost || (here && l.waiting == [] && l.tasks != []))
  {
    var shut := ShutFrom(l, here);
    if here && l.waiting == [] {
      assert shut.tasks[..|ws|] == l.tasks;
      TurnsLose(shut, ws);
      TurnsEmpty(shut, ws);
    } else if here {
      assert shut.tasks[..|ws|] == l.tasks;
      TurnsAccept(shut, ws);
      TakesAll(Turns(shut, ws));
    } else {
      var sends := ws[..|ws| - 1];
      assert ws == sends + [ws[|ws| - 1]];
      assert shut.tasks[..|sends|] == l.tasks;
      TurnsSnoc(shut, sends, ws[|ws| - 1]);
      TurnsAccept(shut, sends);
      TakesAll(Turns(shut, ws));
    }
  }

  lemma {:induction false} TurnsEmpty(l: Link, ws: seq<WriteResult>)
    requires |ws| == |l.tasks| && OnlySends(l.tasks)
    ensures Turns(l, ws).tasks == []
    decreases |ws|
  {
    if ws != [] {
      TurnsEmpty(Turn(l, ws[0]), ws[1..]);
    }
  }

  lemma TakesAll(l: Link)
    requires l.state == Disconnecting && (l.halfClosed ==> l.waiting == [])
    requires l.waiting == [] ==> l.halfClosed
    ensures var l' := Written(l, Wrote(|l.waiting|));
            l'.halfClosed && l'.waiting == [] && l'.wire == l.wire + l.waiting && l'.tasks == l.tasks && l'.lost == l.lost
  {
    assert l.waiting[..|l.waiting|] == l.waiting;
  }
}
