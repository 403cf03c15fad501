/**
 * The timer queue in its simple form: a table of timers by sequence number.
 * No indexes, no reused addresses, no marks on addresses; what a client asks
 * for and what an alarm does are single steps on the table.
 */
module TimerTable {

  const UINTPTR_MAX: nat := 0xFFFF_FFFF_FFFF_FFFF
  const MICROS_PER_SECOND := 1_000_000

  /** Addresses of timers; UINTPTR_MAX itself is never one. */
  type Addr = nat

  datatype Timer = Timer(expiration: int, interval: real, sequence: nat) {
    predicate Repeat() { interval > 0.0 }

    /** The timer after `Timer::restart(now)`. */
    function Restarted(now: int): Timer {
      if Repeat() then this.(expiration := AddTime(now, interval)) else this.(expiration := 0)
    }
  }

  function AddTime(now: int, seconds: real): int {
    now + (seconds * (MICROS_PER_SECOND as real)).Floor
  }

  /** d is that many seconds in whole microseconds, rounded down. */
  ghost predicate Micros(d: int, seconds: real) {
    d as real <= seconds * 1000000.0 < (d + 1) as real
  }

  /** A repeating timer is due again one interval after it was served. */
  lemma RestartedDue(t: Timer, now: int)
    requires t.interval > 0.0
    ensures var t' := t.Restarted(now);
            && Micros(t'.expiration - now, t.interval) && t'.expiration >= now
            && t'.interval == t.interval && t'.sequence == t.sequence
  {
    assert t.interval * (MICROS_PER_SECOND as real) >= 0.0;
  }

  /** Key of the index by identity, and the handle given to clients. */
  datatype Handle = Handle(timer: Addr, sequence: nat)

  /**
   * What happens while a callback runs: it adds and cancels timers; clock is
   * the time it reads.  Another thread may construct a timer meanwhile.
   */
  datatype Command =
    | Add(timer: Addr, when: int, interval: real, clock: int)
    | Cancel(id: Handle)
    | Construct(timer: Addr, when: int, interval: real)

  /** What can happen to the queue between polls. */
  datatype Event =
    | Post(timer: Addr, when: int, interval: real)
    | AddPosted(timer: Addr, clock: int)
    | CancelEvent(id: Handle)
    | Fire(now: int, scripts: seq<seq<Command>>, clock: int)

  predicate SaneScript(script: seq<Command>) {
    forall j :: 0 <= j < |script| ==>
      (script[j].Add? ==> script[j].clock > 0 && script[j].timer < UINTPTR_MAX)
      && (script[j].Construct? ==> script[j].timer < UINTPTR_MAX)
  }

  /** Clocks are past the epoch and the allocator never returns UINTPTR_MAX. */
  predicate Sane(scripts: seq<seq<Command>>) {
    forall i :: 0 <= i < |scripts| ==> SaneScript(scripts[i])
  }

  predicate Possible(e: Event) {
    match e
    case Post(a, _, _) => a < UINTPTR_MAX
    case AddPosted(_, clock) => clock > 0
    case CancelEvent(_) => true
    case Fire(now, scripts, clock) => now > 0 && clock > 0 && Sane(scripts)
  }

  // ---------------------------------------------------------- the table

  datatype Table = Table(
    last: nat,                   // the sequence number given last
    home: map<nat, Addr>,        // the address each timer was given
    live: map<nat, Timer>,
    posted: set<nat>,            // on their way to the loop
    flying: set<nat>,            // in the batch whose callbacks run
    marked: set<nat>,            // in the batch and cancelled
    cancelled: set<nat>,         // ever cancelled
    ran: set<nat>,               // ever run
    batch: nat)                  // how many batches there have been
  {
    ghost predicate Occupied(a: Addr) {
      exists s :: s in live && s in home && home[s] == a
    }

    /** The handle names a live timer that the loop has added. */
    predicate Names(id: Handle) {
      && id.sequence in live && id.sequence in home && home[id.sequence] == id.timer
      && id.sequence !in posted
    }

    /** Registered timers due at `now`. */
    ghost function Due(now: int): set<nat> {
      set s | s in live && s !in posted && live[s].expiration <= now
    }
  }

  /** A timer is constructed, if the allocator can return the address. */
  ghost function Constructed(t: Table, a: Addr, when: int, interval: real): Table {
    if t.Occupied(a) then t
    else
      var s := t.last + 1;
      t.(last := s, home := t.home[s := a], live := t.live[s := Timer(when, interval, s)], posted := t.posted + {s})
  }

  /** The timer posted from an address reaches the loop. */
  ghost function Entered(t: Table, a: Addr): Table {
    t.(posted := set s | s in t.posted && !(s in t.home && t.home[s] == a))
  }

  function Cancelled(t: Table, id: Handle): Table {
    if !t.Names(id) then t
    else if id.sequence in t.flying then
      t.(marked := t.marked + {id.sequence}, cancelled := t.cancelled + {id.sequence})
    else t.(live := t.live - {id.sequence}, cancelled := t.cancelled + {id.sequence})
  }

  ghost function Commanded(t: Table, c: Command): Table {
    match c
    case Add(a, when, interval, _) => if t.Occupied(a) then t else Entered(Constructed(t, a, when, interval), a)
    case Cancel(id) => Cancelled(t, id)
    case Construct(a, when, interval) => Constructed(t, a, when, interval)
  }

  ghost function Scripted(t: Table, script: seq<Command>): Table {
    if script == [] then t
    else Commanded(Scripted(t, script[..|script| - 1]), script[|script| - 1])
  }

  /** The first n callbacks of a batch; those without a script do nothing to the queue. */
  ghost function CalledBack(t: Table, scripts: seq<seq<Command>>, n: nat): Table {
    if n == 0 then t
    else
      var before := CalledBack(t, scripts, n - 1);
      if n <= |scripts| then Scripted(before, scripts[n - 1]) else before
  }

  ghost function Started(t: Table, now: int): Table {
    t.(flying := t.Due(now), marked := {}, batch := t.batch + 1)
  }

  /** The timers of the batch that repeat and were not cancelled are due again later; the others are gone. */
  ghost function Finished(t: Table, now: int): Table {
    t.(live := map s | s in t.live && (s in t.flying ==> t.live[s].Repeat() && s !in t.marked)
                  :: if s in t.flying then t.live[s].Restarted(now) else t.live[s],
       flying := {}, marked := {})
  }

  /** The batch has been extracted and its callbacks have run. */
  ghost function Called(t: Table, now: int, scripts: seq<seq<Command>>): Table {
    var started := Started(t, now);
    var called := CalledBack(started, scripts, |started.flying|);
    called.(ran := called.ran + started.flying)
  }

  ghost function Fired(t: Table, now: int, scripts: seq<seq<Command>>): Table {
    Finished(Called(t, now, scripts), now)
  }

  ghost function Happened(t: Table, e: Event): Table {
    match e
    case Post(a, when, interval) => Constructed(t, a, when, interval)
    case AddPosted(a, _) => Entered(t, a)
    case CancelEvent(id) => Cancelled(t, id)
    case Fire(now, scripts, _) => Fired(t, now, scripts)
  }

  ghost function Replay(t: Table, events: seq<Event>): Table {
    if events == [] then t else Happened(Replay(t, events[..|events| - 1]), events[|events| - 1])
  }

  // ------------------------------------------------- laws of the table

  ghost predicate Coherent(t: Table) {
    && (forall s :: s in t.home <==> 1 <= s <= t.last)
    && (forall s :: s in t.live ==> s in t.home)
    && (forall s :: s in t.posted ==> s in t.live)
    && (forall s :: s in t.flying ==> s in t.live && s !in t.posted)
    && (forall s :: s in t.cancelled ==> s in t.home && (s !in t.live || (s in t.flying && s in t.marked)))
    && (forall s :: s in t.marked ==> s in t.cancelled)
  }

  /** Numbers are never given twice; a timer that has gone stays gone, and went because it was cancelled. */
  ghost predicate Kept(t: Table, t': Table) {
    && t'.flying == t.flying && t'.ran == t.ran && t'.batch == t.batch && t.last <= t'.last
    && t.cancelled <= t'.cancelled
    && (forall s :: s in t.home ==> s in t'.home && t'.home[s] == t.home[s])
    && (forall s :: s in t.home && s !in t.live ==> s !in t'.live)
    && (forall s :: s in t.live && s !in t'.live ==> s in t'.cancelled)
    && (forall s :: s in t.live && s in t'.live ==> t'.live[s] == t.live[s] && (s in t'.posted ==> s in t.posted))
  }

  lemma KeptRefl(t: Table)
    ensures Kept(t, t)
  {
  }

  lemma KeptTrans(a: Table, b: Table, c: Table)
    requires Coherent(a) && Kept(a, b) && Kept(b, c)
    ensures Kept(a, c)
  {
  }

  lemma CommandKeeps(t: Table, c: Command)
    requires Coherent(t)
    ensures Coherent(Commanded(t, c)) && Kept(t, Commanded(t, c))
  {
  }

  /** A new timer, by this thread or another, if its address is free. */
  lemma ConstructedDoes(t: Table, a: Addr, when: int, interval: real)
    requires Coherent(t)
    ensures var t' := Constructed(t, a, when, interval);
            if t.Occupied(a) then t' == t
            else
              var s := t.last + 1;
              && s !in t.live && s !in t.cancelled && t'.last == s
              && s in t'.live && t'.live[s] == Timer(when, interval, s) && s in t'.home && t'.home[s] == a
              && s in t'.posted && !t'.Names(Handle(a, s))
              && t' == t.(last := s, home := t'.home, live := t'.live, posted := t'.posted)
              && t'.live - {s} == t.live && t'.posted - {s} == t.posted
  {
  }

  /** What was posted from an address is added, and nothing else changes. */
  lemma EnteredDoes(t: Table, a: Addr)
    ensures var t' := Entered(t, a);
            && t' == t.(posted := t'.posted) && t'.posted <= t.posted
            && (forall s :: s in t.posted ==> (s in t'.posted <==> !(s in t.home && t.home[s] == a)))
            && (forall s :: s in t.live && s in t.home && t.home[s] == a ==> t'.Names(Handle(a, s)))
  {
  }

  /** A handle ends the timer it names, at once or with the batch, and one that names none does nothing. */
  lemma CancelledDoes(t: Table, id: Handle)
    ensures var t' := Cancelled(t, id);
            if !t.Names(id) then t' == t
            else
              var s := id.sequence;
              && s in t'.cancelled && t'.cancelled - {s} == t.cancelled - {s}
              && t' == t.(live := t'.live, marked := t'.marked, cancelled := t'.cancelled)
              && (if s in t.flying then s in t'.marked && t'.live == t.live else s !in t'.live && t'.marked == t.marked)
              && t'.live - {s} == t.live - {s} && t'.marked - {s} == t.marked - {s}
  {
  }

  /** Each command and each event has the effect of its kind. */
  lemma CommandIs(t: Table, c: Command)
    ensures c.Add? ==> Commanded(t, c) == if t.Occupied(c.timer) then t
                                          else Entered(Constructed(t, c.timer, c.when, c.interval), c.timer)
    ensures c.Cancel? ==> Commanded(t, c) == Cancelled(t, c.id)
    ensures c.Construct? ==> Commanded(t, c) == Constructed(t, c.timer, c.when, c.interval)
  {
  }

  lemma EventIs(t: Table, e: Event)
    ensures e.Post? ==> Happened(t, e) == Constructed(t, e.timer, e.when, e.interval)
    ensures e.AddPosted? ==> Happened(t, e) == Entered(t, e.timer)
    ensures e.CancelEvent? ==> Happened(t, e) == Cancelled(t, e.id)
    ensures e.Fire? ==> Happened(t, e) == Fired(t, e.now, e.scripts)
  {
  }

  lemma CommandCancels(t: Table, c: Command)
    requires c.Cancel? && t.Names(c.id)
    ensures c.id.sequence in Commanded(t, c).cancelled
  {
  }

  lemma {:induction false} ScriptKeeps(t: Table, script: seq<Command>)
    requires Coherent(t)
    ensures Coherent(Scripted(t, script)) && Kept(t, Scripted(t, script))
  {
    if script != [] {
      hide Coherent, Commanded, Kept;
      var before := Scripted(t, script[..|script| - 1]);
      ScriptKeeps(t, script[..|script| - 1]);
      CommandKeeps(before, script[|script| - 1]);
      KeptTrans(t, before, Scripted(t, script));
    } else {
      KeptRefl(t);
    }
  }

  lemma NamesKept(t: Table, t': Table, id: Handle)
    requires Coherent(t) && Kept(t, t') && t.Names(id)
    ensures t'.Names(id) || id.sequence in t'.cancelled
  {
  }

  lemma CancelledKept(t: Table, t': Table)
    requires Kept(t, t')
    ensures t.cancelled <= t'.cancelled
  {
  }

  /** A callback that cancels a timer dooms it, whatever else the callback does. */
  lemma {:induction false} ScriptCancels(t: Table, script: seq<Command>, j: nat)
    requires Coherent(t) && j < |script| && script[j].Cancel? && t.Names(script[j].id)
    ensures script[j].id.sequence in Scripted(t, script).cancelled
    decreases |script|
  {
    hide Coherent, Kept, Scripted, Commanded;
    var front := script[..|script| - 1];
    var before := Scripted(t, front);
    ScriptEnds(t, script);
    ScriptStep(t, script, |front|);
    ScriptKeeps(t, front);
    CommandKeeps(before, script[|script| - 1]);
    CancelledKept(before, Scripted(t, script));
    NamesKept(t, before, script[j].id);
    if j < |front| {
      ScriptCancels(t, front, j);
    } else if before.Names(script[j].id) {
      CommandCancels(before, script[j]);
    }
  }

  lemma {:induction false} CallsKeep(t: Table, scripts: seq<seq<Command>>, n: nat)
    requires Coherent(t)
    ensures Coherent(CalledBack(t, scripts, n)) && Kept(t, CalledBack(t, scripts, n))
  {
    if n == 0 {
      KeptRefl(t);
    } else {
      hide Coherent, Kept, Scripted;
      CallsKeep(t, scripts, n - 1);
      if n <= |scripts| {
        var before := CalledBack(t, scripts, n - 1);
        ScriptKeeps(before, scripts[n - 1]);
        KeptTrans(t, before, CalledBack(t, scripts, n));
      }
    }
  }

  /** Script i of the first n cancels the timer. */
  lemma {:induction false} CallsCancel(t: Table, scripts: seq<seq<Command>>, n: nat, i: nat, j: nat)
    requires Coherent(t) && i < n && i < |scripts| && j < |scripts[i]|
    requires scripts[i][j].Cancel? && t.Names(scripts[i][j].id)
    ensures scripts[i][j].id.sequence in CalledBack(t, scripts, n).cancelled
    decreases n
  {
    var before := CalledBack(t, scripts, n - 1);
    var id := scripts[i][j].id;
    CallsKeep(t, scripts, n - 1);
    NamesKept(t, before, id);
    if n <= |scripts| {
      ScriptKeeps(before, scripts[n - 1]);
      CancelledKept(before, Scripted(before, scripts[n - 1]));
    }
    hide Coherent, Kept, Scripted;
    if i < n - 1 {
      CallsCancel(t, scripts, n - 1, i, j);
    } else if before.Names(id) {
      ScriptCancels(before, scripts[i], j);
    }
  }

  lemma StartCoherent(t: Table, now: int)
    requires Coherent(t) && t.flying == {}
    ensures Coherent(Started(t, now))
  {
  }

  lemma FinishCoherent(t: Table, now: int)
    requires Coherent(t)
    ensures Coherent(Finished(t, now))
  {
  }

  /** What one alarm does to every timer. */
  ghost predicate AlarmDid(t: Table, t': Table, now: int) {
    && t'.flying == {} && t.last <= t'.last && t.cancelled <= t'.cancelled
    && t'.ran == t.ran + t.Due(now) && t'.batch == t.batch + 1
    && (forall s :: s in t.home ==> s in t'.home && t'.home[s] == t.home[s])
    && (forall s :: s in t.home && s !in t.live ==> s !in t'.live)
    && (forall s :: s in t.Due(now) ==>
          (s in t'.live <==> t.live[s].Repeat() && s !in t'.cancelled)
          && (s in t'.live ==> t'.live[s] == t.live[s].Restarted(now) && s !in t'.posted))
    && (forall s :: s in t.live && s !in t.Due(now) ==>
          (s in t'.live <==> s !in t'.cancelled)
          && (s in t'.live ==> t'.live[s] == t.live[s] && (s in t'.posted ==> s in t.posted)))
  }

  /** Every due timer that repeats and was not cancelled is due again one interval later. */
  ghost predicate DueAgain(t: Table, t': Table, now: int) {
    forall s :: s in t.Due(now) && t.live[s].interval > 0.0 && s !in t'.cancelled ==>
      && s in t'.live && t'.live[s].interval == t.live[s].interval
      && Micros(t'.live[s].expiration - now, t.live[s].interval)
  }

  lemma FinishDid(t: Table, called: Table, now: int)
    requires Coherent(t) && t.flying == {} && Coherent(called) && Kept(Started(t, now), called)
    ensures AlarmDid(t, Finished(called.(ran := called.ran + t.Due(now)), now), now)
  {
  }

  lemma FinishedCoherent(t: Table, called: Table, now: int)
    requires Coherent(t) && Coherent(called) && Kept(Started(t, now), called)
    ensures Coherent(Finished(called.(ran := called.ran + t.Due(now)), now))
  {
    FinishCoherent(called.(ran := called.ran + t.Due(now)), now);
  }

  lemma FireSettles(t: Table, now: int, scripts: seq<seq<Command>>)
    requires Coherent(t) && t.flying == {}
    ensures Coherent(Fired(t, now, scripts)) && AlarmDid(t, Fired(t, now, scripts), now)
    ensures DueAgain(t, Fired(t, now, scripts), now)
  {
    var started := Started(t, now);
    StartCoherent(t, now);
    CallsKeep(started, scripts, |started.flying|);
    hide CalledBack, Coherent, AlarmDid, DueAgain, Finished, Kept;
    var called := CalledBack(started, scripts, |started.flying|);
    FinishDid(t, called, now);
    FinishedCoherent(t, called, now);
    DidRestart(t, Fired(t, now, scripts), now);
  }

  lemma DidRestart(t: Table, t': Table, now: int)
    requires AlarmDid(t, t', now)
    ensures DueAgain(t, t', now)
  {
    hide Micros;
    forall s | s in t.Due(now) && t.live[s].interval > 0.0 && s !in t'.cancelled
      ensures s in t'.live && t'.live[s].interval == t.live[s].interval
      ensures Micros(t'.live[s].expiration - now, t.live[s].interval)
    {
      RestartedDue(t.live[s], now);
    }
  }

  /** A timer that some callback of a batch cancels, be it its own, is gone after the batch. */
  lemma FireCancels(t: Table, now: int, scripts: seq<seq<Command>>, i: nat, j: nat)
    requires Coherent(t) && t.flying == {} && i < |t.Due(now)| && i < |scripts| && j < |scripts[i]|
    requires scripts[i][j].Cancel? && t.Names(scripts[i][j].id)
    ensures var s := scripts[i][j].id.sequence;
            s in Fired(t, now, scripts).cancelled && s !in Fired(t, now, scripts).live
  {
    var started := Started(t, now);
    StartCoherent(t, now);
    CallsCancel(started, scripts, |started.flying|, i, j);
    FireSettles(t, now, scripts);
    hide CalledBack;
  }

  /** Over any run: numbers are not given twice, and a timer that has gone is not run again. */
  ghost predicate Later(t: Table, t': Table) {
    && Coherent(t') && t'.flying == {} && t.last <= t'.last && t.cancelled <= t'.cancelled && t.ran <= t'.ran
    && (forall s :: s in t.home ==> s in t'.home && t'.home[s] == t.home[s])
    && (forall s :: s in t.home && s !in t.live ==> s !in t'.live && (s in t'.ran ==> s in t.ran))
    && (forall s :: s in t.live && s in t'.live ==> s in t'.posted ==> s in t.posted)
  }

  lemma LaterTrans(a: Table, b: Table, c: Table)
    requires Later(a, b) && Later(b, c) && Coherent(a)
    ensures Later(a, c)
  {
  }

  lemma KeptLater(t: Table, t': Table)
    requires Coherent(t) && t.flying == {} && Coherent(t') && Kept(t, t')
    ensures Later(t, t')
  {
  }

  lemma AlarmLater(t: Table, t': Table, now: int)
    requires Coherent(t) && Coherent(t') && AlarmDid(t, t', now)
    ensures Later(t, t')
  {
  }

  lemma EnteredKeeps(t: Table, a: Addr)
    requires Coherent(t)
    ensures Coherent(Entered(t, a)) && Kept(t, Entered(t, a))
  {
  }

  lemma EventLater(t: Table, e: Event)
    requires Coherent(t) && t.flying == {}
    ensures Later(t, Happened(t, e))
  {
    hide Coherent, Kept, AlarmDid, Later, Fired;
    match e {
      case Post(a, when, interval) =>
        CommandKeeps(t, Construct(a, when, interval));
        KeptLater(t, Constructed(t, a, when, interval));
      case AddPosted(a, _) =>
        EnteredKeeps(t, a);
        KeptLater(t, Entered(t, a));
      case CancelEvent(id) =>
        CommandKeeps(t, Cancel(id));
        KeptLater(t, Cancelled(t, id));
      case Fire(now, scripts, _) =>
        FireSettles(t, now, scripts);
        AlarmLater(t, Fired(t, now, scripts), now);
    }
  }

  lemma {:induction false} ReplayLater(t: Table, events: seq<Event>)
    requires Coherent(t) && t.flying == {}
    ensures Later(t, Replay(t, events))
  {
    if events != [] {
      hide Coherent, Later, Happened;
      var before := Replay(t, events[..|events| - 1]);
      ReplayLater(t, events[..|events| - 1]);
      LaterIsCoherent(t, before);
      EventLater(before, events[|events| - 1]);
      LaterTrans(t, before, Replay(t, events));
    }
  }

  lemma LaterIsCoherent(t: Table, t': Table)
    requires Later(t, t')
    ensures Coherent(t') && t'.flying == {}
  {
  }

  /** A cancellation between alarms ends the timer: it is gone, and not run after that. */
  lemma {:induction false} ReplayCancels(t: Table, events: seq<Event>, k: nat)
    requires Coherent(t) && t.flying == {} && k < |events| && events[k].CancelEvent? && t.Names(events[k].id)
    ensures events[k].id.sequence !in Replay(t, events).live
    ensures var s := events[k].id.sequence; s in Replay(t, events).ran ==> s in Replay(t, events[..k]).ran
    decreases |events|
  {
    var front := events[..|events| - 1];
    var before := Replay(t, front);
    ReplayLater(t, front);
    EventLater(before, events[|events| - 1]);
    hide Coherent;
    if k < |front| {
      assert front[..k] == events[..k];
      ReplayCancels(t, front, k);
      LaterIsCoherent(t, before);
      InHome(t, events[k].id.sequence);
    } else {
      assert front == events[..k];
    }
  }

  lemma InHome(t: Table, s: nat)
    requires Coherent(t) && s in t.live
    ensures s in t.home
  {
  }

  /** Which timers have run has no part in what commands do. */
  lemma {:induction false} RanApart(t: Table, ran: set<nat>, script: seq<Command>)
    ensures Scripted(t.(ran := ran), script) == Scripted(t, script).(ran := ran)
  {
    if script != [] {
      RanApart(t, ran, script[..|script| - 1]);
      var before := Scripted(t, script[..|script| - 1]);
      assert forall a :: before.(ran := ran).Occupied(a) <==> before.Occupied(a);
    }
  }

  lemma ScriptEnds(t: Table, script: seq<Command>)
    ensures Scripted(t, script[..0]) == t && script[..|script|] == script
  {
  }

  /** A script, one command further. */
  lemma ScriptStep(t: Table, script: seq<Command>, i: nat)
    requires i < |script|
    ensures Scripted(t, script[..i + 1]) == Commanded(Scripted(t, script[..i]), script[i])
  {
    assert script[..i + 1][..i] == script[..i];
  }

  lemma CalledNone(t: Table, scripts: seq<seq<Command>>)
    ensures CalledBack(t, scripts, 0) == t && t == t.(ran := t.ran)
  {
  }

  /** One callback further; the script is empty for those without one. */
  lemma CalledStep(t: Table, scripts: seq<seq<Command>>, i: nat, ran: set<nat>, script: seq<Command>)
    requires script == if i < |scripts| then scripts[i] else []
    ensures CalledBack(t, scripts, i + 1).(ran := ran) == Scripted(CalledBack(t, scripts, i).(ran := ran), script)
  {
    RanApart(CalledBack(t, scripts, i), ran, script);
  }

  lemma CalledIs(t: Table, now: int, scripts: seq<seq<Command>>, n: nat, ran: set<nat>)
    requires Coherent(t) && t.flying == {} && n == |t.Due(now)| && ran == t.ran + t.Due(now)
    ensures CalledBack(Started(t, now), scripts, n).(ran := ran) == Called(t, now, scripts)
  {
    StartCoherent(t, now);
    CallsKeep(Started(t, now), scripts, n);
    hide CalledBack, Finished, Coherent;
  }

  lemma ReplayEnds(t: Table, events: seq<Event>)
    ensures Replay(t, events[..0]) == t && events[..|events|] == events
  {
  }

  /** A run, one event further. */
  lemma ReplayStep(t: Table, events: seq<Event>, i: nat)
    requires i < |events|
    ensures Replay(t, events[..i + 1]) == Happened(Replay(t, events[..i]), events[i])
  {
    assert events[..i + 1][..i] == events[..i];
  }
}
