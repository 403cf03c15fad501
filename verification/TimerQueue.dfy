/**
 * The timer queue of an event loop: two indexes over one heap of timers, a
 * one-shot alarm, and batches of expired timers whose callbacks may add and
 * cancel timers while the batch is in flight.
 *
 * Addresses are reused after a free; only the sequence number tells two timers
 * at one address apart.  Times are microseconds since the epoch.
 */
module TimerQueue {

  import opened TimerTable

  const MIN_DELAY := 100

  /** Key of the index by expiration; the sentry of a search carries UINTPTR_MAX. */
  datatype Entry = Entry(when: int, timer: nat)

  /** State of the timerfd: the deadline it was given and the clock at that moment. */
  datatype Alarm = Disarmed | Armed(deadline: int, at: int)

  datatype TimeSpec = TimeSpec(sec: int, nsec: int)

  /** One run of a callback, in the batch with this number. */
  datatype Run = Run(sequence: nat, batch: nat)

  function Max(a: int, b: int): int { if a < b then b else a }

  // ---------------------------------------------------------------- arming

  /** `howMuchTimeFromNow`: never zero, which would disarm the timerfd. */
  function HowMuchTimeFromNow(when: int, now: int): (ts: TimeSpec)
    ensures 0 <= ts.sec && 0 <= ts.nsec < 1_000_000_000 && ts != TimeSpec(0, 0)
    ensures ts.sec * 1_000_000_000 + ts.nsec == 1000 * Max(when - now, 100)
  {
    var us := when - now;
    var us := if us < MIN_DELAY then MIN_DELAY else us;
    TimeSpec(us / MICROS_PER_SECOND, (us % MICROS_PER_SECOND) * 1000)
  }

  /** `timerfd_settime` with a relative time. */
  function SetTime(ts: TimeSpec, now: int): Alarm {
    Armed(now + ts.sec * MICROS_PER_SECOND + ts.nsec / 1000, now)
  }

  /** An alarm that fires no later than `earliest`, or MIN_DELAY after it was armed. */
  predicate InTime(alarm: Alarm, earliest: int) {
    alarm.Armed? && alarm.at > 0 && alarm.deadline <= Max(earliest, alarm.at + MIN_DELAY)
  }

  // ------------------------------------------------- the ordered index

  predicate Less(a: Entry, b: Entry) {
    a.when < b.when || (a.when == b.when && a.timer < b.timer)
  }

  ghost predicate Sorted(s: seq<Entry>) {
    forall i, j :: 0 <= i < j < |s| ==> Less(s[i], s[j])
  }

  /** Position of the first entry that is not less than e. */
  function LowerBound(s: seq<Entry>, e: Entry): (k: nat)
    requires Sorted(s)
    ensures k <= |s|
    ensures forall i :: 0 <= i < k ==> Less(s[i], e)
    ensures forall i :: k <= i < |s| ==> !Less(s[i], e)
  {
    if s == [] || !Less(s[|s| - 1], e) then
      if s == [] then 0 else LowerBound(s[..|s| - 1], e)
    else
      |s|
  }

  function Inserted(s: seq<Entry>, e: Entry): seq<Entry>
    requires Sorted(s)
  {
    var k := LowerBound(s, e);
    s[..k] + [e] + s[k..]
  }

  function Erased(s: seq<Entry>, e: Entry): seq<Entry>
    requires Sorted(s)
  {
    var k := LowerBound(s, e);
    if k < |s| && s[k] == e then s[..k] + s[k + 1..] else s
  }

  lemma InsertedSorted(s: seq<Entry>, e: Entry)
    requires Sorted(s) && e !in s
    ensures Sorted(Inserted(s, e)) && |Inserted(s, e)| == |s| + 1
    ensures Inserted(s, e)[0] == if s == [] || Less(e, s[0]) then e else s[0]
    ensures forall x :: x in Inserted(s, e) <==> x in s || x == e
  {
    var k := LowerBound(s, e);
    var r := Inserted(s, e);
    assert forall i :: 0 <= i < k ==> r[i] == s[i];
    assert forall i :: k < i < |r| ==> r[i] == s[i - 1];
    forall i | k <= i < |s| ensures Less(e, s[i]) {
      assert s[i] != e;
    }
    InsertMembers(s, k, e);
  }

  lemma InsertMembers(s: seq<Entry>, k: nat, e: Entry)
    requires k <= |s|
    ensures forall x :: x in s[..k] + [e] + s[k..] <==> x in s || x == e
  {
    assert s == s[..k] + s[k..];
  }

  lemma FoundAt(s: seq<Entry>, e: Entry)
    requires Sorted(s) && e in s
    ensures LowerBound(s, e) < |s| && s[LowerBound(s, e)] == e
  {
    var k := LowerBound(s, e);
    var i :| 0 <= i < |s| && s[i] == e;
    assert !Less(s[k], s[i]);
  }

  lemma ErasedSorted(s: seq<Entry>, e: Entry)
    requires Sorted(s) && e in s
    ensures Sorted(Erased(s, e)) && |Erased(s, e)| == |s| - 1
    ensures forall x :: x in Erased(s, e) <==> x in s && x != e
    ensures Erased(s, e) != [] ==> s[0].when <= Erased(s, e)[0].when
  {
    var k := LowerBound(s, e);
    FoundAt(s, e);
    var r := Erased(s, e);
    assert forall j :: 0 <= j < k ==> r[j] == s[j];
    assert forall j :: k <= j < |r| ==> r[j] == s[j + 1];
    assert s == s[..k] + [e] + s[k + 1..];
  }

  // ------------------------------------------------------- consistency

  /** Both indexes describe the same live timers. */
  ghost predicate Indexes(heap: map<Addr, Timer>, timers: seq<Entry>, active: set<Handle>) {
    && Sorted(timers)
    && |timers| == |active|
    && (forall h :: h in active ==>
          h.timer in heap && heap[h.timer].sequence == h.sequence
          && Entry(heap[h.timer].expiration, h.timer) in timers)
    && (forall e :: e in timers ==>
          e.timer < UINTPTR_MAX && e.timer in heap && heap[e.timer].expiration == e.when
          && Handle(e.timer, heap[e.timer].sequence) in active)
  }

  /**
   * Every timer ever constructed is either live, at the address it was given,
   * or freed; so none is freed twice and no sequence number is shared.
   */
  ghost predicate Ledger(heap: map<Addr, Timer>, home: map<nat, Addr>, freed: set<nat>, created: nat) {
    && (forall s :: s in home <==> 1 <= s <= created)
    && (forall s :: s in freed ==> s in home)
    && (forall s :: s in home && s !in freed ==> home[s] in heap && heap[home[s]].sequence == s)
    && (forall a :: a in heap ==> a < UINTPTR_MAX && heap[a].sequence in home && home[heap[a].sequence] == a
                                  && heap[a].sequence !in freed)
  }

  /** A live timer is registered, in flight, or still on its way to the loop: one of the three. */
  ghost predicate Owners(heap: map<Addr, Timer>, active: set<Handle>, flight: set<Addr>, posted: set<Addr>) {
    && (forall a :: a in heap ==>
          || Handle(a, heap[a].sequence) in active || a in flight || a in posted)
    && (forall a :: a in flight ==> a in heap && Handle(a, heap[a].sequence) !in active && a !in posted)
    && (forall a :: a in posted ==> a in heap && Handle(a, heap[a].sequence) !in active)
  }

  /**
   * A cancelled timer has been freed, or it is in flight in the batch in which
   * it was cancelled and marked so that the end of the batch frees it.
   */
  ghost predicate CancelsHold(cancelledAt: map<nat, nat>, home: map<nat, Addr>, freed: set<nat>,
                              flight: set<Addr>, canceling: set<Handle>, batch: nat,
                              runs: seq<Run>) {
    && (forall s :: s in cancelledAt ==> s in home && cancelledAt[s] <= batch)
    && (forall s :: s in cancelledAt && s !in freed ==>
          cancelledAt[s] == batch && home[s] in flight && Handle(home[s], s) in canceling)
    && (forall s :: s in home && s !in freed && home[s] in flight && Handle(home[s], s) in canceling ==>
          s in cancelledAt)
    && (forall i :: 0 <= i < |runs| ==>
          runs[i].batch <= batch
          && (runs[i].sequence in cancelledAt ==> runs[i].batch <= cancelledAt[runs[i].sequence]))
  }

  ghost predicate Ran(runs: seq<Run>, s: nat) {
    exists i :: 0 <= i < |runs| && runs[i].sequence == s
  }

  /** A timer is freed only when it has been cancelled, or has run and does not repeat. */
  ghost predicate Justified(freed: set<nat>, cancelledAt: map<nat, nat>, repeating: set<nat>, runs: seq<Run>) {
    forall s :: s in freed ==> s in cancelledAt || (s !in repeating && Ran(runs, s))
  }

  /** The sequence numbers of the timers constructed to repeat. */
  ghost predicate Kinds(heap: map<Addr, Timer>, repeating: set<nat>, created: nat) {
    && (forall a :: a in heap ==> (heap[a].Repeat() <==> heap[a].sequence in repeating) && heap[a].sequence <= created)
    && (forall s :: s in repeating ==> s <= created)
  }

  /** Outside `except`, what is live now was live then and unchanged, or is newer. */
  ghost predicate Preserved(before: map<Addr, Timer>, after: map<Addr, Timer>, created: nat, except: set<Addr>) {
    forall a :: a in after && a !in except ==>
      (a in before && after[a] == before[a]) || after[a].sequence > created
  }

  /** What commands and callbacks leave alone: older timers, those in flight, and what has been decided. */
  ghost predicate Grew(heap: map<Addr, Timer>, heap': map<Addr, Timer>, created: nat, created': nat, flight: set<Addr>,
                       cancelledAt: map<nat, nat>, cancelledAt': map<nat, nat>, freed: set<nat>, freed': set<nat>) {
    && created <= created' && Preserved(heap, heap', created, {})
    && (forall a :: a in flight && a in heap ==> a in heap' && heap'[a] == heap[a])
    && (forall s :: s in cancelledAt ==> s in cancelledAt')
    && freed <= freed'
  }

  lemma GrewNot(heap: map<Addr, Timer>, created: nat, flight: set<Addr>, cancelledAt: map<nat, nat>, freed: set<nat>)
    ensures Grew(heap, heap, created, created, flight, cancelledAt, cancelledAt, freed, freed)
  {
  }

  lemma GrewNew(heap: map<Addr, Timer>, a: Addr, t: Timer, created: nat, flight: set<Addr>,
                cancelledAt: map<nat, nat>, freed: set<nat>)
    requires a !in heap && t.sequence == created + 1
    ensures Grew(heap, heap[a := t], created, created + 1, flight, cancelledAt, cancelledAt, freed, freed)
  {
  }

  lemma GrewFreed(heap: map<Addr, Timer>, a: Addr, created: nat, flight: set<Addr>,
                  cancelledAt: map<nat, nat>, cancelledAt': map<nat, nat>, freed: set<nat>, s: nat)
    requires a !in flight && forall x :: x in cancelledAt ==> x in cancelledAt'
    ensures Grew(heap, heap - {a}, created, created, flight, cancelledAt, cancelledAt', freed, freed + {s})
  {
  }

  lemma GrewMarked(heap: map<Addr, Timer>, created: nat, flight: set<Addr>,
                   cancelledAt: map<nat, nat>, cancelledAt': map<nat, nat>, freed: set<nat>)
    requires forall x :: x in cancelledAt ==> x in cancelledAt'
    ensures Grew(heap, heap, created, created, flight, cancelledAt, cancelledAt', freed, freed)
  {
  }

  lemma GrewTrans(a: map<Addr, Timer>, b: map<Addr, Timer>, c: map<Addr, Timer>, created: nat, created': nat,
                  created'': nat, flight: set<Addr>, cancelledAt: map<nat, nat>, cancelledAt': map<nat, nat>,
                  cancelledAt'': map<nat, nat>, freed: set<nat>, freed': set<nat>, freed'': set<nat>)
    requires Grew(a, b, created, created', flight, cancelledAt, cancelledAt', freed, freed')
    requires Grew(b, c, created', created'', flight, cancelledAt', cancelledAt'', freed', freed'')
    ensures Grew(a, c, created, created'', flight, cancelledAt, cancelledAt'', freed, freed'')
  {
  }

  lemma NewKind(heap: map<Addr, Timer>, repeating: set<nat>, created: nat, a: Addr, t: Timer)
    requires Kinds(heap, repeating, created) && t.sequence == created + 1
    ensures Kinds(heap[a := t], if t.Repeat() then repeating + {t.sequence} else repeating, created + 1)
  {
  }

  /** New sequence numbers are not those of freed timers. */
  lemma NewKindJustified(freed: set<nat>, cancelledAt: map<nat, nat>, repeating: set<nat>, runs: seq<Run>, s: nat)
    requires Justified(freed, cancelledAt, repeating, runs) && s !in freed
    ensures Justified(freed, cancelledAt, repeating + {s}, runs)
  {
  }

  lemma KindAt(heap: map<Addr, Timer>, repeating: set<nat>, created: nat, a: Addr)
    requires Kinds(heap, repeating, created) && a in heap
    ensures heap[a].Repeat() <==> heap[a].sequence in repeating
  {
  }

  lemma FreedKind(heap: map<Addr, Timer>, repeating: set<nat>, created: nat, a: Addr)
    requires Kinds(heap, repeating, created)
    ensures Kinds(heap - {a}, repeating, created)
  {
  }

  lemma RestartedKind(heap: map<Addr, Timer>, repeating: set<nat>, created: nat, a: Addr, now: int)
    requires Kinds(heap, repeating, created) && a in heap
    ensures Kinds(heap[a := heap[a].Restarted(now)], repeating, created)
  {
  }

  /** Cancelling, and freeing for a reason. */
  lemma FreeJustified(freed: set<nat>, cancelledAt: map<nat, nat>, cancelledAt': map<nat, nat>, repeating: set<nat>,
                      runs: seq<Run>, s: nat)
    requires Justified(freed, cancelledAt, repeating, runs)
    requires forall x :: x in cancelledAt ==> x in cancelledAt'
    requires s in cancelledAt' || (s !in repeating && Ran(runs, s))
    ensures Justified(freed + {s}, cancelledAt', repeating, runs) && Justified(freed, cancelledAt', repeating, runs)
  {
  }

  lemma RunJustified(freed: set<nat>, cancelledAt: map<nat, nat>, repeating: set<nat>, runs: seq<Run>, r: Run)
    requires Justified(freed, cancelledAt, repeating, runs)
    ensures Justified(freed, cancelledAt, repeating, runs + [r])
  {
    forall s | s in freed && s !in cancelledAt ensures s !in repeating && Ran(runs + [r], s) {
      var i :| 0 <= i < |runs| && runs[i].sequence == s;
      assert (runs + [r])[i].sequence == s;
    }
  }

  /** Every timer of a batch has run once the batch has. */
  lemma BatchRan(runs: seq<Run>, heap: map<Addr, Timer>, due: seq<Entry>, batch: nat)
    requires forall i :: 0 <= i < |due| ==> due[i].timer in heap
    ensures forall i :: 0 <= i < |due| ==> Ran(runs + RunsOf(heap, due, batch), heap[due[i].timer].sequence)
  {
    forall i | 0 <= i < |due| ensures Ran(runs + RunsOf(heap, due, batch), heap[due[i].timer].sequence) {
      assert (runs + RunsOf(heap, due, batch))[|runs| + i] == RunsOf(heap, due, batch)[i];
    }
  }

  lemma RegisterKeeps(heap: map<Addr, Timer>, timers: seq<Entry>, active: set<Handle>, a: Addr)
    requires Indexes(heap, timers, active)
    requires a in heap && a < UINTPTR_MAX && Handle(a, heap[a].sequence) !in active
    ensures Entry(heap[a].expiration, a) !in timers
    ensures Indexes(heap, Inserted(timers, Entry(heap[a].expiration, a)), active + {Handle(a, heap[a].sequence)})
  {
    InsertedSorted(timers, Entry(heap[a].expiration, a));
  }

  lemma ConstructKeeps(heap: map<Addr, Timer>, timers: seq<Entry>, active: set<Handle>,
                       home: map<nat, Addr>, freed: set<nat>, created: nat,
                       flight: set<Addr>, posted: set<Addr>, a: Addr, t: Timer)
    requires Indexes(heap, timers, active) && Ledger(heap, home, freed, created)
    requires Owners(heap, active, flight, posted)
    requires a !in heap && a < UINTPTR_MAX && t.sequence == created + 1
    ensures Indexes(heap[a := t], timers, active) && Ledger(heap[a := t], home[t.sequence := a], freed, created + 1)
    ensures Owners(heap[a := t], active, flight, posted + {a})
    ensures t.sequence !in home && t.sequence !in freed && a !in flight
  {
  }

  lemma NewHomeKeepsCancels(cancelledAt: map<nat, nat>, home: map<nat, Addr>, freed: set<nat>,
                            flight: set<Addr>, canceling: set<Handle>, batch: nat,
                            runs: seq<Run>, s: nat, a: Addr)
    requires CancelsHold(cancelledAt, home, freed, flight, canceling, batch, runs)
    requires s !in home && a !in flight
    ensures CancelsHold(cancelledAt, home[s := a], freed, flight, canceling, batch, runs)
  {
  }

  lemma RegisterOwners(heap: map<Addr, Timer>, active: set<Handle>, home: map<nat, Addr>, freed: set<nat>,
                       created: nat, flight: set<Addr>, posted: set<Addr>, a: Addr)
    requires Ledger(heap, home, freed, created) && Owners(heap, active, flight, posted) && a in posted
    ensures a in heap && a < UINTPTR_MAX && Handle(a, heap[a].sequence) !in active
    ensures Owners(heap, active + {Handle(a, heap[a].sequence)}, flight, posted - {a})
  {
  }

  /** An unregistered handle is in flight exactly when it names a live timer the loop has added. */
  lemma LiveHandle(heap: map<Addr, Timer>, active: set<Handle>, home: map<nat, Addr>, freed: set<nat>,
                   created: nat, flight: set<Addr>, posted: set<Addr>, h: Handle)
    requires Ledger(heap, home, freed, created) && Owners(heap, active, flight, posted) && h !in active
    ensures h.timer in heap && heap[h.timer].sequence == h.sequence && h.timer !in posted <==>
            h.sequence in home && home[h.sequence] == h.timer && h.sequence !in freed && h.timer in flight
  {
  }

  lemma UnregisterIndexes(heap: map<Addr, Timer>, timers: seq<Entry>, active: set<Handle>, h: Handle)
    requires Indexes(heap, timers, active) && h in active
    ensures h.timer in heap && heap[h.timer].sequence == h.sequence
    ensures Sorted(timers) && Entry(heap[h.timer].expiration, h.timer) in timers
    ensures var timers' := Erased(timers, Entry(heap[h.timer].expiration, h.timer));
            && Indexes(heap - {h.timer}, timers', active - {h})
            && (timers' != [] ==> timers[0].when <= timers'[0].when)
  {
    hide Erased, Sorted;
    var e := Entry(heap[h.timer].expiration, h.timer);
    ErasedSorted(timers, e);
    var timers' := Erased(timers, e);
    assert forall x :: x in timers' ==> x in timers && x.timer != h.timer;
    assert forall g :: g in active - {h} ==> g.timer != h.timer;
  }

  lemma UnregisterOwners(heap: map<Addr, Timer>, active: set<Handle>, home: map<nat, Addr>, freed: set<nat>,
                         created: nat, flight: set<Addr>, posted: set<Addr>, h: Handle)
    requires Ledger(heap, home, freed, created) && Owners(heap, active, flight, posted) && h in active
    requires h.timer in heap && heap[h.timer].sequence == h.sequence
    ensures h.timer !in posted && h.timer !in flight
    ensures h.sequence in home && home[h.sequence] == h.timer && h.sequence !in freed
    ensures Ledger(heap - {h.timer}, home, freed + {h.sequence}, created)
    ensures Owners(heap - {h.timer}, active - {h}, flight, posted)
  {
  }

  /** Cancelling a registered timer frees it; cancelling one in flight marks it. */
  lemma CancelKeeps(cancelledAt: map<nat, nat>, home: map<nat, Addr>, freed: set<nat>, flight: set<Addr>,
                    canceling: set<Handle>, batch: nat, runs: seq<Run>, h: Handle, freed': set<nat>)
    requires CancelsHold(cancelledAt, home, freed, flight, canceling, batch, runs)
    requires h.sequence in home && home[h.sequence] == h.timer
    requires freed' == freed || freed' == freed + {h.sequence}
    requires h.sequence in freed' || h.timer in flight
    ensures var cancelledAt' := if h.sequence in cancelledAt then cancelledAt else cancelledAt[h.sequence := batch];
            CancelsHold(cancelledAt', home, freed', flight,
                        if h.sequence in freed' then canceling else canceling + {h}, batch, runs)
  {
  }

  /** A handle that names no timer in flight may be marked without effect. */
  lemma StaleCancelKeeps(cancelledAt: map<nat, nat>, home: map<nat, Addr>, freed: set<nat>, flight: set<Addr>,
                         canceling: set<Handle>, batch: nat, runs: seq<Run>, h: Handle)
    requires CancelsHold(cancelledAt, home, freed, flight, canceling, batch, runs)
    requires h.sequence in home && h.sequence !in freed && home[h.sequence] in flight ==> home[h.sequence] != h.timer
    ensures CancelsHold(cancelledAt, home, freed, flight, canceling + {h}, batch, runs)
  {
  }

  /** Moving the first registered timer into flight. */
  lemma ExtractKeeps(heap: map<Addr, Timer>, timers: seq<Entry>, active: set<Handle>,
                     flight: set<Addr>, posted: set<Addr>, h: Handle)
    requires Indexes(heap, timers, active) && Owners(heap, active, flight, posted) && timers != []
    requires h.timer == timers[0].timer && h.timer in heap && h.sequence == heap[h.timer].sequence
    ensures h in active
    ensures Indexes(heap, timers[1..], active - {h})
    ensures Owners(heap, active - {h}, flight + {h.timer}, posted)
  {
    var rest := timers[1..];
    assert timers[0] in timers;
    assert forall e :: e in rest ==> e in timers;
    forall e | e in rest ensures e.timer != h.timer {
      var i :| 0 <= i < |rest| && rest[i] == e;
      assert Less(timers[0], timers[i + 1]);
    }
    forall g | g in active - {h} ensures Entry(heap[g.timer].expiration, g.timer) in rest {
      assert Entry(heap[g.timer].expiration, g.timer) in timers;
      assert timers == [timers[0]] + rest;
    }
  }

  function TimersOf(s: seq<Entry>): set<Addr> {
    set e | e in s :: e.timer
  }

  /** The search for (now, UINTPTR_MAX) splits the index after the last timer due at `now`. */
  lemma SplitDue(heap: map<Addr, Timer>, timers: seq<Entry>, active: set<Handle>, now: int)
    requires Indexes(heap, timers, active)
    ensures Sorted(timers)
    ensures var k := LowerBound(timers, Entry(now, UINTPTR_MAX));
            && Due(timers, now) == timers[..k]
            && (forall i :: 0 <= i < k ==> timers[i].when <= now)
            && (forall i :: k <= i < |timers| ==> now < timers[i].when)
  {
    var k := LowerBound(timers, Entry(now, UINTPTR_MAX));
    forall i | k <= i < |timers| ensures now < timers[i].when {
      assert timers[i] in timers;
    }
    DueIsPrefix(timers, now, k);
  }

  lemma DistinctTimers(heap: map<Addr, Timer>, timers: seq<Entry>, active: set<Handle>)
    requires Indexes(heap, timers, active)
    ensures forall i, j :: 0 <= i < j < |timers| ==> timers[i].timer != timers[j].timer
  {
    forall i, j | 0 <= i < j < |timers| ensures timers[i].timer != timers[j].timer {
      assert Less(timers[i], timers[j]);
      assert timers[i] in timers && timers[j] in timers;
    }
  }

  /** With nothing in flight every cancelled timer is freed, so a new batch starts clean. */
  lemma BatchStarts(cancelledAt: map<nat, nat>, home: map<nat, Addr>, freed: set<nat>, canceling: set<Handle>,
                    batch: nat, runs: seq<Run>, flight: set<Addr>)
    requires CancelsHold(cancelledAt, home, freed, {}, canceling, batch, runs)
    ensures forall s :: s in cancelledAt ==> s in freed
    ensures CancelsHold(cancelledAt, home, freed, flight, {}, batch + 1, runs)
  {
  }

  lemma FirstIsLive(heap: map<Addr, Timer>, timers: seq<Entry>, active: set<Handle>)
    requires Indexes(heap, timers, active) && timers != []
    ensures timers[0].timer in heap && heap[timers[0].timer].expiration == timers[0].when
  {
    assert timers[0] in timers;
  }

  lemma TimersOfSnoc(s: seq<Entry>, i: nat)
    requires i < |s|
    ensures TimersOf(s[..i + 1]) == TimersOf(s[..i]) + {s[i].timer}
  {
    assert s[..i + 1] == s[..i] + [s[i]];
  }

  lemma RestLater(all: seq<Entry>, k: nat, rest: seq<Entry>, now: int)
    requires k <= |all| && rest == all[k..] && forall i :: 0 <= i < |rest| ==> now < rest[i].when
    ensures forall i :: k <= i < |all| ==> now < all[i].when
  {
    forall i | k <= i < |all| ensures now < all[i].when {
      assert rest[i - k] == all[i];
    }
  }

  lemma TakeDrop(s: seq<Entry>, k: nat)
    requires k <= |s|
    ensures s[..k] + s[k..] == s
  {
  }

  /** A repeating timer that was not cancelled goes back into the indexes at its next expiration. */
  lemma RestartKeeps(heap: map<Addr, Timer>, timers: seq<Entry>, active: set<Handle>, home: map<nat, Addr>,
                     freed: set<nat>, created: nat, flight: set<Addr>, posted: set<Addr>, a: Addr, now: int)
    requires Indexes(heap, timers, active) && Ledger(heap, home, freed, created)
    requires Owners(heap, active, flight, posted) && a in flight
    ensures a in heap && a < UINTPTR_MAX && Handle(a, heap[a].sequence) !in active
    ensures var heap' := heap[a := heap[a].Restarted(now)];
            && Indexes(heap', timers, active) && Ledger(heap', home, freed, created)
            && Owners(heap', active + {Handle(a, heap[a].sequence)}, flight - {a}, posted)
  {
  }

  /** Any other timer of the batch is freed. */
  lemma FreeKeeps(heap: map<Addr, Timer>, timers: seq<Entry>, active: set<Handle>, home: map<nat, Addr>,
                  freed: set<nat>, created: nat, flight: set<Addr>, posted: set<Addr>, a: Addr)
    requires Indexes(heap, timers, active) && Ledger(heap, home, freed, created)
    requires Owners(heap, active, flight, posted) && a in flight
    ensures a in heap && heap[a].sequence !in freed
    ensures Indexes(heap - {a}, timers, active) && Ledger(heap - {a}, home, freed + {heap[a].sequence}, created)
    ensures Owners(heap - {a}, active, flight - {a}, posted)
  {
  }

  lemma LandKeeps(cancelledAt: map<nat, nat>, home: map<nat, Addr>, freed: set<nat>, flight: set<Addr>,
                  canceling: set<Handle>, batch: nat, runs: seq<Run>, h: Handle, freed': set<nat>)
    requires CancelsHold(cancelledAt, home, freed, flight, canceling, batch, runs)
    requires h.sequence in home && home[h.sequence] == h.timer
    requires forall s :: s in home && s !in freed && s != h.sequence ==> home[s] != h.timer
    requires freed' == freed + {h.sequence} || (freed' == freed && h !in canceling)
    ensures CancelsHold(cancelledAt, home, freed', flight - {h.timer}, canceling, batch, runs)
  {
  }

  /** In flight, being marked and being cancelled are the same. */
  lemma MarkedIsCancelled(cancelledAt: map<nat, nat>, home: map<nat, Addr>, freed: set<nat>, flight: set<Addr>,
                          canceling: set<Handle>, batch: nat, runs: seq<Run>, h: Handle)
    requires CancelsHold(cancelledAt, home, freed, flight, canceling, batch, runs)
    requires h.sequence in home && home[h.sequence] == h.timer && h.sequence !in freed && h.timer in flight
    ensures h in canceling <==> h.sequence in cancelledAt
  {
  }

  /** The entries due at `now`: the longest prefix of expirations up to it. */
  function Due(timers: seq<Entry>, now: int): seq<Entry> {
    if timers == [] || now < timers[0].when then [] else [timers[0]] + Due(timers[1..], now)
  }

  lemma {:induction false} DueIsPrefix(timers: seq<Entry>, now: int, k: nat)
    requires k <= |timers|
    requires forall i :: 0 <= i < k ==> timers[i].when <= now
    requires k < |timers| ==> now < timers[k].when
    ensures Due(timers, now) == timers[..k]
  {
    if k > 0 {
      DueIsPrefix(timers[1..], now, k - 1);
      assert timers[..k] == [timers[0]] + timers[1..][..k - 1];
    }
  }

  /** One run, in order, of each timer of a batch. */
  function RunsOf(heap: map<Addr, Timer>, due: seq<Entry>, batch: nat): (r: seq<Run>)
    ensures |r| == |due|
    ensures forall i :: 0 <= i < |due| && due[i].timer in heap ==> r[i] == Run(heap[due[i].timer].sequence, batch)
  {
    seq(|due|, i requires 0 <= i < |due| => Run(NumberAt(heap, due[i].timer), batch))
  }

  function NumberAt(heap: map<Addr, Timer>, a: Addr): nat { if a in heap then heap[a].sequence else 0 }

  /** Recording the run of a timer in flight. */
  lemma RunKeeps(cancelledAt: map<nat, nat>, home: map<nat, Addr>, freed: set<nat>, flight: set<Addr>,
                 canceling: set<Handle>, batch: nat, runs: seq<Run>, s: nat)
    requires CancelsHold(cancelledAt, home, freed, flight, canceling, batch, runs)
    requires s !in freed
    ensures CancelsHold(cancelledAt, home, freed, flight, canceling, batch, runs + [Run(s, batch)])
  {
  }

  /** What becomes of a timer after the batch that ran it. */
  ghost predicate Settled(t: Timer, a: Addr, now: int, kept: bool,
                          heap: map<Addr, Timer>, active: set<Handle>, freed: set<nat>) {
    if t.Repeat() && kept then
      a in heap && heap[a] == t.Restarted(now) && Handle(a, t.sequence) in active
    else
      t.sequence in freed
  }

  lemma LedgerAt(heap: map<Addr, Timer>, active: set<Handle>, home: map<nat, Addr>, freed: set<nat>,
                 created: nat, flight: set<Addr>, posted: set<Addr>, a: Addr)
    requires Ledger(heap, home, freed, created) && Owners(heap, active, flight, posted) && a in flight
    ensures a in heap && heap[a].sequence in home && home[heap[a].sequence] == a && heap[a].sequence !in freed
    ensures forall s :: s in home && s !in freed && s != heap[a].sequence ==> home[s] != a
  {
  }

  /** What ran since was not cancelled before. */
  ghost predicate NotCancelled(runs: seq<Run>, runs': seq<Run>, cancelledAt: map<nat, nat>) {
    forall i :: |runs| <= i < |runs'| ==> runs'[i].sequence !in cancelledAt
  }

  /** Runs are only added, of timers not cancelled before; what is cancelled or freed stays so. */
  ghost predicate Logged(runs: seq<Run>, runs': seq<Run>, cancelledAt: map<nat, nat>, cancelledAt': map<nat, nat>,
                         freed: set<nat>, freed': set<nat>) {
    && |runs| <= |runs'| && runs'[..|runs|] == runs
    && NotCancelled(runs, runs', cancelledAt)
    && (forall s :: s in cancelledAt ==> s in cancelledAt')
    && freed <= freed'
  }

  lemma LoggedSame(runs: seq<Run>, cancelledAt: map<nat, nat>, cancelledAt': map<nat, nat>, freed: set<nat>, freed': set<nat>)
    requires forall s :: s in cancelledAt ==> s in cancelledAt'
    requires freed <= freed'
    ensures Logged(runs, runs, cancelledAt, cancelledAt', freed, freed')
  {
  }

  lemma LoggedTrans(runs: seq<Run>, runs': seq<Run>, runs'': seq<Run>, cancelledAt: map<nat, nat>,
                    cancelledAt': map<nat, nat>, cancelledAt'': map<nat, nat>,
                    freed: set<nat>, freed': set<nat>, freed'': set<nat>)
    requires Logged(runs, runs', cancelledAt, cancelledAt', freed, freed')
    requires Logged(runs', runs'', cancelledAt', cancelledAt'', freed', freed'')
    ensures Logged(runs, runs'', cancelledAt, cancelledAt'', freed, freed'')
  {
    assert runs''[..|runs|] == runs''[..|runs'|][..|runs|];
    forall i | |runs| <= i < |runs''| ensures runs''[i].sequence !in cancelledAt {
      if i < |runs'| {
        assert runs''[i] == runs''[..|runs'|][i];
      }
    }
  }

  /** The first i runs of a batch have been recorded. */
  ghost predicate RunTo(before: seq<Run>, all: seq<Run>, i: nat, runs: seq<Run>) {
    i <= |all| && runs == before + all[..i]
  }

  lemma RunToNext(before: seq<Run>, all: seq<Run>, i: nat, runs: seq<Run>)
    ensures RunTo(before, all, 0, before)
    ensures RunTo(before, all, i, runs) && i < |all| ==> RunTo(before, all, i + 1, runs + [all[i]])
    ensures RunTo(before, all, |all|, runs) ==> runs == before + all
  {
    assert i < |all| ==> all[..i + 1] == all[..i] + [all[i]];
    assert all[..|all|] == all;
  }

  lemma InTimers(s: seq<Entry>)
    ensures forall i :: 0 <= i < |s| ==> s[i].timer in TimersOf(s)
  {
    forall i | 0 <= i < |s| ensures s[i].timer in TimersOf(s) {
      InTimersOf(s, i);
    }
  }

  lemma InTimersOf(s: seq<Entry>, i: nat)
    requires i < |s|
    ensures s[i].timer in TimersOf(s)
  {
    assert s[i] in s;
  }

  lemma TimersOfRest(s: seq<Entry>, i: nat)
    requires i < |s|
    requires forall j, k :: 0 <= j < k < |s| ==> s[j].timer != s[k].timer
    ensures s[i].timer in TimersOf(s[i..])
    ensures TimersOf(s[i..]) - {s[i].timer} == TimersOf(s[i + 1..])
  {
    assert s[i..] == [s[i]] + s[i + 1..];
    forall e | e in s[i + 1..] ensures e.timer != s[i].timer {
      var k :| 0 <= k < |s[i + 1..]| && s[i + 1..][k] == e;
      assert s[i + 1 + k] == e;
    }
  }

  lemma RestartIsLater(t: Timer, now: int)
    requires t.Repeat()
    ensures t.Restarted(now).expiration >= now && Micros(t.Restarted(now).expiration - now, t.interval)
  {
    RestartedDue(t, now);
  }

  lemma NothingLeft(heap: map<Addr, Timer>, timers: seq<Entry>, active: set<Handle>)
    requires Indexes(heap, timers, active)
    ensures timers != [] ==> timers[0].timer in heap && heap[timers[0].timer].expiration == timers[0].when
  {
    if timers != [] {
      FirstIsLive(heap, timers, active);
    }
  }

  /** Arming for a timer always arms in time for it. */
  lemma SetTimeInTime(when: int, clock: int)
    requires clock > 0
    ensures InTime(SetTime(HowMuchTimeFromNow(when, clock), clock), when)
    ensures SetTime(HowMuchTimeFromNow(when, clock), clock) == Armed(Max(when, clock + 100), clock)
  {
  }

  lemma InTimeLater(alarm: Alarm, earliest: int, later: int)
    requires InTime(alarm, earliest) && earliest <= later
    ensures InTime(alarm, later)
  {
  }

  lemma NothingInFlight()
    ensures TimersOf([]) == {}
  {
  }

  lemma FlightIsLive(heap: map<Addr, Timer>, active: set<Handle>, home: map<nat, Addr>, freed: set<nat>,
                     created: nat, flight: set<Addr>, posted: set<Addr>, expired: seq<Entry>)
    requires Ledger(heap, home, freed, created) && Owners(heap, active, flight, posted)
    requires flight == TimersOf(expired)
    ensures forall i :: 0 <= i < |expired| ==>
              expired[i].timer in flight && expired[i].timer in heap && heap[expired[i].timer].sequence !in freed
  {
    forall i | 0 <= i < |expired| ensures expired[i].timer in flight {
      assert expired[i] in expired;
    }
  }

  /** A batch of live timers runs none that was cancelled, and so freed, before it. */
  lemma RunsAreOf(heap: map<Addr, Timer>, expired: seq<Entry>, batch: nat, cancelled: map<nat, nat>, freed: set<nat>)
    requires forall i :: 0 <= i < |expired| ==>
               expired[i].timer in heap && heap[expired[i].timer].sequence !in freed
    requires forall s :: s in cancelled ==> s in freed
    ensures forall i :: 0 <= i < |expired| ==> RunsOf(heap, expired, batch)[i].sequence !in cancelled
  {
  }

  lemma MarksAreCancels(heap: map<Addr, Timer>, active: set<Handle>, home: map<nat, Addr>, freed: set<nat>,
                        created: nat, flight: set<Addr>, posted: set<Addr>, cancelledAt: map<nat, nat>,
                        canceling: set<Handle>, batch: nat, runs: seq<Run>, expired: seq<Entry>)
    requires Ledger(heap, home, freed, created) && Owners(heap, active, flight, posted)
    requires CancelsHold(cancelledAt, home, freed, flight, canceling, batch, runs)
    requires flight == TimersOf(expired)
    ensures forall i :: 0 <= i < |expired| ==>
              var a := expired[i].timer;
              a in heap && (Handle(a, heap[a].sequence) in canceling <==> heap[a].sequence in cancelledAt)
  {
    FlightIsLive(heap, active, home, freed, created, flight, posted, expired);
    forall i | 0 <= i < |expired|
      ensures var a := expired[i].timer;
              Handle(a, heap[a].sequence) in canceling <==> heap[a].sequence in cancelledAt
    {
      var h := Handle(expired[i].timer, heap[expired[i].timer].sequence);
      MarkedIsCancelled(cancelledAt, home, freed, flight, canceling, batch, runs, h);
    }
  }

  // ------------------------------------------- the queue as a table

  /** The live timers by number. */
  ghost function LiveOf(heap: map<Addr, Timer>, home: map<nat, Addr>, freed: set<nat>): map<nat, Timer> {
    map s | s in home && s !in freed && home[s] in heap :: heap[home[s]]
  }

  /** The numbers of the live timers at some addresses. */
  ghost function NumbersAt(heap: map<Addr, Timer>, home: map<nat, Addr>, freed: set<nat>, at: set<Addr>): set<nat> {
    set s | s in home && s !in freed && home[s] in heap && home[s] in at
  }

  ghost function MarksOf(heap: map<Addr, Timer>, home: map<nat, Addr>, freed: set<nat>,
                         flight: set<Addr>, canceling: set<Handle>): set<nat> {
    set s | s in home && s !in freed && home[s] in heap && home[s] in flight && Handle(home[s], s) in canceling
  }

  ghost function RanOf(runs: seq<Run>): set<nat> { set i | 0 <= i < |runs| :: runs[i].sequence }

  /** The table that the indexes, the heap and the marks stand for. */
  ghost function ViewOf(heap: map<Addr, Timer>, home: map<nat, Addr>, freed: set<nat>, created: nat,
                        flight: set<Addr>, posted: set<Addr>, canceling: set<Handle>,
                        cancelledAt: map<nat, nat>, batch: nat, runs: seq<Run>): Table {
    Table(created, home, LiveOf(heap, home, freed), NumbersAt(heap, home, freed, posted),
          NumbersAt(heap, home, freed, flight), MarksOf(heap, home, freed, flight, canceling),
          cancelledAt.Keys, RanOf(runs), batch)
  }

  lemma ViewCoherent(heap: map<Addr, Timer>, active: set<Handle>, home: map<nat, Addr>, freed: set<nat>, created: nat,
                     flight: set<Addr>, posted: set<Addr>, canceling: set<Handle>,
                     cancelledAt: map<nat, nat>, batch: nat, runs: seq<Run>)
    requires Ledger(heap, home, freed, created) && Owners(heap, active, flight, posted)
    requires CancelsHold(cancelledAt, home, freed, flight, canceling, batch, runs)
    ensures Coherent(ViewOf(heap, home, freed, created, flight, posted, canceling, cancelledAt, batch, runs))
  {
  }

  lemma ViewOccupied(heap: map<Addr, Timer>, home: map<nat, Addr>, freed: set<nat>, created: nat,
                     flight: set<Addr>, posted: set<Addr>, canceling: set<Handle>,
                     cancelledAt: map<nat, nat>, batch: nat, runs: seq<Run>, a: Addr)
    requires Ledger(heap, home, freed, created)
    ensures ViewOf(heap, home, freed, created, flight, posted, canceling, cancelledAt, batch, runs).Occupied(a)
            <==> a in heap
  {
    var t := ViewOf(heap, home, freed, created, flight, posted, canceling, cancelledAt, batch, runs);
    if a in heap {
      assert heap[a].sequence in t.live && home[heap[a].sequence] == a;
    }
  }

  lemma LiveConstructed(heap: map<Addr, Timer>, home: map<nat, Addr>, freed: set<nat>, created: nat, a: Addr, t: Timer)
    requires Ledger(heap, home, freed, created) && a !in heap && t.sequence == created + 1
    ensures LiveOf(heap[a := t], home[t.sequence := a], freed) == LiveOf(heap, home, freed)[t.sequence := t]
  {
  }

  lemma NumbersConstructed(heap: map<Addr, Timer>, home: map<nat, Addr>, freed: set<nat>, created: nat, a: Addr, t: Timer,
                           at: set<Addr>)
    requires Ledger(heap, home, freed, created) && a !in heap && t.sequence == created + 1
    ensures NumbersAt(heap[a := t], home[t.sequence := a], freed, at + {a}) == NumbersAt(heap, home, freed, at) + {t.sequence}
    ensures a !in at ==> NumbersAt(heap[a := t], home[t.sequence := a], freed, at) == NumbersAt(heap, home, freed, at)
  {
  }

  lemma ViewConstructed(heap: map<Addr, Timer>, home: map<nat, Addr>, freed: set<nat>, created: nat,
                        flight: set<Addr>, posted: set<Addr>, canceling: set<Handle>,
                        cancelledAt: map<nat, nat>, batch: nat, runs: seq<Run>, a: Addr, when: int, interval: real)
    requires Ledger(heap, home, freed, created) && a !in heap && a !in flight
    ensures var s := created + 1;
            ViewOf(heap[a := Timer(when, interval, s)], home[s := a], freed, s, flight, posted + {a}, canceling,
                   cancelledAt, batch, runs)
            == Constructed(ViewOf(heap, home, freed, created, flight, posted, canceling, cancelledAt, batch, runs),
                           a, when, interval)
  {
    ViewOccupied(heap, home, freed, created, flight, posted, canceling, cancelledAt, batch, runs, a);
    var t := Timer(when, interval, created + 1);
    LiveConstructed(heap, home, freed, created, a, t);
    NumbersConstructed(heap, home, freed, created, a, t, posted);
    NumbersConstructed(heap, home, freed, created, a, t, flight);
    MarksConstructed(heap, home, freed, created, a, t, flight, canceling);
    hide Ledger, LiveOf, NumbersAt, MarksOf, RanOf;
  }

  lemma MarksConstructed(heap: map<Addr, Timer>, home: map<nat, Addr>, freed: set<nat>, created: nat, a: Addr, t: Timer,
                         flight: set<Addr>, canceling: set<Handle>)
    requires Ledger(heap, home, freed, created) && a !in heap && a !in flight && t.sequence == created + 1
    ensures MarksOf(heap[a := t], home[t.sequence := a], freed, flight, canceling)
         == MarksOf(heap, home, freed, flight, canceling)
  {
  }

  lemma ViewEntered(heap: map<Addr, Timer>, home: map<nat, Addr>, freed: set<nat>, created: nat,
                    flight: set<Addr>, posted: set<Addr>, canceling: set<Handle>,
                    cancelledAt: map<nat, nat>, batch: nat, runs: seq<Run>, a: Addr)
    ensures ViewOf(heap, home, freed, created, flight, posted - {a}, canceling, cancelledAt, batch, runs)
         == Entered(ViewOf(heap, home, freed, created, flight, posted, canceling, cancelledAt, batch, runs), a)
  {
    var t := ViewOf(heap, home, freed, created, flight, posted, canceling, cancelledAt, batch, runs);
    var t' := ViewOf(heap, home, freed, created, flight, posted - {a}, canceling, cancelledAt, batch, runs);
    assert t'.posted == Entered(t, a).posted;
  }

  /** A handle names the same timer in the table and on the heap. */
  lemma ViewNames(heap: map<Addr, Timer>, home: map<nat, Addr>, freed: set<nat>, created: nat,
                  flight: set<Addr>, posted: set<Addr>, canceling: set<Handle>,
                  cancelledAt: map<nat, nat>, batch: nat, runs: seq<Run>, id: Handle)
    requires Ledger(heap, home, freed, created)
    ensures var t := ViewOf(heap, home, freed, created, flight, posted, canceling, cancelledAt, batch, runs);
            && (t.Names(id) <==> id.timer in heap && heap[id.timer].sequence == id.sequence && id.timer !in posted)
            && (t.Names(id) ==> (id.sequence in t.flying <==> id.timer in flight))
  {
  }

  lemma ViewUnnamed(heap: map<Addr, Timer>, home: map<nat, Addr>, freed: set<nat>, created: nat,
                    flight: set<Addr>, posted: set<Addr>, canceling: set<Handle>,
                    cancelledAt: map<nat, nat>, batch: nat, runs: seq<Run>, id: Handle)
    requires Ledger(heap, home, freed, created)
    requires !(id.timer in heap && heap[id.timer].sequence == id.sequence && id.timer !in posted)
    ensures var t := ViewOf(heap, home, freed, created, flight, posted, canceling, cancelledAt, batch, runs);
            Cancelled(t, id) == t
  {
    ViewNames(heap, home, freed, created, flight, posted, canceling, cancelledAt, batch, runs, id);
  }

  /** A registered timer cancelled. */
  lemma ViewFreed(heap: map<Addr, Timer>, home: map<nat, Addr>, freed: set<nat>, created: nat,
                  flight: set<Addr>, posted: set<Addr>, canceling: set<Handle>,
                  cancelledAt: map<nat, nat>, cancelledAt': map<nat, nat>, batch: nat, runs: seq<Run>, id: Handle)
    requires Ledger(heap, home, freed, created)
    requires id.timer in heap && heap[id.timer].sequence == id.sequence && id.timer !in posted && id.timer !in flight
    requires cancelledAt'.Keys == cancelledAt.Keys + {id.sequence}
    ensures ViewOf(heap - {id.timer}, home, freed + {id.sequence}, created, flight, posted, canceling,
                   cancelledAt', batch, runs)
         == Cancelled(ViewOf(heap, home, freed, created, flight, posted, canceling, cancelledAt, batch, runs), id)
  {
    var t := ViewOf(heap, home, freed, created, flight, posted, canceling, cancelledAt, batch, runs);
    var t' := ViewOf(heap - {id.timer}, home, freed + {id.sequence}, created, flight, posted, canceling,
                     cancelledAt', batch, runs);
    assert t.Names(id) && id.sequence !in t.flying;
    assert t'.live == t.live - {id.sequence};
    assert t'.posted == t.posted && t'.flying == t.flying && t'.marked == t.marked;
  }

  /** A timer in flight cancelled. */
  lemma ViewMarked(heap: map<Addr, Timer>, home: map<nat, Addr>, freed: set<nat>, created: nat,
                   flight: set<Addr>, posted: set<Addr>, canceling: set<Handle>,
                   cancelledAt: map<nat, nat>, cancelledAt': map<nat, nat>, batch: nat, runs: seq<Run>, id: Handle)
    requires Ledger(heap, home, freed, created)
    requires id.timer in heap && heap[id.timer].sequence == id.sequence && id.timer !in posted && id.timer in flight
    requires cancelledAt'.Keys == cancelledAt.Keys + {id.sequence}
    ensures ViewOf(heap, home, freed, created, flight, posted, canceling + {id}, cancelledAt', batch, runs)
         == Cancelled(ViewOf(heap, home, freed, created, flight, posted, canceling, cancelledAt, batch, runs), id)
  {
    var t := ViewOf(heap, home, freed, created, flight, posted, canceling, cancelledAt, batch, runs);
    var t' := ViewOf(heap, home, freed, created, flight, posted, canceling + {id}, cancelledAt', batch, runs);
    assert t.Names(id) && id.sequence in t.flying;
    assert t'.marked == t.marked + {id.sequence};
  }

  /** A mark that names no timer in flight is no mark. */
  lemma ViewStale(heap: map<Addr, Timer>, home: map<nat, Addr>, freed: set<nat>, created: nat,
                  flight: set<Addr>, posted: set<Addr>, canceling: set<Handle>,
                  cancelledAt: map<nat, nat>, batch: nat, runs: seq<Run>, active: set<Handle>, id: Handle)
    requires Ledger(heap, home, freed, created) && Owners(heap, active, flight, posted)
    requires !(id.timer in heap && heap[id.timer].sequence == id.sequence && id.timer !in posted)
    ensures ViewOf(heap, home, freed, created, flight, posted, canceling + {id}, cancelledAt, batch, runs)
         == ViewOf(heap, home, freed, created, flight, posted, canceling, cancelledAt, batch, runs)
  {
    var t := ViewOf(heap, home, freed, created, flight, posted, canceling, cancelledAt, batch, runs);
    var t' := ViewOf(heap, home, freed, created, flight, posted, canceling + {id}, cancelledAt, batch, runs);
    assert t'.marked == t.marked;
  }

  function Members(s: seq<nat>): set<nat> { set x | x in s }

  lemma {:induction false} DistinctCount(s: seq<nat>)
    requires forall i, j :: 0 <= i < j < |s| ==> s[i] != s[j]
    ensures |Members(s)| == |s|
  {
    if s != [] {
      var front, last := s[..|s| - 1], s[|s| - 1];
      DistinctCount(front);
      assert s == front + [last];
      assert Members(s) == Members(front) + {last} && last !in Members(front);
    }
  }

  /** The batch that starts is what the table says is due ... */
  lemma BatchIsDue(heap: map<Addr, Timer>, timers: seq<Entry>, active: set<Handle>, home: map<nat, Addr>,
                   freed: set<nat>, created: nat, posted: set<Addr>, expired: seq<Entry>, now: int, t: Table)
    requires Indexes(heap, timers, active) && Ledger(heap, home, freed, created) && Owners(heap, active, {}, posted)
    requires |expired| <= |timers| && expired == timers[..|expired|]
    requires forall i :: 0 <= i < |expired| ==> expired[i].when <= now
    requires forall i :: |expired| <= i < |timers| ==> now < timers[i].when
    requires t.live == LiveOf(heap, home, freed) && t.posted == NumbersAt(heap, home, freed, posted)
    ensures forall i :: 0 <= i < |expired| ==>
              expired[i].timer in heap && heap[expired[i].timer].sequence in t.Due(now)
              && home[heap[expired[i].timer].sequence] == expired[i].timer
    ensures forall s :: s in t.Due(now) ==>
              exists i :: 0 <= i < |expired| && expired[i].timer in heap && heap[expired[i].timer].sequence == s
  {
    forall i | 0 <= i < |expired|
      ensures expired[i].timer in heap && heap[expired[i].timer].sequence in t.Due(now)
              && home[heap[expired[i].timer].sequence] == expired[i].timer
    {
      assert timers[i] in timers;
    }
    forall s | s in t.Due(now)
      ensures exists i :: 0 <= i < |expired| && expired[i].timer in heap && heap[expired[i].timer].sequence == s
    {
      var e := Entry(heap[home[s]].expiration, home[s]);
      assert e in timers;
      var i :| 0 <= i < |timers| && timers[i] == e;
      assert i < |expired| && expired[i] == e;
    }
  }

  /** ... and as large. */
  lemma BatchSize(heap: map<Addr, Timer>, home: map<nat, Addr>, expired: seq<Entry>, due: set<nat>)
    requires forall i, j :: 0 <= i < j < |expired| ==> expired[i].timer != expired[j].timer
    requires forall i :: 0 <= i < |expired| ==>
               expired[i].timer in heap && heap[expired[i].timer].sequence in due
               && heap[expired[i].timer].sequence in home
               && home[heap[expired[i].timer].sequence] == expired[i].timer
    requires forall s :: s in due ==>
               exists i :: 0 <= i < |expired| && expired[i].timer in heap && heap[expired[i].timer].sequence == s
    ensures |due| == |expired|
  {
    var numbers := seq(|expired|, i requires 0 <= i < |expired| => heap[expired[i].timer].sequence);
    DistinctCount(numbers);
    forall s | s in due ensures s in Members(numbers) {
      var i :| 0 <= i < |expired| && expired[i].timer in heap && heap[expired[i].timer].sequence == s;
      assert numbers[i] == s;
    }
    assert due == Members(numbers);
  }

  lemma BatchFlies(heap: map<Addr, Timer>, home: map<nat, Addr>, freed: set<nat>, created: nat, expired: seq<Entry>,
                   due: set<nat>)
    requires Ledger(heap, home, freed, created)
    requires forall i :: 0 <= i < |expired| ==> expired[i].timer in heap && heap[expired[i].timer].sequence in due
    requires forall s :: s in due ==>
               exists i :: 0 <= i < |expired| && expired[i].timer in heap && heap[expired[i].timer].sequence == s
    ensures NumbersAt(heap, home, freed, TimersOf(expired)) == due
  {
    forall s | s in due ensures s in NumbersAt(heap, home, freed, TimersOf(expired)) {
      var i :| 0 <= i < |expired| && expired[i].timer in heap && heap[expired[i].timer].sequence == s;
      assert expired[i] in expired;
    }
  }

  lemma BatchRuns(heap: map<Addr, Timer>, expired: seq<Entry>, batch: nat, due: set<nat>)
    ensures (forall i :: 0 <= i < |expired| ==> expired[i].timer in heap && heap[expired[i].timer].sequence in due)
            && (forall s :: s in due ==>
                  exists i :: 0 <= i < |expired| && expired[i].timer in heap && heap[expired[i].timer].sequence == s)
            ==> due == RanOf(RunsOf(heap, expired, batch))
  {
    if && (forall i :: 0 <= i < |expired| ==> expired[i].timer in heap && heap[expired[i].timer].sequence in due)
       && (forall s :: s in due ==>
             exists i :: 0 <= i < |expired| && expired[i].timer in heap && heap[expired[i].timer].sequence == s)
    {
      var runs := RunsOf(heap, expired, batch);
      forall s | s in due ensures s in RanOf(runs) {
        var i :| 0 <= i < |expired| && expired[i].timer in heap && heap[expired[i].timer].sequence == s;
        assert runs[i].sequence == s;
      }
    }
  }

  lemma {:induction false} RanAdds(a: seq<Run>, b: seq<Run>)
    ensures RanOf(a + b) == RanOf(a) + RanOf(b)
  {
    forall s | s in RanOf(a) ensures s in RanOf(a + b) {
      var i :| 0 <= i < |a| && a[i].sequence == s;
      assert (a + b)[i].sequence == s;
    }
    forall s | s in RanOf(b) ensures s in RanOf(a + b) {
      var i :| 0 <= i < |b| && b[i].sequence == s;
      assert (a + b)[|a| + i].sequence == s;
    }
  }

  lemma ViewStarted(heap: map<Addr, Timer>, timers: seq<Entry>, active: set<Handle>, home: map<nat, Addr>,
                    freed: set<nat>, created: nat, posted: set<Addr>, canceling: set<Handle>,
                    cancelledAt: map<nat, nat>, batch: nat, runs: seq<Run>, expired: seq<Entry>, now: int)
    requires Indexes(heap, timers, active) && Ledger(heap, home, freed, created) && Owners(heap, active, {}, posted)
    requires |expired| <= |timers| && expired == timers[..|expired|]
    requires forall i :: 0 <= i < |expired| ==> expired[i].when <= now
    requires forall i :: |expired| <= i < |timers| ==> now < timers[i].when
    requires forall i, j :: 0 <= i < j < |expired| ==> expired[i].timer != expired[j].timer
    ensures var t := ViewOf(heap, home, freed, created, {}, posted, canceling, cancelledAt, batch, runs);
            && ViewOf(heap, home, freed, created, TimersOf(expired), posted, {}, cancelledAt, batch + 1, runs)
               == Started(t, now)
            && |t.Due(now)| == |expired|
            && (forall i :: 0 <= i < |expired| ==> expired[i].timer in heap)
            && t.Due(now) == RanOf(RunsOf(heap, expired, batch + 1))
  {
    var t := ViewOf(heap, home, freed, created, {}, posted, canceling, cancelledAt, batch, runs);
    LedgerHome(heap, home, freed, created);
    hide Indexes, Ledger, Owners, TimersOf, LiveOf, RanOf, RunsOf, NumbersAt, MarksOf;
    BatchIsDue(heap, timers, active, home, freed, created, posted, expired, now, t);
    BatchRuns(heap, expired, batch + 1, t.Due(now));
    BatchSize(heap, home, expired, t.Due(now));
    BatchFlies(heap, home, freed, created, expired, t.Due(now));
    NoMarks(heap, home, freed, TimersOf(expired));
  }

  lemma LedgerHome(heap: map<Addr, Timer>, home: map<nat, Addr>, freed: set<nat>, created: nat)
    requires Ledger(heap, home, freed, created)
    ensures forall a :: a in heap ==> heap[a].sequence in home
  {
  }

  lemma NoMarks(heap: map<Addr, Timer>, home: map<nat, Addr>, freed: set<nat>, flight: set<Addr>)
    ensures MarksOf(heap, home, freed, flight, {}) == {}
  {
  }

  /** After the batch: each timer of it settled, the others untouched. */
  ghost predicate AllSettled(heap: map<Addr, Timer>, heap': map<Addr, Timer>, flight: set<Addr>, canceling: set<Handle>,
                             active': set<Handle>, freed': set<nat>, now: int) {
    && (forall a :: a in flight ==>
          a in heap && Settled(heap[a], a, now, Handle(a, heap[a].sequence) !in canceling, heap', active', freed'))
    && (forall a :: a !in flight ==> (a in heap' <==> a in heap) && (a in heap' ==> heap'[a] == heap[a]))
  }

  ghost predicate InHeap(heap: map<Addr, Timer>, expired: seq<Entry>) {
    forall i :: 0 <= i < |expired| ==> expired[i].timer in heap
  }

  /** A batch that starts: live timers, each once, none of them cancelled. */
  ghost predicate BatchLive(heap: map<Addr, Timer>, expired: seq<Entry>, freed: set<nat>, cancelledAt: map<nat, nat>) {
    && (forall i, j :: 0 <= i < j < |expired| ==> expired[i].timer != expired[j].timer)
    && (forall i :: 0 <= i < |expired| ==> expired[i].timer in heap && heap[expired[i].timer].sequence !in freed)
    && (forall s :: s in cancelledAt ==> s in freed)
  }

  /** A batch whose callbacks have run: live timers, each once, all run. */
  ghost predicate BatchRun(heap: map<Addr, Timer>, expired: seq<Entry>, runs: seq<Run>) {
    && (forall i, j :: 0 <= i < j < |expired| ==> expired[i].timer != expired[j].timer)
    && (forall i :: 0 <= i < |expired| ==> expired[i].timer in heap && Ran(runs, heap[expired[i].timer].sequence))
  }

  /** The batch is the one that was extracted, and marked means cancelled. */
  ghost predicate BatchSame(heap0: map<Addr, Timer>, heap1: map<Addr, Timer>, expired: seq<Entry>,
                            canceling: set<Handle>, cancelledAt: map<nat, nat>) {
    forall i :: 0 <= i < |expired| ==>
      var a := expired[i].timer;
      && a in heap0 && a in heap1 && heap1[a] == heap0[a]
      && (Handle(a, heap1[a].sequence) in canceling <==> heap1[a].sequence in cancelledAt)
  }

  /** The callbacks of a batch have run: each due timer once, in order, and none that had been cancelled before. */
  ghost predicate BatchCalled(heap0: map<Addr, Timer>, heap1: map<Addr, Timer>, created0: nat, created: nat,
                              runs0: seq<Run>, runs: seq<Run>, cancelled0: map<nat, nat>, cancelledAt: map<nat, nat>,
                              freed0: set<nat>, freed: set<nat>, canceling: set<Handle>, expired: seq<Entry>,
                              batch: nat) {
    && BatchRun(heap1, expired, runs) && BatchSame(heap0, heap1, expired, canceling, cancelledAt)
    && runs == runs0 + RunsOf(heap0, expired, batch) && NotCancelled(runs0, runs, cancelled0)
    && Grew(heap0, heap1, created0, created, TimersOf(expired), cancelled0, cancelledAt, freed0, freed)
  }

  /**
   * What an alarm does.  Each due timer is registered at its next expiration if
   * it repeats and was not cancelled, and freed otherwise; the others that were
   * live are as they were, unless cancelled.  Each due timer has run once, in
   * order, and none that had been cancelled before.
   */
  ghost predicate BatchDid(heap0: map<Addr, Timer>, heap: map<Addr, Timer>, created0: nat, created: nat,
                           runs0: seq<Run>, runs: seq<Run>, cancelled0: map<nat, nat>, cancelledAt: map<nat, nat>,
                           freed0: set<nat>, freed: set<nat>, active: set<Handle>, due: seq<Entry>, batch: nat, now: int) {
    && (forall i :: 0 <= i < |due| ==> due[i].timer in heap0)
    && created0 <= created && Preserved(heap0, heap, created0, TimersOf(due))
    && runs == runs0 + RunsOf(heap0, due, batch)
    && NotCancelled(runs0, runs, cancelled0)
    && (forall i :: 0 <= i < |due| ==>
          var t := heap0[due[i].timer];
          Settled(t, due[i].timer, now, t.sequence !in cancelledAt, heap, active, freed))
    && (forall s :: s in cancelled0 ==> s in cancelledAt)
    && freed0 <= freed
  }

  /** Callbacks and settling together. */
  lemma BatchLeaves(heap0: map<Addr, Timer>, heap1: map<Addr, Timer>, heap: map<Addr, Timer>, created0: nat, created: nat,
                    runs0: seq<Run>, runs: seq<Run>, cancelled0: map<nat, nat>, cancelledAt: map<nat, nat>,
                    freed0: set<nat>, freed1: set<nat>, freed: set<nat>, active: set<Handle>, canceling: set<Handle>,
                    expired: seq<Entry>, batch: nat, now: int)
    requires BatchCalled(heap0, heap1, created0, created, runs0, runs, cancelled0, cancelledAt, freed0, freed1,
                         canceling, expired, batch)
    requires AllSettled(heap1, heap, TimersOf(expired), canceling, active, freed, now) && freed1 <= freed
    ensures BatchDid(heap0, heap, created0, created, runs0, runs, cancelled0, cancelledAt, freed0, freed, active,
                     expired, batch, now)
  {
    hide Settled, TimersOf, RunsOf;
    InTimers(expired);
  }

  lemma CalledRun(heap0: map<Addr, Timer>, heap1: map<Addr, Timer>, created0: nat, created: nat,
                  runs0: seq<Run>, runs: seq<Run>, cancelled0: map<nat, nat>, cancelledAt: map<nat, nat>,
                  freed0: set<nat>, freed: set<nat>, canceling: set<Handle>, expired: seq<Entry>, batch: nat)
    requires BatchCalled(heap0, heap1, created0, created, runs0, runs, cancelled0, cancelledAt, freed0, freed,
                         canceling, expired, batch)
    ensures BatchRun(heap1, expired, runs)
  {
  }

  lemma DidLog(heap0: map<Addr, Timer>, heap: map<Addr, Timer>, created0: nat, created: nat,
               runs0: seq<Run>, runs: seq<Run>, cancelled0: map<nat, nat>, cancelledAt: map<nat, nat>,
               freed0: set<nat>, freed: set<nat>, active: set<Handle>, due: seq<Entry>, batch: nat, now: int)
    requires BatchDid(heap0, heap, created0, created, runs0, runs, cancelled0, cancelledAt, freed0, freed, active, due,
                      batch, now)
    ensures Logged(runs0, runs, cancelled0, cancelledAt, freed0, freed)
  {
    hide RunsOf, TimersOf, Settled, Preserved;
    assert runs[..|runs0|] == runs0;
  }

  /** What became of one due timer, in numbers. */
  ghost predicate AgainOrFreed(heap0: map<Addr, Timer>, a: Addr, heap: map<Addr, Timer>, active: set<Handle>,
                               freed: set<nat>, cancelledAt: map<nat, nat>, now: int) {
    && a in heap0
    && if heap0[a].interval > 0.0 && heap0[a].sequence !in cancelledAt then
         && a in heap && heap[a].sequence == heap0[a].sequence && heap[a].interval == heap0[a].interval
         && Micros(heap[a].expiration - now, heap0[a].interval) && Handle(a, heap0[a].sequence) in active
       else heap0[a].sequence in freed
  }

  lemma DidAgain(heap0: map<Addr, Timer>, heap: map<Addr, Timer>, created0: nat, created: nat,
                 runs0: seq<Run>, runs: seq<Run>, cancelled0: map<nat, nat>, cancelledAt: map<nat, nat>,
                 freed0: set<nat>, freed: set<nat>, active: set<Handle>, due: seq<Entry>, batch: nat, now: int)
    requires BatchDid(heap0, heap, created0, created, runs0, runs, cancelled0, cancelledAt, freed0, freed, active, due,
                      batch, now)
    ensures forall i :: 0 <= i < |due| ==> AgainOrFreed(heap0, due[i].timer, heap, active, freed, cancelledAt, now)
  {
    hide RunsOf, Preserved, NotCancelled, TimersOf, Micros;
    forall i | 0 <= i < |due| ensures AgainOrFreed(heap0, due[i].timer, heap, active, freed, cancelledAt, now) {
      var t := heap0[due[i].timer];
      if t.interval > 0.0 {
        RestartedDue(t, now);
      }
    }
  }

  lemma SettledSet(heap: map<Addr, Timer>, heap': map<Addr, Timer>, expired: seq<Entry>, canceling: set<Handle>,
                   active': set<Handle>, freed': set<nat>, now: int)
    requires forall i :: 0 <= i < |expired| ==>
               var a := expired[i].timer;
               a in heap && Settled(heap[a], a, now, Handle(a, heap[a].sequence) !in canceling, heap', active', freed')
    requires forall a :: a !in TimersOf(expired) ==> (a in heap' <==> a in heap) && (a in heap' ==> heap'[a] == heap[a])
    ensures AllSettled(heap, heap', TimersOf(expired), canceling, active', freed', now)
  {
    hide Settled;
    forall a | a in TimersOf(expired)
      ensures a in heap && Settled(heap[a], a, now, Handle(a, heap[a].sequence) !in canceling, heap', active', freed')
    {
      var i :| 0 <= i < |expired| && expired[i].timer == a;
    }
  }

  lemma LiveFinished(heap: map<Addr, Timer>, heap': map<Addr, Timer>, active: set<Handle>, active': set<Handle>,
                     home: map<nat, Addr>, freed: set<nat>, freed': set<nat>, created: nat, flight: set<Addr>,
                     posted: set<Addr>, canceling: set<Handle>, now: int, s: nat)
    requires Ledger(heap, home, freed, created) && Ledger(heap', home, freed', created) && freed <= freed'
    requires Owners(heap, active, flight, posted)
    requires AllSettled(heap, heap', flight, canceling, active', freed', now)
    ensures var live, live' := LiveOf(heap, home, freed), LiveOf(heap', home, freed');
            var flying, marked := NumbersAt(heap, home, freed, flight), MarksOf(heap, home, freed, flight, canceling);
            && (s in live' <==> s in live && (s in flying ==> live[s].Repeat() && s !in marked))
            && (s in live' ==> live'[s] == if s in flying then live[s].Restarted(now) else live[s])
            && (s in NumbersAt(heap', home, freed', posted) <==> s in NumbersAt(heap, home, freed, posted))
  {
    if s in home && s !in freed {
      var a := home[s];
      if a in flight {
        assert Settled(heap[a], a, now, Handle(a, heap[a].sequence) !in canceling, heap', active', freed');
      }
    }
  }

  lemma ViewFinished(heap: map<Addr, Timer>, heap': map<Addr, Timer>, active: set<Handle>, active': set<Handle>,
                     home: map<nat, Addr>, freed: set<nat>, freed': set<nat>, created: nat, flight: set<Addr>,
                     posted: set<Addr>, canceling: set<Handle>, cancelledAt: map<nat, nat>, batch: nat, runs: seq<Run>,
                     now: int)
    requires Ledger(heap, home, freed, created) && Ledger(heap', home, freed', created) && freed <= freed'
    requires Owners(heap, active, flight, posted)
    requires AllSettled(heap, heap', flight, canceling, active', freed', now)
    ensures ViewOf(heap', home, freed', created, {}, posted, canceling, cancelledAt, batch, runs)
         == Finished(ViewOf(heap, home, freed, created, flight, posted, canceling, cancelledAt, batch, runs), now)
  {
    var t := ViewOf(heap, home, freed, created, flight, posted, canceling, cancelledAt, batch, runs);
    var t' := ViewOf(heap', home, freed', created, {}, posted, canceling, cancelledAt, batch, runs);
    NothingFlies(heap', home, freed', canceling);
    hide Ledger, Owners, AllSettled, LiveOf, NumbersAt, MarksOf, RanOf;
    forall s
      ensures (s in t'.live <==> s in t.live && (s in t.flying ==> t.live[s].Repeat() && s !in t.marked))
              && (s in t'.live ==> t'.live[s] == if s in t.flying then t.live[s].Restarted(now) else t.live[s])
              && (s in t'.posted <==> s in t.posted)
    {
      LiveFinished(heap, heap', active, active', home, freed, freed', created, flight, posted, canceling, now, s);
    }
    assert t'.live == Finished(t, now).live;
  }

  lemma NothingFlies(heap: map<Addr, Timer>, home: map<nat, Addr>, freed: set<nat>, canceling: set<Handle>)
    ensures NumbersAt(heap, home, freed, {}) == {} && MarksOf(heap, home, freed, {}, canceling) == {}
  {
  }

  class Queue {
    var heap: map<Addr, Timer>      // the live timers
    var created: nat                // Timer::s_numCreated_
    var timers: seq<Entry>          // timers_, a set ordered by expiration
    var active: set<Handle>         // activeTimers_
    var calling: bool               // callingExpiredTimers_
    var canceling: set<Handle>      // cancelingTimers_
    var alarm: Alarm                // the timerfd

    var posted: set<Addr>           // addTimerInLoop calls on their way to the loop
    ghost var flight: set<Addr>     // extracted by getExpired, not yet re-armed or freed
    ghost var home: map<nat, Addr>  // the address each timer was given
    ghost var freed: set<nat>
    ghost var cancelledAt: map<nat, nat>
    ghost var batch: nat
    ghost var runs: seq<Run>
    ghost var repeating: set<nat>   // timers constructed to repeat

    ghost predicate Consistent()
      reads this
    {
      && Indexes(heap, timers, active)
      && Ledger(heap, home, freed, created)
      && Owners(heap, active, flight, posted)
      && CancelsHold(cancelledAt, home, freed, flight, canceling, batch, runs)
      && Kinds(heap, repeating, created)
      && Justified(freed, cancelledAt, repeating, runs)
    }

    /**
     * Outside handleRead nothing is in flight and the alarm is in time for the
     * earliest timer.  While callbacks run, the alarm only has to be in time
     * for an earliest timer that the end of the batch would not re-arm.
     */
    ghost predicate Valid()
      reads this
    {
      && Consistent()
      && (!calling ==> flight == {})
      && (timers != [] && (calling ==> timers[0].when <= 0) ==> InTime(alarm, timers[0].when))
    }

    /** The simple form of the queue. */
    ghost function View(): Table
      reads this
    {
      ViewOf(heap, home, freed, created, flight, posted, canceling, cancelledAt, batch, runs)
    }

    constructor ()
      ensures Valid() && !calling && timers == [] && heap == map[] && created == 0
      ensures runs == [] && cancelledAt == map[]
    {
      heap, created, timers, active := map[], 0, [], {};
      calling, canceling, alarm := false, {}, Disarmed;
      posted, flight, home, freed, cancelledAt, batch, runs, repeating := {}, {}, map[], {}, map[], 0, [], {};
    }

    /** `new Timer` in `addTimer`, on any thread; the allocator returns a free address. */
    method NewTimer(a: Addr, when: int, interval: real) returns (id: Handle)
      requires Valid() && a !in heap && a < UINTPTR_MAX
      modifies `heap, `created, `posted, `home, `repeating
      ensures Valid()
      ensures created == old(created) + 1 && id == Handle(a, created)
      ensures heap == old(heap)[a := Timer(when, interval, created)]
      ensures posted == old(posted) + {a}
      ensures created !in old(home) && home == old(home)[created := a]
      ensures repeating == if interval > 0.0 then old(repeating) + {created} else old(repeating)
      ensures View() == Constructed(old(View()), a, when, interval)
    {
      hide ViewOf, Constructed, Indexes, Ledger, Owners, CancelsHold, InTime, Kinds, Justified;
      var t := Timer(when, interval, created + 1);
      ConstructKeeps(heap, timers, active, home, freed, created, flight, posted, a, t);
      NewHomeKeepsCancels(cancelledAt, home, freed, flight, canceling, batch, runs, created + 1, a);
      ViewConstructed(heap, home, freed, created, flight, posted, canceling, cancelledAt, batch, runs, a, when, interval);
      NewKind(heap, repeating, created, a, t);
      NewKindJustified(freed, cancelledAt, repeating, runs, created + 1);
      if t.Repeat() {
        repeating := repeating + {created + 1};
      }
      created := created + 1;
      heap := heap[a := t];
      posted := posted + {a};
      home := home[created := a];
      id := Handle(a, created);
    }

    method Insert(a: Addr) returns (earliestChanged: bool)
      requires Indexes(heap, timers, active)
      requires a in heap && a < UINTPTR_MAX && Handle(a, heap[a].sequence) !in active
      modifies this`timers, this`active
      ensures Indexes(heap, timers, active)
      ensures active == old(active) + {Handle(a, heap[a].sequence)}
      ensures timers == Inserted(old(timers), Entry(heap[a].expiration, a))
      ensures timers != []
      ensures earliestChanged <==> old(timers) == [] || heap[a].expiration < old(timers)[0].when
      ensures timers[0].when == if earliestChanged then heap[a].expiration else old(timers)[0].when
    {
      var when := heap[a].expiration;
      earliestChanged := timers == [] || when < timers[0].when;
      RegisterKeeps(heap, timers, active, a);
      InsertedSorted(timers, Entry(when, a));
      timers := Inserted(timers, Entry(when, a));
      active := active + {Handle(a, heap[a].sequence)};
    }

    method AddTimerInLoop(a: Addr, clock: int)
      requires Valid() && a in posted && clock > 0
      modifies `timers, `active, `posted, `alarm
      ensures Valid()
      ensures posted == old(posted) - {a}
      ensures active == old(active) + {Handle(a, heap[a].sequence)}
      ensures timers == Inserted(old(timers), Entry(heap[a].expiration, a))
      ensures View() == Entered(old(View()), a)
    {
      hide ViewOf, Entered, Indexes, Ledger, Owners, CancelsHold, Inserted, Kinds, Justified, InTime, SetTime,
           HowMuchTimeFromNow;
      ViewEntered(heap, home, freed, created, flight, posted, canceling, cancelledAt, batch, runs, a);
      RegisterOwners(heap, active, home, freed, created, flight, posted, a);
      SetTimeInTime(heap[a].expiration, clock);
      var earliestChanged := Insert(a);
      posted := posted - {a};
      if earliestChanged {
        alarm := SetTime(HowMuchTimeFromNow(heap[a].expiration, clock), clock);
      }
    }

    /** The timer named by the handle is live and the loop has added it. */
    ghost predicate Added(id: Handle)
      reads this
    {
      id.timer in heap && heap[id.timer].sequence == id.sequence && id.timer !in posted
    }

    /** A registered timer is cancelled: out of both indexes, and freed. */
    method Unregister(id: Handle)
      requires Valid() && id in active
      modifies `heap, `timers, `active, `freed, `cancelledAt
      ensures Valid()
      ensures id.timer in old(heap) && old(heap)[id.timer].sequence == id.sequence && id.timer !in posted && id.timer !in flight
      ensures heap == old(heap) - {id.timer} && active == old(active) - {id}
      ensures timers == Erased(old(timers), Entry(old(heap)[id.timer].expiration, id.timer))
      ensures freed == old(freed) + {id.sequence} && id.sequence !in old(freed)
      ensures cancelledAt == if id.sequence in old(cancelledAt) then old(cancelledAt)
                             else old(cancelledAt)[id.sequence := batch]
      ensures View() == Cancelled(old(View()), id)
    {
      hide ViewOf, Cancelled, Indexes, Ledger, Owners, CancelsHold, Sorted, Erased, Kinds, Justified, InTime;
      ghost var earlier := timers;
      ghost var marked := if id.sequence in cancelledAt then cancelledAt else cancelledAt[id.sequence := batch];
      UnregisterIndexes(heap, timers, active, id);
      UnregisterOwners(heap, active, home, freed, created, flight, posted, id);
      CancelKeeps(cancelledAt, home, freed, flight, canceling, batch, runs, id, freed + {id.sequence});
      FreedKind(heap, repeating, created, id.timer);
      FreeJustified(freed, cancelledAt, marked, repeating, runs, id.sequence);
      ViewFreed(heap, home, freed, created, flight, posted, canceling, cancelledAt, marked, batch, runs, id);
      timers := Erased(timers, Entry(heap[id.timer].expiration, id.timer));
      freed := freed + {heap[id.timer].sequence};
      heap := heap - {id.timer};
      active := active - {id};
      cancelledAt := marked;
      if timers != [] && InTime(alarm, earlier[0].when) {
        InTimeLater(alarm, earlier[0].when, timers[0].when);
      }
    }

    method CancelInLoop(id: Handle)
      requires Valid()
      modifies `heap, `timers, `active, `canceling, `freed, `cancelledAt
      ensures Valid()
      ensures id in old(active) ==>
                && heap == old(heap) - {id.timer} && active == old(active) - {id}
                && timers == Erased(old(timers), Entry(old(heap)[id.timer].expiration, id.timer))
                && freed == old(freed) + {id.sequence} && id.sequence !in old(freed)
                && canceling == old(canceling)
      ensures id !in old(active) ==>
                && heap == old(heap) && active == old(active) && timers == old(timers) && freed == old(freed)
                && canceling == if calling then old(canceling) + {id} else old(canceling)
      ensures cancelledAt == if !old(Added(id)) || id.sequence in old(cancelledAt) then old(cancelledAt)
                             else old(cancelledAt)[id.sequence := batch]
      ensures forall a :: a in flight && a in old(heap) ==> a in heap && heap[a] == old(heap)[a]
      // A handle that does not name a live timer does nothing to any live timer.
      ensures !old(id.timer in heap && heap[id.timer].sequence == id.sequence) ==>
                heap == old(heap) && active == old(active) && timers == old(timers)
      ensures View() == Cancelled(old(View()), id)
      ensures Grew(old(heap), heap, created, created, flight, old(cancelledAt), cancelledAt, old(freed), freed)
    {
      hide ViewOf, Cancelled, Indexes, Ledger, Owners, CancelsHold, Sorted, Erased, Kinds, Justified, Grew;
      ghost var added := Added(id);
      GrewNot(heap, created, flight, cancelledAt, freed);
      if id in active {
        Unregister(id);
        GrewFreed(old(heap), id.timer, created, flight, old(cancelledAt), cancelledAt, old(freed), id.sequence);
      } else {
        LiveHandle(heap, active, home, freed, created, flight, posted, id);
        if !added {
          ViewUnnamed(heap, home, freed, created, flight, posted, canceling, cancelledAt, batch, runs, id);
        }
        if calling {
          if added {
            ghost var marked := if id.sequence in cancelledAt then cancelledAt else cancelledAt[id.sequence := batch];
            CancelKeeps(cancelledAt, home, freed, flight, canceling, batch, runs, id, freed);
            FreeJustified(freed, cancelledAt, marked, repeating, runs, id.sequence);
            ViewMarked(heap, home, freed, created, flight, posted, canceling, cancelledAt, marked, batch, runs, id);
            cancelledAt := marked;
            GrewMarked(heap, created, flight, old(cancelledAt), cancelledAt, freed);
          } else {
            ViewStale(heap, home, freed, created, flight, posted, canceling, cancelledAt, batch, runs, active, id);
            StaleCancelKeeps(cancelledAt, home, freed, flight, canceling, batch, runs, id);
          }
          canceling := canceling + {id};
        }
      }
    }

    /** The second half of getExpired: drops the extracted timers from the index by identity. */
    method DropActive(expired: seq<Entry>)
      requires Indexes(heap, expired + timers, active) && Owners(heap, active, flight, posted) && flight == {}
      modifies `active, `flight
      ensures Indexes(heap, timers, active) && Owners(heap, active, flight, posted)
      ensures flight == TimersOf(expired)
      ensures active <= old(active)
    {
      hide Indexes, Owners;
      var i := 0;
      assert expired[0..] == expired;
      while i < |expired|
        invariant 0 <= i <= |expired|
        invariant Indexes(heap, expired[i..] + timers, active)
        invariant Owners(heap, active, flight, posted)
        invariant flight == TimersOf(expired[..i])
        invariant active <= old(active)
      {
        assert (expired[i..] + timers)[0] == expired[i];
        assert (expired[i..] + timers)[1..] == expired[i + 1..] + timers;
        FirstIsLive(heap, expired[i..] + timers, active);
        var timer := Handle(expired[i].timer, heap[expired[i].timer].sequence);
        ExtractKeeps(heap, expired[i..] + timers, active, flight, posted, timer);
        active := active - {timer};
        flight := flight + {expired[i].timer};
        TimersOfSnoc(expired, i);
        i := i + 1;
      }
      assert expired[..|expired|] == expired;
      assert expired[|expired|..] + timers == timers;
    }

    /** Takes every timer due at `now` out of both indexes, in order of expiration. */
    method GetExpired(now: int) returns (expired: seq<Entry>)
      requires Consistent() && flight == {}
      modifies `timers, `active, `flight
      ensures Indexes(heap, timers, active) && Owners(heap, active, flight, posted)
      ensures expired == Due(old(timers), now)
      ensures |expired| <= |old(timers)| && expired == old(timers)[..|expired|] && timers == old(timers)[|expired|..]
      ensures forall i :: 0 <= i < |expired| ==> expired[i].when <= now
      ensures forall i :: 0 <= i < |timers| ==> now < timers[i].when
      ensures forall i, j :: 0 <= i < j < |expired| ==> expired[i].timer != expired[j].timer
      ensures flight == TimersOf(expired)
      ensures active <= old(active)
    {
      hide Indexes, Owners, Less, Ledger, CancelsHold, InTime, Sorted, Due;
      DistinctTimers(heap, timers, active);
      SplitDue(heap, timers, active, now);
      var k := LowerBound(timers, Entry(now, UINTPTR_MAX));
      expired := timers[..k];
      TakeDrop(timers, k);
      timers := timers[k..];
      DropActive(expired);
    }

    /** Whether an address is free is the same in the table. */
    lemma OccupiedView(c: Command)
      requires Valid()
      ensures c.Add? ==> Commanded(View(), c) == if c.timer in heap then View()
                                                 else Entered(Constructed(View(), c.timer, c.when, c.interval), c.timer)
      ensures c.Construct? ==> Commanded(View(), c) == if c.timer in heap then View()
                                                       else Constructed(View(), c.timer, c.when, c.interval)
      ensures c.Cancel? ==> Commanded(View(), c) == Cancelled(View(), c.id)
    {
      if c.Add? || c.Construct? {
        ViewOccupied(heap, home, freed, created, flight, posted, canceling, cancelledAt, batch, runs, c.timer);
      }
    }

    /** `addTimer` on the loop thread, if the allocator can return the address. */
    method AddHere(a: Addr, when: int, interval: real, clock: int)
      requires Valid() && a < UINTPTR_MAX && clock > 0
      modifies `heap, `created, `timers, `active, `alarm, `posted, `home, `repeating
      ensures Valid()
      ensures Grew(old(heap), heap, old(created), created, flight, old(cancelledAt), cancelledAt, old(freed), freed)
      ensures View() == Commanded(old(View()), Add(a, when, interval, clock))
    {
      hide *;
      OccupiedView(Add(a, when, interval, clock));
      GrewNot(heap, created, flight, cancelledAt, freed);
      if a !in heap {
        GrewNew(heap, a, Timer(when, interval, created + 1), created, flight, cancelledAt, freed);
        var id := NewTimer(a, when, interval);
        AddTimerInLoop(a, clock);
      }
    }

    /** The first half of `addTimer`, on another thread. */
    method ConstructElsewhere(a: Addr, when: int, interval: real)
      requires Valid() && a < UINTPTR_MAX
      modifies `heap, `created, `posted, `home, `repeating
      ensures Valid()
      ensures Grew(old(heap), heap, old(created), created, flight, old(cancelledAt), cancelledAt, old(freed), freed)
      ensures View() == Constructed(old(View()), a, when, interval)
    {
      hide Valid, View, Grew, Constructed, Entered;
      OccupiedView(Construct(a, when, interval));
      GrewNot(heap, created, flight, cancelledAt, freed);
      if a !in heap {
        GrewNew(heap, a, Timer(when, interval, created + 1), created, flight, cancelledAt, freed);
        var id := NewTimer(a, when, interval);
      }
    }

    /** One command of a callback, or a timer constructed by another thread meanwhile. */
    method RunCommand(c: Command)
      requires Valid() && SaneScript([c])
      modifies `heap, `created, `timers, `active, `canceling, `alarm, `posted, `home, `freed
      modifies `cancelledAt, `repeating
      ensures Valid()
      ensures Grew(old(heap), heap, old(created), created, flight, old(cancelledAt), cancelledAt, old(freed), freed)
      ensures View() == Commanded(old(View()), c)
    {
      assert [c][0] == c;
      hide Valid, View, Grew, Constructed, Cancelled;
      match c {
        case Cancel(id) => CancelInLoop(id);
        case Add(a, when, interval, clock) => AddHere(a, when, interval, clock);
        case Construct(a, when, interval) => ConstructElsewhere(a, when, interval);
      }
    }

    lemma ViewIsCoherent()
      requires Valid()
      ensures Coherent(View())
      ensures View().cancelled == cancelledAt.Keys && View().flying == NumbersAt(heap, home, freed, flight)
      ensures forall id :: View().Names(id) <==> Added(id)
    {
      ViewCoherent(heap, active, home, freed, created, flight, posted, canceling, cancelledAt, batch, runs);
      forall id ensures View().Names(id) <==> Added(id) {
        ViewNames(heap, home, freed, created, flight, posted, canceling, cancelledAt, batch, runs, id);
      }
    }

    /**
     * One callback: any sequence of additions and cancellations.  A timer it
     * cancels is cancelled, and one that was added stays added or is cancelled.
     */
    method RunCallback(script: seq<Command>)
      requires Valid()
      requires SaneScript(script)
      modifies `heap, `created, `timers, `active, `canceling, `alarm, `posted, `home, `freed
      modifies `cancelledAt, `repeating
      ensures Valid()
      ensures Grew(old(heap), heap, old(created), created, flight, old(cancelledAt), cancelledAt, old(freed), freed)
      ensures View() == Scripted(old(View()), script)
      ensures forall j :: 0 <= j < |script| && script[j].Cancel? && old(Added(script[j].id)) ==>
                            script[j].id.sequence in cancelledAt
      ensures forall id :: old(Added(id)) ==> Added(id) || id.sequence in cancelledAt
    {
      ViewIsCoherent();
      ghost var table := View();
      RunCommands(script);
      ViewIsCoherent();
      ScriptKeeps(table, script);
      hide View, Coherent, Kept, Grew, Indexes, Ledger, Owners, CancelsHold, InTime, Kinds, Justified;
      forall j | 0 <= j < |script| && script[j].Cancel? && table.Names(script[j].id)
        ensures script[j].id.sequence in Scripted(table, script).cancelled
      {
        ScriptCancels(table, script, j);
      }
      forall id | table.Names(id) ensures View().Names(id) || id.sequence in View().cancelled {
        NamesKept(table, View(), id);
      }
    }

    method RunCommands(script: seq<Command>)
      requires Valid()
      requires SaneScript(script)
      modifies `heap, `created, `timers, `active, `canceling, `alarm, `posted, `home, `freed
      modifies `cancelledAt, `repeating
      ensures Valid()
      ensures Grew(old(heap), heap, old(created), created, flight, old(cancelledAt), cancelledAt, old(freed), freed)
      ensures View() == Scripted(old(View()), script)
    {
      ScriptEnds(View(), script);
      GrewNot(heap, created, flight, cancelledAt, freed);
      hide View, Valid, Scripted, Commanded, Grew;
      var i := 0;
      while i < |script|
        invariant 0 <= i <= |script| && Valid()
        invariant Grew(old(heap), heap, old(created), created, flight, old(cancelledAt), cancelledAt, old(freed), freed)
        invariant View() == Scripted(old(View()), script[..i])
      {
        ScriptStep(old(View()), script, i);
        ghost var heap0, created0, cancelled0, freed0 := heap, created, cancelledAt, freed;
        RunCommand(script[i]);
        GrewTrans(old(heap), heap0, heap, old(created), created0, created, flight, old(cancelledAt), cancelled0,
                  cancelledAt, old(freed), freed0, freed);
        i := i + 1;
      }
    }

    /** `restart` and `insert` of a timer of the batch. */
    method Rearm(a: Addr, now: int)
      requires Consistent() && a in flight && now > 0
      requires a in heap && heap[a].Repeat() && Handle(a, heap[a].sequence) !in canceling
      modifies `heap, `timers, `active, `flight
      ensures Consistent() && flight == old(flight) - {a}
      ensures heap == old(heap)[a := old(heap)[a].Restarted(now)]
      ensures Micros(heap[a].expiration - now, old(heap)[a].interval)
      ensures active == old(active) + {Handle(a, heap[a].sequence)}
      ensures timers != [] && (timers[0].when > 0 || (old(timers) != [] && timers[0].when == old(timers)[0].when))
    {
      hide Indexes, Ledger, Owners, CancelsHold, Sorted, Inserted, Kinds, Justified, Micros;
      RestartedKind(heap, repeating, created, a, now);
      LedgerAt(heap, active, home, freed, created, flight, posted, a);
      var timer := Handle(a, heap[a].sequence);
      LandKeeps(cancelledAt, home, freed, flight, canceling, batch, runs, timer, freed);
      RestartKeeps(heap, timers, active, home, freed, created, flight, posted, a, now);
      RestartIsLater(heap[a], now);
      heap := heap[a := heap[a].Restarted(now)];
      var _ := Insert(a);
      flight := flight - {a};
    }

    /** `delete` of a timer of the batch. */
    method Discard(a: Addr)
      requires Consistent() && a in flight && a in heap
      requires heap[a].sequence in cancelledAt || (!heap[a].Repeat() && Ran(runs, heap[a].sequence))
      modifies `heap, `flight, `freed
      ensures Consistent() && flight == old(flight) - {a}
      ensures heap == old(heap) - {a}
      ensures freed == old(freed) + {old(heap)[a].sequence} && old(heap)[a].sequence !in old(freed)
    {
      hide Indexes, Ledger, Owners, CancelsHold, Sorted, Kinds, Justified;
      LedgerAt(heap, active, home, freed, created, flight, posted, a);
      var timer := Handle(a, heap[a].sequence);
      LandKeeps(cancelledAt, home, freed, flight, canceling, batch, runs, timer, freed + {timer.sequence});
      KindAt(heap, repeating, created, a);
      FreedKind(heap, repeating, created, a);
      FreeJustified(freed, cancelledAt, cancelledAt, repeating, runs, timer.sequence);
      FreeKeeps(heap, timers, active, home, freed, created, flight, posted, a);
      freed := freed + {heap[a].sequence};
      heap := heap - {a};
      flight := flight - {a};
    }

    /** What becomes of one timer of the batch. */
    method Settle(a: Addr, now: int)
      requires Consistent() && a in flight && a in heap && now > 0 && Ran(runs, heap[a].sequence)
      modifies `heap, `timers, `active, `flight, `freed
      ensures Consistent() && flight == old(flight) - {a}
      ensures Settled(old(heap)[a], a, now, Handle(a, old(heap)[a].sequence) !in canceling, heap, active, freed)
      ensures forall b :: b != a ==> (b in heap <==> b in old(heap)) && (b in heap ==> heap[b] == old(heap)[b])
      ensures old(active) <= active && old(freed) <= freed
      ensures timers != [] && timers[0].when <= 0 ==> old(timers) != [] && timers[0].when == old(timers)[0].when
    {
      hide Indexes, Ledger, Owners, CancelsHold, Kinds, Justified, Ran;
      LedgerAt(heap, active, home, freed, created, flight, posted, a);
      var timer := Handle(a, heap[a].sequence);
      if heap[a].Repeat() && timer !in canceling {
        Rearm(a, now);
      } else {
        if timer in canceling {
          MarkedIsCancelled(cancelledAt, home, freed, flight, canceling, batch, runs, timer);
        }
        Discard(a);
      }
    }

    /** The end of reset: the alarm for the earliest timer, if that has a time. */
    method ArmNext(clock: int)
      requires Consistent() && !calling && flight == {} && clock > 0
      requires timers != [] && timers[0].when <= 0 ==> InTime(alarm, timers[0].when)
      modifies `alarm
      ensures Valid()
    {
      hide Indexes, Ledger, Owners, CancelsHold, InTime, Kinds, Justified;
      NothingLeft(heap, timers, active);
      var nextExpire := 0;
      if timers != [] {
        nextExpire := heap[timers[0].timer].expiration;
      }
      if nextExpire > 0 {
        alarm := SetTime(HowMuchTimeFromNow(nextExpire, clock), clock);
        SetTimeInTime(nextExpire, clock);
      }
    }

    /** The loop of reset: re-arms or frees the timers of the batch. */
    method SettleAll(expired: seq<Entry>, now: int)
      requires Consistent() && flight == TimersOf(expired) && now > 0
      requires forall i, j :: 0 <= i < j < |expired| ==> expired[i].timer != expired[j].timer
      requires timers != [] && timers[0].when <= 0 ==> InTime(alarm, timers[0].when)
      requires forall i :: 0 <= i < |expired| ==>
                 expired[i].timer in heap && Ran(runs, heap[expired[i].timer].sequence)
      modifies `heap, `timers, `active, `flight, `freed
      ensures Consistent() && flight == {}
      ensures timers != [] && timers[0].when <= 0 ==> InTime(alarm, timers[0].when)
      ensures forall a :: a !in TimersOf(expired) ==>
                (a in heap <==> a in old(heap)) && (a in heap ==> heap[a] == old(heap)[a])
      ensures forall i :: 0 <= i < |expired| ==>
                var a := expired[i].timer;
                a in old(heap)
                && Settled(old(heap)[a], a, now, Handle(a, old(heap)[a].sequence) !in canceling, heap, active, freed)
      ensures old(freed) <= freed
    {
      hide Indexes, Ledger, Owners, CancelsHold, InTime, TimersOf, Kinds, Justified, Ran, Consistent;
      var i := 0;
      assert expired[0..] == expired;
      while i < |expired|
        invariant 0 <= i <= |expired|
        invariant Consistent() && flight == TimersOf(expired[i..])
        invariant forall j :: i <= j < |expired| ==>
                    var a := expired[j].timer;
                    (a in heap <==> a in old(heap)) && (a in heap ==> heap[a] == old(heap)[a])
        invariant forall j :: 0 <= j < i ==>
                    var a := expired[j].timer;
                    a in old(heap)
                    && Settled(old(heap)[a], a, now, Handle(a, old(heap)[a].sequence) !in canceling, heap, active, freed)
        invariant timers != [] && timers[0].when <= 0 ==> InTime(alarm, timers[0].when)
        invariant old(freed) <= freed
        invariant forall a :: a !in TimersOf(expired) ==>
                    (a in heap <==> a in old(heap)) && (a in heap ==> heap[a] == old(heap)[a])
      {
        TimersOfRest(expired, i);
        InTimersOf(expired, i);
        var it := expired[i].timer;
        Settle(it, now);
        i := i + 1;
      }
      assert expired[|expired|..] == [];
      NothingInFlight();
    }

    /** Re-arms or frees the timers of the batch, then re-arms the timerfd. */
    method Reset(expired: seq<Entry>, now: int, clock: int)
      requires Consistent() && !calling && flight == TimersOf(expired) && now > 0 && clock > 0
      requires timers != [] && timers[0].when <= 0 ==> InTime(alarm, timers[0].when)
      requires BatchRun(heap, expired, runs)
      modifies `heap, `timers, `active, `flight, `freed, `alarm
      ensures Valid()
      ensures AllSettled(old(heap), heap, TimersOf(expired), canceling, active, freed, now)
      ensures old(freed) <= freed
      ensures View() == Finished(old(View()), now)
    {
      ghost var heap0, active0, freed0, flight0 := heap, active, freed, flight;
      hide Indexes, Ledger, Owners, CancelsHold, InTime, TimersOf, Kinds, Justified, Ran, Settled, ViewOf, Finished;
      SettleAll(expired, now);
      SettledSet(heap0, heap, expired, canceling, active, freed, now);
      ViewFinished(heap0, heap, active0, active, home, freed0, freed, created, flight0, posted, canceling,
                   cancelledAt, batch, runs, now);
      ArmNext(clock);
    }

    /** The run of one timer of the batch, and its callback. */
    method RunOne(a: Addr, script: seq<Command>)
      requires Valid() && calling && a in flight && a in heap && SaneScript(script)
      modifies `heap, `created, `timers, `active, `canceling, `alarm, `posted, `home, `freed
      modifies `cancelledAt, `repeating, `runs
      ensures Valid()
      ensures Grew(old(heap), heap, old(created), created, flight, old(cancelledAt), cancelledAt, old(freed), freed)
      ensures runs == old(runs) + [Run(old(heap)[a].sequence, batch)]
      ensures View() == Scripted(old(View()).(ran := RanOf(runs)), script)
      ensures forall j :: 0 <= j < |script| && script[j].Cancel? && old(Added(script[j].id)) ==>
                            script[j].id.sequence in cancelledAt
      ensures forall id :: old(Added(id)) ==> Added(id) || id.sequence in cancelledAt
    {
      hide Indexes, Ledger, Owners, CancelsHold, InTime, Kinds, Justified, Scripted, Grew;
      hide LiveOf, NumbersAt, MarksOf, RanOf;
      LedgerAt(heap, active, home, freed, created, flight, posted, a);
      ghost var s := heap[a].sequence;
      RunKeeps(cancelledAt, home, freed, flight, canceling, batch, runs, s);
      RunJustified(freed, cancelledAt, repeating, runs, Run(s, batch));
      runs := runs + [Run(s, batch)];
      RunCallback(script);
    }

    /** Runs the callback of every extracted timer, in order; each may change the queue. */
    method RunAll(expired: seq<Entry>, scripts: seq<seq<Command>>)
      requires Valid() && calling && flight == TimersOf(expired)
      requires InHeap(heap, expired) && Sane(scripts)
      modifies `heap, `created, `timers, `active, `canceling, `alarm, `posted, `home, `freed
      modifies `cancelledAt, `repeating, `runs
      ensures Valid()
      ensures Grew(old(heap), heap, old(created), created, flight, old(cancelledAt), cancelledAt, old(freed), freed)
      ensures runs == old(runs) + RunsOf(old(heap), expired, batch)
      ensures View() == CalledBack(old(View()), scripts, |expired|).(ran := RanOf(runs))
    {
      hide *;
      GrewNot(heap, created, flight, cancelledAt, freed);
      ViewRan();
      ghost var table, heap0, created0, cancelled0, freed0 := View(), heap, created, cancelledAt, freed;
      ghost var all := RunsOf(heap, expired, batch);
      CalledNone(table, scripts);
      ghost var runs0 := runs;
      InTimers(expired);
      RunToNext(runs0, all, 0, runs);
      var i := 0;
      while i < |expired|
        invariant 0 <= i <= |expired| && Valid()
        invariant Grew(heap0, heap, created0, created, flight, cancelled0, cancelledAt, freed0, freed)
        invariant RunTo(runs0, all, i, runs)
        invariant View() == CalledBack(table, scripts, i).(ran := RanOf(runs))
      {
        RunToNext(runs0, all, i, runs);
        AtIndex(heap0, expired, batch, i);
        RunNext(expired[i].timer, scripts, i, table, heap0, created0, cancelled0, freed0);
        i := i + 1;
      }
      RunToNext(runs0, all, 0, runs);
    }

    lemma AtIndex(heap0: map<Addr, Timer>, expired: seq<Entry>, number: nat, i: nat)
      requires InHeap(heap0, expired) && i < |expired|
      ensures expired[i].timer in heap0
      ensures RunsOf(heap0, expired, number)[i] == Run(heap0[expired[i].timer].sequence, number)
    {
    }

    /** One more callback of the batch. */
    method RunNext(a: Addr, scripts: seq<seq<Command>>, i: nat, ghost table: Table, ghost heap0: map<Addr, Timer>,
                   ghost created0: nat, ghost cancelled0: map<nat, nat>, ghost freed0: set<nat>)
      requires Valid() && calling && a in flight && a in heap0 && Sane(scripts)
      requires Grew(heap0, heap, created0, created, flight, cancelled0, cancelledAt, freed0, freed)
      requires View() == CalledBack(table, scripts, i).(ran := RanOf(runs))
      modifies `heap, `created, `timers, `active, `canceling, `alarm, `posted, `home, `freed
      modifies `cancelledAt, `repeating, `runs
      ensures Valid() && runs == old(runs) + [Run(heap0[a].sequence, batch)]
      ensures Grew(heap0, heap, created0, created, flight, cancelled0, cancelledAt, freed0, freed)
      ensures View() == CalledBack(table, scripts, i + 1).(ran := RanOf(runs))
    {
      InFlight(heap0, heap, created0, created, cancelled0, cancelledAt, freed0, freed, a);
      var script := if i < |scripts| then scripts[i] else [];
      assert SaneScript(script);
      hide Valid, View, CalledBack, Scripted, RanOf, Grew, Added;
      CalledStep(table, scripts, i, RanOf(runs + [Run(heap0[a].sequence, batch)]), script);
      ghost var heap1, created1, cancelled1, freed1 := heap, created, cancelledAt, freed;
      RunOne(a, script);
      GrewTrans(heap0, heap1, heap, created0, created1, created, flight, cancelled0, cancelled1, cancelledAt,
                freed0, freed1, freed);
    }

    lemma InFlight(heap0: map<Addr, Timer>, heap1: map<Addr, Timer>, created0: nat, created1: nat,
                   cancelled0: map<nat, nat>, cancelled1: map<nat, nat>, freed0: set<nat>, freed1: set<nat>, a: Addr)
      requires Grew(heap0, heap1, created0, created1, flight, cancelled0, cancelled1, freed0, freed1)
      requires a in flight && a in heap0
      ensures a in heap1 && heap1[a] == heap0[a]
    {
    }

    lemma ViewRan()
      ensures View().ran == RanOf(runs)
    {
    }

    /** The timerfd is read and a batch begins: what is due is extracted, and nothing is marked. */
    method StartBatch(now: int) returns (expired: seq<Entry>)
      requires Valid() && !calling && now > 0
      modifies `alarm, `timers, `active, `flight, `calling, `canceling, `batch
      ensures Valid() && calling && batch == old(batch) + 1
      ensures expired == Due(old(timers), now) && flight == TimersOf(expired)
      ensures BatchLive(heap, expired, freed, cancelledAt)
      ensures View() == Started(old(View()), now) && |View().flying| == |expired|
      ensures View().flying == RanOf(RunsOf(heap, expired, batch))
    {
      hide Indexes, Ledger, Owners, CancelsHold, InTime, Due, TimersOf, Kinds, Justified, ViewOf, RanOf, RunsOf;
      alarm := Disarmed;              // readTimerfd: a one-shot alarm
      ghost var timers0, active0 := timers, active;
      expired := GetExpired(now);
      RestLater(timers0, |expired|, timers, now);
      ViewStarted(heap, timers0, active0, home, freed, created, posted, canceling, cancelledAt, batch, runs, expired, now);
      FlightIsLive(heap, active, home, freed, created, flight, posted, expired);
      BatchStarts(cancelledAt, home, freed, canceling, batch, runs, flight);
      calling := true;
      canceling := {};
      batch := batch + 1;
    }

    /** The first half of handleRead: what is due is extracted and its callbacks run. */
    method CallExpired(now: int, scripts: seq<seq<Command>>) returns (expired: seq<Entry>)
      requires Valid() && !calling && now > 0 && Sane(scripts)
      modifies this
      ensures Consistent() && !calling && batch == old(batch) + 1
      ensures timers != [] && timers[0].when <= 0 ==> InTime(alarm, timers[0].when)
      ensures expired == Due(old(timers), now) && flight == TimersOf(expired)
      ensures BatchCalled(old(heap), heap, old(created), created, old(runs), runs, old(cancelledAt), cancelledAt,
                          old(freed), freed, canceling, expired, batch)
      ensures View() == Called(old(View()), now, scripts)
    {
      hide *;
      ghost var table := View();
      ViewBefore(now);
      expired := StartBatch(now);
      CallStarted(expired, now, scripts, table);
      EndCalls();
    }

    /** The callbacks of a batch that has been extracted. */
    method CallStarted(expired: seq<Entry>, now: int, scripts: seq<seq<Command>>, ghost table: Table)
      requires Valid() && calling && flight == TimersOf(expired) && Sane(scripts)
      requires BatchLive(heap, expired, freed, cancelledAt)
      requires Coherent(table) && table.flying == {} && table.ran == RanOf(runs) && View() == Started(table, now)
      requires |table.Due(now)| == |expired| && table.Due(now) == RanOf(RunsOf(heap, expired, batch))
      modifies `heap, `created, `timers, `active, `canceling, `alarm, `posted, `home, `freed
      modifies `cancelledAt, `repeating, `runs
      ensures Valid()
      ensures BatchCalled(old(heap), heap, old(created), created, old(runs), runs, old(cancelledAt), cancelledAt,
                          old(freed), freed, canceling, expired, batch)
      ensures View() == Called(table, now, scripts)
    {
      hide *;
      ghost var heap0, runs0, freed0, created0, cancelled0 := heap, runs, freed, created, cancelledAt;
      LiveBatch(heap, expired, freed, cancelledAt);
      RunAll(expired, scripts);
      BatchReady(heap0, created0, cancelled0, freed0, runs0, expired);
      BatchTable(table, now, scripts, runs0, runs, heap0, expired, batch);
    }

    lemma BatchTable(table: Table, now: int, scripts: seq<seq<Command>>, runs0: seq<Run>, runs1: seq<Run>,
                     heap0: map<Addr, Timer>, expired: seq<Entry>, number: nat)
      requires Coherent(table) && table.flying == {} && table.ran == RanOf(runs0)
      requires |table.Due(now)| == |expired| && table.Due(now) == RanOf(RunsOf(heap0, expired, number))
      requires runs1 == runs0 + RunsOf(heap0, expired, number)
      ensures CalledBack(Started(table, now), scripts, |expired|).(ran := RanOf(runs1)) == Called(table, now, scripts)
    {
      RanAdds(runs0, RunsOf(heap0, expired, number));
      CalledIs(table, now, scripts, |expired|, RanOf(runs1));
    }

    lemma LiveBatch(heap0: map<Addr, Timer>, expired: seq<Entry>, freed0: set<nat>, cancelled0: map<nat, nat>)
      requires BatchLive(heap0, expired, freed0, cancelled0)
      ensures InHeap(heap0, expired)
    {
    }

    lemma RunsOfLive(runs0: seq<Run>, runs1: seq<Run>, heap0: map<Addr, Timer>, expired: seq<Entry>, number: nat,
                     cancelled0: map<nat, nat>, freed0: set<nat>)
      requires BatchLive(heap0, expired, freed0, cancelled0)
      requires runs1 == runs0 + RunsOf(heap0, expired, number)
      ensures NotCancelled(runs0, runs1, cancelled0)
    {
      RunsAreOf(heap0, expired, number, cancelled0, freed0);
    }

    /** The table between batches. */
    lemma ViewBefore(now: int)
      requires Valid() && !calling
      ensures Coherent(View()) && View().flying == {} && View().ran == RanOf(runs)
      ensures Started(View(), now).flying == View().Due(now)
    {
      ViewIsCoherent();
      NoneFlying();
      ViewRan();
      FlyingStarted(View(), now);
    }

    lemma BatchReady(heap0: map<Addr, Timer>, created0: nat, cancelled0: map<nat, nat>, freed0: set<nat>, runs0: seq<Run>,
                     expired: seq<Entry>)
      requires Valid() && flight == TimersOf(expired)
      requires Grew(heap0, heap, created0, created, flight, cancelled0, cancelledAt, freed0, freed)
      requires BatchLive(heap0, expired, freed0, cancelled0)
      requires runs == runs0 + RunsOf(heap0, expired, batch)
      ensures BatchCalled(heap0, heap, created0, created, runs0, runs, cancelled0, cancelledAt, freed0, freed,
                          canceling, expired, batch)
    {
      hide Grew, TimersOf, RunsOf, Ran, NotCancelled;
      RunsOfLive(runs0, runs, heap0, expired, batch, cancelled0, freed0);
      InFlights(heap0, heap, created0, created, cancelled0, cancelledAt, freed0, freed, expired);
      BatchRan(runs0, heap0, expired, batch);
      MarksAre(expired);
    }

    lemma InFlights(heap0: map<Addr, Timer>, heap1: map<Addr, Timer>, created0: nat, created1: nat,
                    cancelled0: map<nat, nat>, cancelled1: map<nat, nat>, freed0: set<nat>, freed1: set<nat>,
                    expired: seq<Entry>)
      requires Grew(heap0, heap1, created0, created1, flight, cancelled0, cancelled1, freed0, freed1)
      requires flight == TimersOf(expired) && forall i :: 0 <= i < |expired| ==> expired[i].timer in heap0
      ensures forall i :: 0 <= i < |expired| ==>
                expired[i].timer in heap1 && heap1[expired[i].timer] == heap0[expired[i].timer]
    {
      InTimers(expired);
    }

    /** The timerfd is readable: run what is due, then re-arm. */
    method RunBatch(now: int, scripts: seq<seq<Command>>, clock: int)
      requires Valid() && !calling && now > 0 && clock > 0
      requires Sane(scripts)
      modifies this
      ensures Valid() && !calling && batch == old(batch) + 1
      ensures BatchDid(old(heap), heap, old(created), created, old(runs), runs, old(cancelledAt), cancelledAt,
                       old(freed), freed, active, Due(old(timers), now), batch, now)
      ensures View() == Fired(old(View()), now, scripts)
    {
      ghost var heap0, created0, runs0, cancelled0, freed0 := heap, created, runs, cancelledAt, freed;
      FiredParts(View(), now, scripts);
      hide *;
      var expired := CallExpired(now, scripts);
      ghost var heap1, freed1 := heap, freed;
      CalledRun(heap0, heap1, created0, created, runs0, runs, cancelled0, cancelledAt, freed0, freed1, canceling,
                expired, batch);
      Reset(expired, now, clock);
      BatchLeaves(heap0, heap1, heap, created0, created, runs0, runs, cancelled0, cancelledAt, freed0, freed1, freed,
                  active, canceling, expired, batch, now);
    }

    lemma FiredParts(t: Table, now: int, scripts: seq<seq<Command>>)
      ensures Fired(t, now, scripts) == Finished(Called(t, now, scripts), now)
    {
    }

    /** `callingExpiredTimers_ = false`. */
    method EndCalls()
      requires Valid() && calling
      modifies `calling
      ensures Consistent() && !calling && View() == old(View())
      ensures timers != [] && timers[0].when <= 0 ==> InTime(alarm, timers[0].when)
    {
      hide ViewOf, InTime, Indexes, Ledger, Owners, CancelsHold, Kinds, Justified;
      calling := false;
    }

    lemma MarksAre(expired: seq<Entry>)
      requires Valid() && flight == TimersOf(expired)
      ensures forall i :: 0 <= i < |expired| ==>
                var a := expired[i].timer;
                a in heap && (Handle(a, heap[a].sequence) in canceling <==> heap[a].sequence in cancelledAt)
    {
      MarksAreCancels(heap, active, home, freed, created, flight, posted, cancelledAt, canceling, batch, runs, expired);
    }

    lemma FlyingStarted(t: Table, now: int)
      ensures Started(t, now).flying == t.Due(now) && Started(t, now).ran == t.ran
    {
    }

    /** A timer that is gone from the table has been freed. */
    lemma GoneIsFreed(s: nat)
      requires Valid() && s in View().cancelled && s !in View().live
      ensures s in freed && s in cancelledAt
    {
    }

    /** What one alarm does, and that it ends every timer a callback of its batch cancels. */
    method HandleRead(now: int, scripts: seq<seq<Command>>, clock: int)
      requires Valid() && !calling && now > 0 && clock > 0
      requires Sane(scripts)
      modifies this
      ensures Valid() && !calling && batch == old(batch) + 1
      ensures BatchDid(old(heap), heap, old(created), created, old(runs), runs, old(cancelledAt), cancelledAt,
                       old(freed), freed, active, Due(old(timers), now), batch, now)
      ensures View() == Fired(old(View()), now, scripts)
      // A repeating timer is due again one interval from now, in whole microseconds, and any other is freed.
      ensures forall i :: 0 <= i < |Due(old(timers), now)| ==>
                AgainOrFreed(old(heap), Due(old(timers), now)[i].timer, heap, active, freed, cancelledAt, now)
      // Whatever a callback that ran cancels is freed, be it the callback's own timer.
      ensures forall i, j :: 0 <= i < |Due(old(timers), now)| && i < |scripts| && 0 <= j < |scripts[i]|
                && scripts[i][j].Cancel? && old(Added(scripts[i][j].id))
                ==> scripts[i][j].id.sequence in freed && scripts[i][j].id.sequence in cancelledAt
    {
      ViewIsCoherent();
      ghost var table := View();
      DueSize(now);
      ghost var heap0, created0, runs0, cancelled0, freed0, due := heap, created, runs, cancelledAt, freed, Due(timers, now);
      hide *;
      RunBatch(now, scripts, clock);
      DidAgain(heap0, heap, created0, created, runs0, runs, cancelled0, cancelledAt, freed0, freed, active, due, batch, now);
      forall i, j | 0 <= i < |Due(old(timers), now)| && i < |scripts| && 0 <= j < |scripts[i]|
                && scripts[i][j].Cancel? && table.Names(scripts[i][j].id)
        ensures scripts[i][j].id.sequence in freed && scripts[i][j].id.sequence in cancelledAt
      {
        FireCancels(table, now, scripts, i, j);
        GoneIsFreed(scripts[i][j].id.sequence);
      }
    }

    lemma DueSize(now: int)
      requires Valid() && !calling
      ensures |View().Due(now)| == |Due(timers, now)| && View().flying == {}
    {
      hide Less, LowerBound;
      DistinctTimers(heap, timers, active);
      SplitDue(heap, timers, active, now);
      var expired := timers[..LowerBound(timers, Entry(now, UINTPTR_MAX))];
      BatchIsDue(heap, timers, active, home, freed, created, posted, expired, now, View());
      hide Indexes, Owners, TimersOf, RanOf;
      BatchSize(heap, home, expired, View().Due(now));
    }

    /** Between batches, a timer that was not cancelled and, unless it repeats, has not run is still there. */
    lemma StillThere(s: nat)
      requires Valid() && !calling && 1 <= s <= created && s !in cancelledAt
      requires s in repeating || !Ran(runs, s)
      ensures s in home && home[s] in heap && heap[home[s]].sequence == s
      ensures Handle(home[s], s) in active || home[s] in posted
    {
      assert s !in freed;
    }

    /** One event between polls. */
    method HandleEvent(e: Event)
      requires Valid() && !calling && Possible(e)
      modifies this
      ensures Valid() && !calling
      ensures Logged(old(runs), runs, old(cancelledAt), cancelledAt, old(freed), freed)
      ensures View() == Happened(old(View()), e)
    {
      hide Valid, View, Constructed, Entered, Cancelled, Fired, Logged, Sane;
      match e {
        case Post(a, when, interval) =>
          PostBetween(a, when, interval);
        case AddPosted(a, clock) =>
          EnterPosted(a, clock);
        case CancelEvent(id) =>
          CancelBetween(id);
        case Fire(now, scripts, clock) =>
          FireBetween(now, scripts, clock);
      }
    }

    method PostBetween(a: Addr, when: int, interval: real)
      requires Valid() && a < UINTPTR_MAX
      modifies `heap, `created, `posted, `home, `repeating
      ensures Valid() && Logged(runs, runs, cancelledAt, cancelledAt, freed, freed)
      ensures View() == Constructed(old(View()), a, when, interval)
    {
      LoggedSame(runs, cancelledAt, cancelledAt, freed, freed);
      hide *;
      ConstructElsewhere(a, when, interval);
    }

    /** The functor of an addition from another thread, if there is one. */
    method EnterPosted(a: Addr, clock: int)
      requires Valid() && clock > 0
      modifies `timers, `active, `posted, `alarm
      ensures Valid() && Logged(runs, runs, cancelledAt, cancelledAt, freed, freed)
      ensures View() == Entered(old(View()), a)
    {
      LoggedSame(runs, cancelledAt, cancelledAt, freed, freed);
      if a in posted {
        hide *;
        AddTimerInLoop(a, clock);
      } else {
        ViewEntered(heap, home, freed, created, flight, posted, canceling, cancelledAt, batch, runs, a);
        assert posted - {a} == posted;
      }
    }

    method CancelBetween(id: Handle)
      requires Valid()
      modifies `heap, `timers, `active, `canceling, `freed, `cancelledAt
      ensures Valid()
      ensures Logged(runs, runs, old(cancelledAt), cancelledAt, old(freed), freed)
      ensures View() == Cancelled(old(View()), id)
    {
      hide Valid, View, Added;
      CancelInLoop(id);
      LoggedSame(runs, old(cancelledAt), cancelledAt, old(freed), freed);
    }

    method FireBetween(now: int, scripts: seq<seq<Command>>, clock: int)
      requires Valid() && !calling && now > 0 && clock > 0 && Sane(scripts)
      modifies this
      ensures Valid() && !calling
      ensures Logged(old(runs), runs, old(cancelledAt), cancelledAt, old(freed), freed)
      ensures View() == Fired(old(View()), now, scripts)
    {
      hide *;
      ghost var heap0, created0, runs0, cancelled0, freed0, due := heap, created, runs, cancelledAt, freed, Due(timers, now);
      HandleRead(now, scripts, clock);
      DidLog(heap0, heap, created0, created, runs0, runs, cancelled0, cancelledAt, freed0, freed, active, due, batch, now);
    }

    /**
     * Any run of the queue keeps it valid, so the alarm is never late and no
     * timer is leaked or freed twice, and does to the timers what the table
     * says; a timer cancelled before it never runs again.
     */
    method Serve(events: seq<Event>)
      requires Valid() && !calling
      requires forall i :: 0 <= i < |events| ==> Possible(events[i])
      modifies this
      ensures Valid() && !calling
      ensures View() == Replay(old(View()), events)
      ensures Logged(old(runs), runs, old(cancelledAt), cancelledAt, old(freed), freed)
      // A cancellation of an added timer frees it, and it has not run since.
      ensures forall k :: 0 <= k < |events| && events[k].CancelEvent? && old(Added(events[k].id)) ==>
                var s := events[k].id.sequence;
                s !in View().live && (s in View().ran ==> s in Replay(old(View()), events[..k]).ran)
    {
      ViewIsCoherent();
      NoneFlying();
      ReplayEnds(View(), events);
      ghost var table, runs0, cancelled0, freed0 := View(), runs, cancelledAt, freed;
      LoggedSame(runs, cancelledAt, cancelledAt, freed, freed);
      hide *;
      var i := 0;
      while i < |events|
        invariant 0 <= i <= |events| && Valid() && !calling
        invariant View() == Replay(table, events[..i])
        invariant Logged(runs0, runs, cancelled0, cancelledAt, freed0, freed)
      {
        ReplayStep(table, events, i);
        ghost var runs1, cancelled1, freed1 := runs, cancelledAt, freed;
        HandleEvent(events[i]);
        LoggedTrans(runs0, runs1, runs, cancelled0, cancelled1, cancelledAt, freed0, freed1, freed);
        i := i + 1;
      }
      forall k | 0 <= k < |events| && events[k].CancelEvent? && table.Names(events[k].id)
        ensures var s := events[k].id.sequence;
                s !in View().live && (s in View().ran ==> s in Replay(table, events[..k]).ran)
      {
        ReplayCancels(table, events, k);
      }
    }

    lemma NoneFlying()
      requires Valid() && !calling
      ensures View().flying == {}
    {
    }
  }
}
