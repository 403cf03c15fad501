/**
 * The event loop: one thread that polls, handles events and then executes the
 * functors that any thread has queued, woken from its poll through an eventfd.
 *
 * A thread that queues a functor pushes it under the mutex and only afterwards
 * writes the eventfd; the loop, the pushes and the writes interleave freely.
 */
module EventLoop {

  type Tid = nat

  /** A nonblocking eventfd refuses a write that would exceed this count. */
  const EVENTFD_MAX: nat := 0xFFFF_FFFF_FFFF_FFFE

  /** Where the loop thread is. */
  datatype Phase =
    | Testing                    // while (!quit_)
    | Polling                    // blocked in poll
    | Handling(wakeup: bool)     // calling active channels; wakeup: the eventfd's is still to come
    | Swapping                   // callingPendingFunctors_ set, before the swap
    | Running                    // between two functors of the batch
    | InFunctor                  // inside a functor
    | Stopped

  datatype Loop<F> = Loop(
    phase: Phase,
    quit: bool,
    calling: bool,               // callingPendingFunctors_
    pending: seq<F>,             // pendingFunctors_
    batch: seq<F>,               // functors swapped out and not yet executed
    eventfd: nat,
    pushed: set<Tid>,            // other threads between push_back and wakeup
    quitting: set<Tid>,          // other threads between quit_ = true and wakeup
    loopPushed: bool,            // the loop thread between push_back and wakeup
    queued: seq<F>,              // history: every functor pushed, in order
    executed: seq<F>)            // history: every functor started, in order

  function Start<F>(): Loop<F> {
    Loop(Testing, false, false, [], [], 0, {}, {}, false, [], [])
  }

  datatype Step<F> =
    // the loop thread
    | Test
    | PollReturns
    | HandleRead
    | HandlerPushes(f: F)
    | EnterPending
    | Swap
    | Execute
    | FunctorPushes(f: F)
    | FunctorWakes
    | FunctorReturns
    | LeavePending
    | LoopQuits
    // any other thread
    | Push(t: Tid, f: F)
    | Wake(t: Tid)
    | Quit(t: Tid)
    | QuitWakes(t: Tid)

  // ------------------------------------------------------------- steps

  /** `wakeup`: the write fails when the counter is full, which leaves it readable. */
  function Bumped(count: nat): nat { if count < EVENTFD_MAX then count + 1 else count }

  function Pushed<F>(s: Loop<F>, f: F): Loop<F> {
    s.(pending := s.pending + [f], queued := s.queued + [f])
  }

  predicate Enabled<F>(s: Loop<F>, step: Step<F>) {
    match step
    case Test => s.phase == Testing
    case PollReturns => s.phase == Polling
    case HandleRead => s.phase == Handling(true)
    case HandlerPushes(_) => s.phase.Handling?
    case EnterPending => s.phase == Handling(false)
    case Swap => s.phase == Swapping
    case Execute => s.phase == Running && s.batch != []
    case FunctorPushes(_) => s.phase == InFunctor && !s.loopPushed
    case FunctorWakes => s.phase == InFunctor && s.loopPushed
    case FunctorReturns => s.phase == InFunctor && !s.loopPushed
    case LeavePending => s.phase == Running && s.batch == []
    case LoopQuits => s.phase.Handling? || s.phase == InFunctor
    case Push(t, _) => t !in s.pushed && t !in s.quitting
    case Wake(t) => t in s.pushed
    case Quit(t) => t !in s.pushed && t !in s.quitting
    case QuitWakes(t) => t in s.quitting
  }

  function Apply<F>(s: Loop<F>, step: Step<F>): Loop<F>
    requires Enabled(s, step)
  {
    match step
    case Test => s.(phase := if s.quit then Stopped else Polling)
    // Level-triggered: a readable eventfd is always among the active channels.
    case PollReturns => s.(phase := Handling(s.eventfd > 0))
    case HandleRead => s.(phase := Handling(false), eventfd := 0)
    case HandlerPushes(f) =>
      // queueInLoop on the loop thread wakes the loop only while it calls functors
      var s' := Pushed(s, f);
      if s.calling then s'.(loopPushed := true) else s'
    case EnterPending => s.(phase := Swapping, calling := true)
    case Swap => s.(phase := Running, batch := s.pending, pending := [])
    case Execute => s.(phase := InFunctor, executed := s.executed + [s.batch[0]], batch := s.batch[1..])
    case FunctorPushes(f) =>
      var s' := Pushed(s, f);
      if s.calling then s'.(loopPushed := true) else s'
    case FunctorWakes => s.(eventfd := Bumped(s.eventfd), loopPushed := false)
    case FunctorReturns => s.(phase := Running)
    case LeavePending => s.(phase := Testing, calling := false)
    case LoopQuits => s.(quit := true)
    case Push(t, f) => Pushed(s, f).(pushed := s.pushed + {t})
    case Wake(t) => s.(eventfd := Bumped(s.eventfd), pushed := s.pushed - {t})
    case Quit(t) => s.(quit := true, quitting := s.quitting + {t})
    case QuitWakes(t) => s.(eventfd := Bumped(s.eventfd), quitting := s.quitting - {t})
  }

  ghost predicate Reaches<F>(s: Loop<F>, steps: seq<Step<F>>, s': Loop<F>)
    decreases |steps|
  {
    if steps == [] then s == s'
    else Enabled(s, steps[0]) && Reaches(Apply(s, steps[0]), steps[1..], s')
  }

  // --------------------------------------------------------- invariant

  /** The eventfd is readable, or a thread that has pushed is still to write it. */
  predicate WakeupComing<F>(s: Loop<F>) {
    s.eventfd > 0 || s.pushed != {} || s.loopPushed
  }

  ghost predicate Inv<F>(s: Loop<F>) {
    && (s.calling <==> s.phase.Swapping? || s.phase.Running? || s.phase.InFunctor?)
    && (s.batch != [] ==> s.phase.Running? || s.phase.InFunctor?)
    && (s.loopPushed ==> s.phase.InFunctor?)
    && s.executed + s.batch + s.pending == s.queued
    // From the swap to the next poll, what was pushed since the swap will wake that poll.
    && (s.phase.Running? || s.phase.InFunctor? || s.phase.Testing? || s.phase.Polling? ==>
          s.pending != [] ==> WakeupComing(s))
    && (s.phase.Polling? && s.quit ==> s.eventfd > 0 || s.quitting != {})
    && (s.phase.Stopped? ==> s.quit)
    && s.eventfd <= EVENTFD_MAX
  }

  lemma StepKeeps<F>(s: Loop<F>, step: Step<F>)
    requires Inv(s) && Enabled(s, step)
    ensures Inv(Apply(s, step))
  {
    match step {
      case Swap =>
        assert s.executed + s.pending + [] == s.executed + [] + s.pending;
      case Execute =>
        assert [s.batch[0]] + s.batch[1..] == s.batch;
        assert s.executed + [s.batch[0]] + s.batch[1..] == s.executed + s.batch;
      case HandlerPushes(f) =>
        assert s.executed + s.batch + (s.pending + [f]) == s.executed + s.batch + s.pending + [f];
      case FunctorPushes(f) =>
        assert s.executed + s.batch + (s.pending + [f]) == s.executed + s.batch + s.pending + [f];
      case Push(t, f) =>
        assert s.executed + s.batch + (s.pending + [f]) == s.executed + s.batch + s.pending + [f];
        assert t in Apply(s, step).pushed;
      case Quit(t) =>
        assert t in Apply(s, step).quitting;
      case _ =>
    }
  }

  lemma {:induction false} RunKeeps<F>(s: Loop<F>, steps: seq<Step<F>>, s': Loop<F>)
    requires Inv(s) && Reaches(s, steps, s')
    ensures Inv(s')
    decreases |steps|
  {
    hide Inv, Apply, Enabled;
    if steps != [] {
      StepKeeps(s, steps[0]);
      RunKeeps(Apply(s, steps[0]), steps[1..], s');
    }
  }

  // -------------------------------------------- what the steps amount to

  function FunctorOf<F>(step: Step<F>): seq<F> {
    match step
    case HandlerPushes(f) => [f]
    case FunctorPushes(f) => [f]
    case Push(_, f) => [f]
    case _ => []
  }

  /** The functors that the steps queue, in order. */
  function FunctorsOf<F>(steps: seq<Step<F>>): seq<F> {
    if steps == [] then [] else FunctorOf(steps[0]) + FunctorsOf(steps[1..])
  }

  predicate Quits<F>(step: Step<F>) { step.LoopQuits? || step.Quit? }

  /** Each functor handed to the loop is queued, and nothing else is. */
  lemma {:induction false} RunQueues<F>(s: Loop<F>, steps: seq<Step<F>>, s': Loop<F>)
    requires Reaches(s, steps, s')
    ensures s'.queued == s.queued + FunctorsOf(steps)
    decreases |steps|
  {
    if steps != [] {
      var next, first := Apply(s, steps[0]), FunctorOf(steps[0]);
      assert s.queued + [] == s.queued;
      assert next.queued == s.queued + first;
      RunQueues(next, steps[1..], s');
      hide Apply, Enabled, FunctorOf;
      assert s.queued + first + FunctorsOf(steps[1..]) == s.queued + (first + FunctorsOf(steps[1..]));
    }
  }

  /** quit_ is set exactly by the calls of quit. */
  lemma {:induction false} RunQuits<F>(s: Loop<F>, steps: seq<Step<F>>, s': Loop<F>)
    requires Reaches(s, steps, s')
    ensures s'.quit <==> s.quit || exists i :: 0 <= i < |steps| && Quits(steps[i])
    decreases |steps|
  {
    if steps != [] {
      var next := Apply(s, steps[0]);
      assert next.quit <==> s.quit || Quits(steps[0]);
      RunQuits(next, steps[1..], s');
      hide Apply, Enabled;
      if i :| 0 <= i < |steps[1..]| && Quits(steps[1..][i]) {
        assert Quits(steps[i + 1]);
      }
      if i :| 0 < i < |steps| && Quits(steps[i]) {
        assert Quits(steps[1..][i - 1]);
      }
    }
  }

  // ------------------------------------------------------ main results

  /**
   * No lost functor and no lost quit, for any number of threads and any
   * schedule: a loop blocked in poll with work or a quit waiting has a readable
   * eventfd, or a thread is on its way to write it.  What has been executed, the
   * rest of the batch and what is pending are exactly the functors queued, in order.
   */
  lemma NothingLost<F>(steps: seq<Step<F>>, s: Loop<F>)
    requires Reaches(Start(), steps, s)
    ensures s.phase.Polling? && s.pending != [] ==> s.eventfd > 0 || s.pushed != {}
    ensures s.phase.Polling? && s.quit ==> s.eventfd > 0 || s.quitting != {}
    ensures s.executed + s.batch + s.pending == s.queued
    ensures s.phase.Polling? || s.phase.Testing? || s.phase.Stopped? ==> s.executed + s.pending == s.queued
    ensures s.queued == FunctorsOf(steps)
  {
    RunKeeps(Start(), steps, s);
    RunQueues(Start(), steps, s);
    assert [] + FunctorsOf(steps) == FunctorsOf(steps);
    if s.phase.Polling? || s.phase.Testing? || s.phase.Stopped? {
      assert s.executed + s.batch == s.executed;
    }
  }

  /** Where the functors q that were queued first are, from a poll on. */
  ghost predicate OnTheirWay<F>(q: seq<F>, s: Loop<F>) {
    match s.phase
    case Polling => q <= s.queued
    case Handling(_) => q <= s.queued
    case Swapping => q <= s.queued
    case Running => q <= s.executed + s.batch
    case InFunctor => q <= s.executed + s.batch
    case Testing => q <= s.executed
    case Stopped => q <= s.executed
  }

  lemma StepOnTheirWay<F>(q: seq<F>, s: Loop<F>, step: Step<F>)
    requires Inv(s) && OnTheirWay(q, s) && Enabled(s, step)
    ensures OnTheirWay(q, Apply(s, step))
  {
    match step {
      case Test =>
        assert s.executed <= s.executed + s.batch + s.pending;
      case Swap =>
        assert s.executed + [] + s.pending == s.executed + s.pending;
      case Execute =>
        assert s.executed + [s.batch[0]] + s.batch[1..] == s.executed + s.batch;
      case LeavePending =>
        assert s.executed + [] == s.executed;
      case _ =>
    }
  }

  lemma {:induction false} RunOnTheirWay<F>(q: seq<F>, s: Loop<F>, steps: seq<Step<F>>, s': Loop<F>)
    requires Inv(s) && OnTheirWay(q, s) && Reaches(s, steps, s')
    ensures OnTheirWay(q, s')
    decreases |steps|
  {
    hide Inv, Apply, Enabled, OnTheirWay;
    if steps != [] {
      StepKeeps(s, steps[0]);
      StepOnTheirWay(q, s, steps[0]);
      RunOnTheirWay(q, Apply(s, steps[0]), steps[1..], s');
    }
  }

  /**
   * In every run: what had been queued when the loop was in a poll has been
   * executed, before anything else, when it tests quit_ the next time, whatever
   * functors and other threads queue meanwhile.
   */
  lemma EveryIterationExecutes<F>(before: seq<Step<F>>, s: Loop<F>, steps: seq<Step<F>>, s': Loop<F>)
    requires Reaches(Start(), before, s) && s.phase == Polling
    requires Reaches(s, steps, s') && (s'.phase == Testing || s'.phase == Stopped)
    ensures s.queued <= s'.executed
  {
    RunKeeps(Start(), before, s);
    RunOnTheirWay(s.queued, s, steps, s');
  }

  predicate OfLoop<F>(step: Step<F>) {
    step.Test? || step.PollReturns? || step.HandleRead? || step.EnterPending? || step.Swap?
    || step.Execute? || step.FunctorReturns? || step.LeavePending?
  }

  /**
   * The loop stops exactly at a test of quit_ after a call of quit; and until
   * then its thread can always take a step.
   */
  lemma StopsIffQuit<F>(steps: seq<Step<F>>, s: Loop<F>)
    requires Reaches(Start(), steps, s)
    ensures s.phase.Stopped? ==> exists i :: 0 <= i < |steps| && Quits(steps[i])
    ensures s.phase.Testing? ==>
              && Enabled(s, Test) && (forall step :: OfLoop(step) && Enabled(s, step) ==> step == Test)
              && Apply(s, Test).phase == if exists i :: 0 <= i < |steps| && Quits(steps[i]) then Stopped else Polling
    ensures !s.phase.Stopped? ==> exists step: Step<F> :: (OfLoop(step) || step.FunctorWakes?) && Enabled(s, step)
    ensures s.phase.Stopped? ==> forall step: Step<F> :: OfLoop(step) || step.FunctorWakes? ==> !Enabled(s, step)
  {
    RunKeeps(Start(), steps, s);
    RunQuits(Start(), steps, s);
    var step: Step<F> :=
      match s.phase
      case Testing => Test
      case Polling => PollReturns
      case Handling(true) => HandleRead
      case Handling(false) => EnterPending
      case Swapping => Swap
      case Running => if s.batch != [] then Execute else LeavePending
      case InFunctor => if s.loopPushed then FunctorWakes else FunctorReturns
      case Stopped => Test;
    assert !s.phase.Stopped? ==> Enabled(s, step);
  }

  /** Handlers, functors and other threads may queue and quit whenever they run. */
  lemma AnyoneMayCall<F>(s: Loop<F>, f: F, t: Tid)
    ensures s.phase.Handling? ==> Enabled(s, HandlerPushes(f))
    ensures s.phase.InFunctor? && !s.loopPushed ==> Enabled(s, FunctorPushes(f))
    ensures var quits: Step<F> := LoopQuits; s.phase.Handling? || s.phase.InFunctor? ==> Enabled(s, quits)
    ensures t !in s.pushed && t !in s.quitting ==> Enabled(s, Push(t, f)) && var quits: Step<F> := Quit(t); Enabled(s, quits)
    ensures var wakes: Step<F> := Wake(t); t in s.pushed ==> Enabled(s, wakes)
    ensures var wakes: Step<F> := QuitWakes(t); t in s.quitting ==> Enabled(s, wakes)
  {
  }

  /** Another thread queues these functors, one by one. */
  lemma {:induction false} QueueAll<F>(s: Loop<F>, fs: seq<F>) returns (steps: seq<Step<F>>, s': Loop<F>)
    requires s.phase == Testing && s.pushed == {} && s.quitting == {} && s.eventfd <= EVENTFD_MAX
    ensures Reaches(s, steps, s')
    ensures exists n: nat :: s' == s.(pending := s.pending + fs, queued := s.queued + fs, eventfd := n) && n <= EVENTFD_MAX
    decreases |fs|
  {
    if fs == [] {
      steps, s' := [], s;
      assert s.pending + [] == s.pending && s.queued + [] == s.queued;
      assert s == s.(pending := s.pending + fs, queued := s.queued + fs, eventfd := s.eventfd);
    } else {
      var s1 := Apply(s, Push(0, fs[0]));
      var s2 := Apply(s1, Wake(0));
      assert s2 == s.(pending := s.pending + [fs[0]], queued := s.queued + [fs[0]], eventfd := Bumped(s.eventfd));
      var rest, end := QueueAll(s2, fs[1..]);
      var n: nat :| end == s2.(pending := s2.pending + fs[1..], queued := s2.queued + fs[1..], eventfd := n)
                    && n <= EVENTFD_MAX;
      steps, s' := [Push(0, fs[0]), Wake(0)] + rest, end;
      assert [fs[0]] + fs[1..] == fs;
      assert s.pending + [fs[0]] + fs[1..] == s.pending + fs && s.queued + [fs[0]] + fs[1..] == s.queued + fs;
      assert steps[1..] == [Wake(0)] + rest && ([Wake(0)] + rest)[1..] == rest;
      assert Reaches(s1, [Wake(0)] + rest, end);
    }
  }

  /** Whatever functors there are, a run from the start executes them, in order. */
  lemma AnyFunctorsRun<F>(fs: seq<F>) returns (steps: seq<Step<F>>, s: Loop<F>)
    ensures Reaches(Start(), steps, s) && s.phase == Testing && s.executed == fs && s.pending == [] && !s.quit
  {
    var head, s1 := QueueAll(Start(), fs);
    assert [] + fs == fs;
    var s2 := Apply(s1, Test);
    var test: seq<Step<F>> := [Test];
    assert Reaches(s2, [], s2) && test[1..] == [] && Reaches(s1, test, s2);
    ReachesTrans(Start(), head, s1, test, s2);
    RunKeeps(Start(), head + test, s2);
    var tail, s3 := IterationExecutesAll(s2);
    ReachesTrans(Start(), head + test, s2, tail, s3);
    steps, s := head + test + tail, s3;
    RunQuits(s2, tail, s3);
  }

  lemma {:induction false} ReachesTrans<F>(a: Loop<F>, p: seq<Step<F>>, b: Loop<F>, q: seq<Step<F>>, c: Loop<F>)
    requires Reaches(a, p, b) && Reaches(b, q, c)
    ensures Reaches(a, p + q, c)
    decreases |p|
  {
    if p == [] {
      assert p + q == q;
    } else {
      ReachesTrans(Apply(a, p[0]), p[1..], b, q, c);
      assert (p + q)[0] == p[0] && (p + q)[1..] == p[1..] + q;
    }
  }

  /** The for loop of doPendingFunctors, when the functors queue nothing. */
  lemma {:induction false} DrainBatch<F>(s: Loop<F>) returns (steps: seq<Step<F>>, s': Loop<F>)
    requires s.phase == Running && !s.loopPushed
    ensures Reaches(s, steps, s') && (forall i :: 0 <= i < |steps| ==> OfLoop(steps[i]))
    ensures s' == s.(executed := s.executed + s.batch, batch := [])
    decreases |s.batch|
  {
    if s.batch == [] {
      steps, s' := [], s;
      assert s.executed + s.batch == s.executed;
    } else {
      var s1 := Apply(s, Execute);
      var s2 := Apply(s1, FunctorReturns);
      var rest, end := DrainBatch(s2);
      steps, s' := [Execute, FunctorReturns] + rest, end;
      assert s.executed + s.batch == s.executed + [s.batch[0]] + s.batch[1..];
      assert Reaches(s1, [FunctorReturns] + rest, end) by {
        assert ([FunctorReturns] + rest)[1..] == rest;
      }
      assert steps[0] == Execute && steps[1..] == [FunctorReturns] + rest;
    }
  }

  /** From the poll to the swap. */
  lemma TakeBatch<F>(s: Loop<F>) returns (steps: seq<Step<F>>, s': Loop<F>)
    requires s.phase == Polling
    ensures Reaches(s, steps, s') && (forall i :: 0 <= i < |steps| ==> OfLoop(steps[i]))
    ensures s' == s.(phase := Running, eventfd := 0, calling := true, batch := s.pending, pending := [])
  {
    var s1 := Apply(s, PollReturns);
    var mid: seq<Step<F>> := [EnterPending, Swap];
    var s2 := s1.(phase := Handling(false), eventfd := 0);
    var s3 := Apply(s2, EnterPending);
    s' := Apply(s3, Swap);
    assert Reaches(s', [], s') && mid[1..] == [Swap] && Reaches(s3, [Swap], s') && Reaches(s2, mid, s');
    if s1.phase == Handling(true) {
      steps := [PollReturns, HandleRead] + mid;
      assert steps[1..] == [HandleRead] + mid && ([HandleRead] + mid)[1..] == mid;
      assert Reaches(s1, [HandleRead] + mid, s');
    } else {
      steps := [PollReturns] + mid;
      assert steps[1..] == mid;
    }
  }

  /**
   * Progress: from a poll, the loop thread's own steps lead back to its test of
   * quit_ with everything that had been queued executed.
   */
  lemma IterationExecutesAll<F>(s: Loop<F>) returns (steps: seq<Step<F>>, s': Loop<F>)
    requires Inv(s) && s.phase == Polling
    ensures Reaches(s, steps, s') && (forall i :: 0 <= i < |steps| ==> OfLoop(steps[i]))
    ensures s'.phase == Testing && s'.executed == s.queued && s'.pending == []
  {
    var head, s1 := TakeBatch(s);
    var body, s2 := DrainBatch(s1);
    s' := Apply(s2, LeavePending);
    var tail: seq<Step<F>> := [LeavePending];
    assert Reaches(s', [], s') && Reaches(s2, tail, s');
    ReachesTrans(s, head, s1, body, s2);
    ReachesTrans(s, head + body, s2, tail, s');
    steps := head + body + tail;
    assert s.executed + s.batch == s.executed;
  }
}
