/**
 * A pool of worker threads fed from one task queue.
 *
 * As in BlockingQueue, what happens under the mutex is one step.  The test of
 * `running_` at the head of a worker's loop happens outside the mutex, so a
 * stop may fall between it and the call of take.
 */
module ThreadPool {
  import opened Monitors

  /** Where a worker is in runInThread. */
  datatype Phase<T> =
    | Checking           // about to test running_
    | Entering           // about to lock the mutex in take
    | Waiting            // inside notEmpty_.wait
    | Busy(task: T)
    | Exited

  datatype Pool<T> = Pool(
    maxQueueSize: nat,           // 0: unbounded
    running: bool,
    queue: seq<T>,
    notEmpty: Condition,         // workers waiting inside take
    notFull: Condition,          // callers waiting inside run
    workers: map<Tid, Phase<T>>,
    offers: map<Tid, T>,         // the task each caller waiting inside run brings
    accepted: seq<T>,            // history: every task pushed, in order
    taken: seq<T>,               // history: every task handed to a worker, in order
    inline: seq<T>)              // history: tasks run by the caller of a pool with no threads
  {
    predicate Full() { maxQueueSize > 0 && |queue| >= maxQueueSize }

    predicate Waits(t: Tid) { t in workers && workers[t].Waiting? }

    function Move(t: Tid, phase: Phase<T>): Pool<T> { this.(workers := workers[t := phase]) }
  }

  /** `start` has created the workers. */
  function Started<T>(maxQueueSize: nat, workers: set<Tid>): Pool<T> {
    Pool(maxQueueSize, true, [], NOBODY, NOBODY, map t | t in workers :: Checking, map[], [], [], [])
  }

  datatype Step<T> =
    | CallRun(t: Tid, task: T, wake: Tid)
    | RetryRun(t: Tid, wake: Tid)
    | SpuriousRun(t: Tid)
    | Check(t: Tid)
    | Take(t: Tid, wake: Tid)
    | RetryTake(t: Tid, wake: Tid)
    | SpuriousTake(t: Tid)
    | Finish(t: Tid)
    | Stop

  // ------------------------------------------------------------- steps

  /** `run` from the moment it holds the mutex. */
  function RunBody<T>(p: Pool<T>, t: Tid, task: T, wake: Tid): Pool<T> {
    if p.Full() then
      p.(notFull := p.notFull.Wait(t), offers := p.offers[t := task])
    else
      p.(queue := p.queue + [task], accepted := p.accepted + [task], offers := p.offers - {t},
         notEmpty := p.notEmpty.Notify(wake))
  }

  /** `take` from the moment it holds the mutex, and the test of the task it returns. */
  function TakeBody<T>(p: Pool<T>, t: Tid, wake: Tid): Pool<T> {
    if p.queue == [] && p.running then
      p.(notEmpty := p.notEmpty.Wait(t)).Move(t, Waiting)
    else if p.queue != [] then
      p.(queue := p.queue[1..], taken := p.taken + [p.queue[0]],
         notFull := if p.maxQueueSize > 0 then p.notFull.Notify(wake) else p.notFull)
       .Move(t, Busy(p.queue[0]))
    else
      p.Move(t, Checking)      // an empty task: nothing to execute
  }

  predicate Enabled<T>(p: Pool<T>, step: Step<T>) {
    match step
    case CallRun(t, _, wake) => t !in p.workers && t !in p.notFull.Threads() && p.notEmpty.MayWake(wake)
    case RetryRun(t, wake) => t in p.notFull.woken && t in p.offers && p.notEmpty.MayWake(wake)
    case SpuriousRun(t) => t in p.notFull.asleep
    case Check(t) => t in p.workers && p.workers[t].Checking?
    case Take(t, wake) => t in p.workers && p.workers[t].Entering? && p.notFull.MayWake(wake)
    case RetryTake(t, wake) => t in p.notEmpty.woken && p.notFull.MayWake(wake)
    case SpuriousTake(t) => t in p.notEmpty.asleep
    case Finish(t) => t in p.workers && p.workers[t].Busy?
    case Stop => true
  }

  function Apply<T>(p: Pool<T>, step: Step<T>): Pool<T>
    requires Enabled(p, step)
  {
    match step
    case CallRun(t, task, wake) =>
      if p.workers == map[] then p.(inline := p.inline + [task]) else RunBody(p, t, task, wake)
    case RetryRun(t, wake) => RunBody(p.(notFull := p.notFull.Resume(t)), t, p.offers[t], wake)
    case SpuriousRun(t) => p.(notFull := p.notFull.Notify(t))
    case Check(t) => p.Move(t, if p.running then Entering else Exited)
    case Take(t, wake) => TakeBody(p, t, wake)
    case RetryTake(t, wake) => TakeBody(p.(notEmpty := p.notEmpty.Resume(t)), t, wake)
    case SpuriousTake(t) => p.(notEmpty := p.notEmpty.Notify(t))
    case Finish(t) => p.Move(t, Checking)
    case Stop => p.(running := false, notEmpty := p.notEmpty.NotifyAll())
  }

  ghost predicate Reaches<T>(p: Pool<T>, steps: seq<Step<T>>, p': Pool<T>)
    decreases |steps|
  {
    if steps == [] then p == p'
    else Enabled(p, steps[0]) && Reaches(Apply(p, steps[0]), steps[1..], p')
  }

  // --------------------------------------------------------- invariant

  /** The workers inside take are those the condition knows; callers of run are not workers. */
  ghost predicate Threads<T>(p: Pool<T>) {
    && Apart(p.notEmpty) && Apart(p.notFull)
    && (forall t :: t in p.notEmpty.Threads() <==> p.Waits(t))
    && p.notFull.Threads() !! p.workers.Keys
    && p.offers.Keys == p.notFull.Threads()
  }

  ghost predicate Fifo<T>(p: Pool<T>) {
    (p.maxQueueSize > 0 ==> |p.queue| <= p.maxQueueSize) && p.taken + p.queue == p.accepted
  }

  ghost predicate Woken<T>(p: Pool<T>, selfTake: nat, selfRun: nat) {
    && (p.notEmpty.asleep != {} ==> p.running && |p.queue| <= |p.notEmpty.woken| + selfTake)
    && (p.notFull.asleep != {} ==>
          p.maxQueueSize > 0 && p.maxQueueSize - |p.queue| <= |p.notFull.woken| + selfRun)
  }

  ghost predicate Inv<T>(p: Pool<T>) {
    Threads(p) && Fifo(p) && Woken(p, 0, 0)
  }

  lemma InitInv<T>(maxQueueSize: nat, workers: set<Tid>)
    ensures Inv(Started<T>(maxQueueSize, workers))
  {
  }

  lemma RunKeepsCounts<T>(p: Pool<T>, t: Tid, task: T, wake: Tid)
    requires Fifo(p) && Woken(p, 0, 1) && Apart(p.notEmpty) && p.notEmpty.MayWake(wake)
    ensures RunBody(p, t, task, wake).maxQueueSize == p.maxQueueSize
    ensures Fifo(RunBody(p, t, task, wake)) && Woken(RunBody(p, t, task, wake), 0, 0)
  {
    if !p.Full() {
      assert p.taken + (p.queue + [task]) == (p.taken + p.queue) + [task];
      NotifyCounts(p.notEmpty, wake);
    }
  }

  lemma TakeKeepsCounts<T>(p: Pool<T>, t: Tid, wake: Tid)
    requires Fifo(p) && Woken(p, 1, 0) && Apart(p.notFull) && p.notFull.MayWake(wake)
    ensures TakeBody(p, t, wake).maxQueueSize == p.maxQueueSize
    ensures Fifo(TakeBody(p, t, wake)) && Woken(TakeBody(p, t, wake), 0, 0)
  {
    if p.queue != [] {
      assert p.taken + [p.queue[0]] + p.queue[1..] == p.taken + p.queue;
      NotifyCounts(p.notFull, wake);
    }
  }

  lemma ThreadsKept<T>(p: Pool<T>, step: Step<T>)
    requires Threads(p) && Enabled(p, step)
    ensures Threads(Apply(p, step))
  {
    if !step.Stop? {
      assert step.t in p.notEmpty.Threads() <==> p.Waits(step.t);
      assert step.t in p.notFull.Threads() ==> step.t !in p.workers.Keys;
    }
    var p' := Apply(p, step);
    forall u ensures u in p'.notEmpty.Threads() <==> p'.Waits(u) {
      assert u in p.notEmpty.Threads() <==> p.Waits(u);
    }
  }

  lemma RunStepKeepsCounts<T>(p: Pool<T>, step: Step<T>)
    requires Apart(p.notEmpty) && Apart(p.notFull) && Fifo(p) && Woken(p, 0, 0) && Enabled(p, step)
    requires step.CallRun? || step.RetryRun? || step.SpuriousRun?
    ensures Fifo(Apply(p, step)) && Woken(Apply(p, step), 0, 0)
    ensures Apply(p, step).maxQueueSize == p.maxQueueSize
  {
    hide RunBody;
    match step {
      case CallRun(t, task, wake) =>
        if p.workers != map[] { RunKeepsCounts(p, t, task, wake); }
      case RetryRun(t, wake) => RunKeepsCounts(p.(notFull := p.notFull.Resume(t)), t, p.offers[t], wake);
      case SpuriousRun(t) => NotifyCounts(p.notFull, t);
    }
  }

  lemma TakeStepKeepsCounts<T>(p: Pool<T>, step: Step<T>)
    requires Apart(p.notEmpty) && Apart(p.notFull) && Fifo(p) && Woken(p, 0, 0) && Enabled(p, step)
    requires step.Take? || step.RetryTake? || step.SpuriousTake?
    ensures Fifo(Apply(p, step)) && Woken(Apply(p, step), 0, 0)
    ensures Apply(p, step).maxQueueSize == p.maxQueueSize
  {
    hide TakeBody;
    match step {
      case Take(t, wake) => TakeKeepsCounts(p, t, wake);
      case RetryTake(t, wake) => TakeKeepsCounts(p.(notEmpty := p.notEmpty.Resume(t)), t, wake);
      case SpuriousTake(t) => NotifyCounts(p.notEmpty, t);
    }
  }

  lemma CountsKept<T>(p: Pool<T>, step: Step<T>)
    requires Apart(p.notEmpty) && Apart(p.notFull) && Fifo(p) && Woken(p, 0, 0) && Enabled(p, step)
    ensures Fifo(Apply(p, step)) && Woken(Apply(p, step), 0, 0)
    ensures Apply(p, step).maxQueueSize == p.maxQueueSize
  {
    match step {
      case CallRun(_, _, _) => RunStepKeepsCounts(p, step);
      case RetryRun(_, _) => RunStepKeepsCounts(p, step);
      case SpuriousRun(_) => RunStepKeepsCounts(p, step);
      case Take(_, _) => TakeStepKeepsCounts(p, step);
      case RetryTake(_, _) => TakeStepKeepsCounts(p, step);
      case SpuriousTake(_) => TakeStepKeepsCounts(p, step);
      case Check(_) =>
      case Finish(_) =>
      case Stop =>
    }
  }

  lemma StepKeeps<T>(p: Pool<T>, step: Step<T>)
    requires Inv(p) && Enabled(p, step)
    ensures Inv(Apply(p, step)) && Apply(p, step).maxQueueSize == p.maxQueueSize
  {
    hide Fifo, Woken, Apply, Enabled;
    ThreadsKept(p, step);
    CountsKept(p, step);
  }

  lemma {:induction false} RunKeeps<T>(p: Pool<T>, steps: seq<Step<T>>, p': Pool<T>)
    requires Inv(p) && Reaches(p, steps, p')
    ensures Inv(p') && p'.maxQueueSize == p.maxQueueSize
    decreases |steps|
  {
    hide Inv, Apply, Enabled;
    if steps != [] {
      StepKeeps(p, steps[0]);
      RunKeeps(Apply(p, steps[0]), steps[1..], p');
    }
  }

  // ------------------------------------------------------ main results

  /**
   * For any number of threads and any schedule: the bound holds, tasks are
   * handed out in the order they were accepted, each once, no sleeping worker
   * is left behind by a queued task, and no sleeping caller by a free slot.
   * Once the pool has been stopped no worker is asleep.
   */
  lemma Correct<T>(maxQueueSize: nat, workers: set<Tid>, steps: seq<Step<T>>, p: Pool<T>)
    requires Reaches(Started(maxQueueSize, workers), steps, p)
    ensures maxQueueSize > 0 ==> |p.queue| <= maxQueueSize
    ensures p.taken + p.queue == p.accepted
    ensures p.notEmpty.asleep != {} && p.queue != [] ==> p.notEmpty.woken != {}
    ensures p.notFull.asleep != {} ==> maxQueueSize > 0
    ensures p.notFull.asleep != {} && |p.queue| < maxQueueSize ==> p.notFull.woken != {}
    ensures !p.running ==> p.notEmpty.asleep == {}
  {
    InitInv<T>(maxQueueSize, workers);
    RunKeeps(Started(maxQueueSize, workers), steps, p);
  }

  /** A caller of run: its task is accepted, or it sleeps with it while the pool is full. */
  lemma RunDelivers<T>(p: Pool<T>, t: Tid, wake: Tid, task: T, step: Step<T>)
    requires Threads(p) && Enabled(p, step) && p.workers != map[]
    requires step == CallRun(t, task, wake) || (step == RetryRun(t, wake) && task == p.offers[t])
    ensures var p' := Apply(p, step);
            && p'.taken == p.taken && p'.inline == p.inline && p'.workers == p.workers && p'.running == p.running
            && if p.maxQueueSize == 0 || |p.queue| < p.maxQueueSize then
                 && p'.queue == p.queue + [task] && p'.accepted == p.accepted + [task] && t !in p'.notFull.Threads()
                 && (p.notEmpty.asleep != {} ==> wake in p'.notEmpty.woken)
               else
                 p'.queue == p.queue && p'.accepted == p.accepted && t in p'.notFull.asleep && p'.offers[t] == task
  {
  }

  /** A worker in take: it has the first task, or it sleeps, or goes back to its loop once the pool has stopped. */
  lemma TakeDelivers<T>(p: Pool<T>, t: Tid, wake: Tid, step: Step<T>)
    requires Threads(p) && Enabled(p, step) && (step == Take(t, wake) || step == RetryTake(t, wake))
    ensures t in p.workers
    ensures var p' := Apply(p, step);
            && p'.accepted == p.accepted && p'.inline == p.inline && p'.running == p.running
            && t in p'.workers && (forall u :: u in p.workers && u != t ==> u in p'.workers && p'.workers[u] == p.workers[u])
            && if p.queue != [] then
                 && p'.taken == p.taken + [p.queue[0]] && p'.queue == p.queue[1..] && p'.workers[t] == Busy(p.queue[0])
                 && (p.maxQueueSize > 0 && p.notFull.asleep != {} ==> wake in p'.notFull.woken)
               else
                 && p'.taken == p.taken && p'.queue == p.queue
                 && if p.running then t in p'.notEmpty.asleep && p'.workers[t] == Waiting else p'.workers[t] == Checking
  {
    assert t in p.notEmpty.Threads() <==> p.Waits(t);
  }

  ghost function Wakeable(c: Condition): (t: Tid)
    ensures c.MayWake(t)
  {
    if c.asleep == {} then 0
    else
      var t :| t in c.asleep;
      t
  }

  /** Exactly the woken threads can go on inside run and take; any that is neither there nor a worker can call run. */
  lemma WhoCanMove<T>(p: Pool<T>, t: Tid, task: T)
    requires Threads(p)
    ensures t in p.notFull.woken <==> exists wake :: Enabled(p, RetryRun(t, wake))
    ensures t in p.notEmpty.woken <==> exists wake :: Enabled(p, RetryTake(t, wake))
    ensures t !in p.workers && t !in p.notFull.Threads() <==> exists wake :: Enabled(p, CallRun(t, task, wake))
    ensures t in p.workers && p.workers[t].Entering? <==> exists wake :: Enabled(p, Take(t, wake))
    ensures t in p.notEmpty.asleep <==> Enabled(p, SpuriousTake(t))
    ensures t in p.notFull.asleep <==> Enabled(p, SpuriousRun(t))
  {
    var worker, caller := Wakeable(p.notEmpty), Wakeable(p.notFull);
    assert Enabled(p, RetryRun(t, worker)) <==> t in p.notFull.woken;
    assert Enabled(p, RetryTake(t, caller)) <==> t in p.notEmpty.woken;
    assert Enabled(p, CallRun(t, task, worker)) <==> t !in p.workers && t !in p.notFull.Threads();
    assert Enabled(p, Take(t, caller)) <==> t in p.workers && p.workers[t].Entering?;
  }

  /** The tasks that the callers of run bring. */
  function TasksOf<T>(steps: seq<Step<T>>): seq<T> {
    if steps == [] then [] else (if steps[0].CallRun? then [steps[0].task] else []) + TasksOf(steps[1..])
  }

  /** A pool without threads runs every task in its caller, in order. */
  lemma {:induction false} InlineRuns<T>(p: Pool<T>, steps: seq<Step<T>>, p': Pool<T>)
    requires Reaches(p, steps, p') && p.workers == map[] && p.notFull == NOBODY && p.notEmpty == NOBODY
    ensures p'.inline == p.inline + TasksOf(steps) && p'.queue == p.queue && p'.accepted == p.accepted
    ensures p'.workers == map[] && p'.notFull == NOBODY && p'.notEmpty == NOBODY
    decreases |steps|
  {
    if steps == [] {
      assert p.inline + [] == p.inline;
    } else {
      var next := Apply(p, steps[0]);
      var first := if steps[0].CallRun? then [steps[0].task] else [];
      assert next.notEmpty == NOBODY && next.workers == map[];
      assert p.inline + [] == p.inline;
      assert next.inline == p.inline + first;
      InlineRuns(next, steps[1..], p');
      hide Apply, Enabled;
      assert p.inline + first + TasksOf(steps[1..]) == p.inline + (first + TasksOf(steps[1..]));
    }
  }

  lemma StepRuns<T>(p: Pool<T>, step: Step<T>)
    requires Inv(p) && Enabled(p, step)
    ensures Apply(p, step).running <==> p.running && !step.Stop?
    ensures Apply(p, step).workers.Keys == p.workers.Keys
  {
    hide Fifo, Woken;
    assert step.RetryTake? ==> p.Waits(step.t);
  }

  /** The pool runs exactly until it is stopped, and its workers stay the same threads. */
  lemma {:induction false} RunsUntilStop<T>(p: Pool<T>, steps: seq<Step<T>>, p': Pool<T>)
    requires Inv(p) && Reaches(p, steps, p')
    ensures p'.running <==> p.running && forall i :: 0 <= i < |steps| ==> !steps[i].Stop?
    ensures p'.workers.Keys == p.workers.Keys
    decreases |steps|
  {
    if steps != [] {
      hide Apply, Enabled, Inv;
      StepKeeps(p, steps[0]);
      StepRuns(p, steps[0]);
      RunsUntilStop(Apply(p, steps[0]), steps[1..], p');
      if i :| 0 <= i < |steps| && steps[i].Stop? {
        assert i > 0 ==> steps[1..][i - 1].Stop?;
      }
      if i :| 0 <= i < |steps[1..]| && steps[1..][i].Stop? {
        assert steps[i + 1].Stop?;
      }
    }
  }

  lemma {:induction false} ReachesTrans<T>(a: Pool<T>, p: seq<Step<T>>, b: Pool<T>, q: seq<Step<T>>, c: Pool<T>)
    requires Reaches(a, p, b) && Reaches(b, q, c)
    ensures Reaches(a, p + q, c)
    decreases |p|
  {
    if p == [] {
      assert p + q == q;
    } else {
      ReachesTrans(Apply(a, p[0]), p[1..], b, q, c);
      assert (p + q)[0] == p[0] && (p + q)[1..] == p[1..] + q;
    }
  }

  /** Whatever tasks there are, a caller and a worker bring them through a running pool. */
  lemma {:induction false} AnyTasksRun<T>(maxQueueSize: nat, workers: set<Tid>, w: Tid, tasks: seq<T>)
    returns (steps: seq<Step<T>>, p: Pool<T>)
    requires w in workers
    ensures Reaches(Started(maxQueueSize, workers), steps, p)
    ensures p == Started(maxQueueSize, workers).(accepted := tasks, taken := tasks)
  {
    var start := Started<T>(maxQueueSize, workers);
    if tasks == [] {
      steps, p := [], start;
    } else {
      var front, last := tasks[..|tasks| - 1], tasks[|tasks| - 1];
      var before, p0 := AnyTasksRun(maxQueueSize, workers, w, front);
      var caller := Above(workers);
      var s1: Step<T> := CallRun(caller, last, 0);
      var s2: Step<T> := Check(w);
      var s3: Step<T> := Take(w, 0);
      var s4: Step<T> := Finish(w);
      var p1 := Apply(p0, s1);
      var p2 := Apply(p1, s2);
      var p3 := Apply(p2, s3);
      p := Apply(p3, s4);
      assert front + [last] == tasks && p1.queue == [last] && p2.queue[1..] == [] && p1.offers == map[];
      assert p.workers == start.workers;
      assert Reaches(p, [], p) && [s4][1..] == [] && Reaches(p3, [s4], p);
      assert [s3, s4][1..] == [s4] && Reaches(p2, [s3, s4], p);
      assert [s2, s3, s4][1..] == [s3, s4] && Reaches(p1, [s2, s3, s4], p);
      assert [s1, s2, s3, s4][1..] == [s2, s3, s4] && Reaches(p0, [s1, s2, s3, s4], p);
      ReachesTrans(start, before, p0, [s1, s2, s3, s4], p);
      steps := before + [s1, s2, s3, s4];
    }
  }

  /** A thread that is no worker. */
  ghost function Above(workers: set<Tid>): (t: Tid)
    ensures forall u :: u in workers ==> u < t
  {
    if workers == {} then 0
    else
      var u :| u in workers;
      var t := Above(workers - {u});
      assert forall v :: v in workers ==> v == u || v in workers - {u};
      if u < t then t else u + 1
  }

  /** How many more steps a worker can take before it exits, once the pool is stopped. */
  function StepsLeft<T>(phase: Phase<T>): nat {
    match phase
    case Exited => 0
    case Checking => 1
    case Busy(_) => 2
    case Entering => 3
    case Waiting => 3
  }

  predicate IsStepOf<T>(step: Step<T>, t: Tid) {
    match step
    case Check(u) => u == t
    case Take(u, _) => u == t
    case RetryTake(u, _) => u == t
    case Finish(u) => u == t
    case _ => false
  }

  function StepsOf<T>(steps: seq<Step<T>>, t: Tid): nat {
    if steps == [] then 0 else (if IsStepOf(steps[0], t) then 1 else 0) + StepsOf(steps[1..], t)
  }

  lemma StoppedStep<T>(p: Pool<T>, step: Step<T>, t: Tid)
    requires Inv(p) && !p.running && t in p.workers && Enabled(p, step)
    ensures !Apply(p, step).running && t in Apply(p, step).workers
    ensures StepsLeft(Apply(p, step).workers[t]) + (if IsStepOf(step, t) then 1 else 0) <= StepsLeft(p.workers[t])
  {
    hide Fifo, Woken;
    assert step.RetryTake? ==> p.Waits(step.t);
  }

  /**
   * `stop` terminates: after it each worker takes at most three more steps,
   * whatever the others do, and a worker that has not exited can always take one.
   */
  lemma {:induction false} StopEnds<T>(p: Pool<T>, steps: seq<Step<T>>, p': Pool<T>, t: Tid)
    requires Inv(p) && !p.running && t in p.workers && Reaches(p, steps, p')
    ensures !p'.running && t in p'.workers
    ensures StepsOf(steps, t) + StepsLeft(p'.workers[t]) <= StepsLeft(p.workers[t]) <= 3
    decreases |steps|
  {
    hide Inv, Apply, Enabled;
    if steps != [] {
      StepKeeps(p, steps[0]);
      StoppedStep(p, steps[0], t);
      StopEnds(Apply(p, steps[0]), steps[1..], p', t);
    }
  }

  lemma StoppedWorkerCanMove<T>(p: Pool<T>, t: Tid) returns (step: Step<T>)
    requires Inv(p) && !p.running && t in p.workers && p.workers[t] != Exited
    ensures IsStepOf(step, t) && Enabled(p, step)
  {
    var wake: Tid := 0;
    if p.notFull.asleep != {} {
      wake :| wake in p.notFull.asleep;
    }
    match p.workers[t] {
      case Checking => step := Check(t);
      case Busy(_) => step := Finish(t);
      case Entering => step := Take(t, wake);
      case Waiting =>
        assert p.Waits(t);
        step := RetryTake(t, wake);
    }
  }
}
