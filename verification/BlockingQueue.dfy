/**
 * A bounded queue shared by any number of producer and consumer threads, under
 * one mutex and two condition variables.
 *
 * Everything a thread does between taking the mutex and either waiting or
 * releasing it is one step, because the mutex makes it so.  A thread that has
 * been woken still has to take the mutex again and may find the queue changed
 * by a thread that overtook it; a sleeping thread may also wake for no reason.
 */
module BlockingQueue {
  import opened Monitors

  datatype Queue<T> = Queue(
    capacity: nat,
    items: seq<T>,
    notEmpty: Condition,
    notFull: Condition,
    offers: map<Tid, T>,         // the value each thread waiting inside put brings
    put: seq<T>,                 // history: every value accepted, in order
    taken: seq<T>)               // history: every value handed out, in order
  {
    predicate Full() { |items| >= capacity }

    function Inside(): set<Tid> { notEmpty.Threads() + notFull.Threads() }
  }

  function Empty<T>(capacity: nat): Queue<T> {
    Queue(capacity, [], NOBODY, NOBODY, map[], [], [])
  }

  /** The woken thread of a notify is chosen by the scheduler: `wake`. */
  datatype Step<T> =
    | CallPut(t: Tid, x: T, wake: Tid)
    | RetryPut(t: Tid, wake: Tid)
    | CallTake(t: Tid, wake: Tid)
    | RetryTake(t: Tid, wake: Tid)
    | SpuriousTake(t: Tid)
    | SpuriousPut(t: Tid)

  // ------------------------------------------------------------- steps

  /** `put` from the moment it holds the mutex. */
  function PutBody<T>(q: Queue<T>, t: Tid, x: T, wake: Tid): Queue<T> {
    if q.Full() then
      q.(notFull := q.notFull.Wait(t), offers := q.offers[t := x])
    else
      q.(items := q.items + [x], put := q.put + [x], offers := q.offers - {t}, notEmpty := q.notEmpty.Notify(wake))
  }

  /** `take` from the moment it holds the mutex. */
  function TakeBody<T>(q: Queue<T>, t: Tid, wake: Tid): Queue<T> {
    if q.items == [] then
      q.(notEmpty := q.notEmpty.Wait(t))
    else
      q.(items := q.items[1..], taken := q.taken + [q.items[0]], notFull := q.notFull.Notify(wake))
  }

  predicate Enabled<T>(q: Queue<T>, step: Step<T>) {
    match step
    case CallPut(t, _, wake) => t !in q.Inside() && q.notEmpty.MayWake(wake)
    case RetryPut(t, wake) => t in q.notFull.woken && t in q.offers && q.notEmpty.MayWake(wake)
    case CallTake(t, wake) => t !in q.Inside() && q.notFull.MayWake(wake)
    case RetryTake(t, wake) => t in q.notEmpty.woken && q.notFull.MayWake(wake)
    case SpuriousTake(t) => t in q.notEmpty.asleep
    case SpuriousPut(t) => t in q.notFull.asleep
  }

  function Apply<T>(q: Queue<T>, step: Step<T>): Queue<T>
    requires Enabled(q, step)
  {
    match step
    case CallPut(t, x, wake) => PutBody(q, t, x, wake)
    case RetryPut(t, wake) => PutBody(q.(notFull := q.notFull.Resume(t)), t, q.offers[t], wake)
    case CallTake(t, wake) => TakeBody(q, t, wake)
    case RetryTake(t, wake) => TakeBody(q.(notEmpty := q.notEmpty.Resume(t)), t, wake)
    case SpuriousTake(t) => q.(notEmpty := q.notEmpty.Notify(t))
    case SpuriousPut(t) => q.(notFull := q.notFull.Notify(t))
  }

  /** q' is reached from q by these steps, each enabled when it is taken. */
  ghost predicate Reaches<T>(q: Queue<T>, steps: seq<Step<T>>, q': Queue<T>)
    decreases |steps|
  {
    if steps == [] then q == q'
    else Enabled(q, steps[0]) && Reaches(Apply(q, steps[0]), steps[1..], q')
  }

  // --------------------------------------------------------- invariant

  ghost predicate Threads<T>(q: Queue<T>) {
    && Apart(q.notEmpty) && Apart(q.notFull)
    && q.notEmpty.Threads() !! q.notFull.Threads()
    && q.offers.Keys == q.notFull.Threads()
  }

  ghost predicate Fifo<T>(q: Queue<T>) {
    |q.items| <= q.capacity && q.taken + q.items == q.put
  }

  /**
   * No lost wakeup.  With a consumer asleep every item has a woken consumer
   * coming for it; with a producer asleep every free slot has a woken producer
   * coming for it.  A thread that holds the mutex counts as `self`.
   */
  ghost predicate Woken<T>(q: Queue<T>, selfTake: nat, selfPut: nat) {
    && (q.notEmpty.asleep != {} ==> |q.items| <= |q.notEmpty.woken| + selfTake)
    && (q.notFull.asleep != {} ==> q.capacity - |q.items| <= |q.notFull.woken| + selfPut)
  }

  ghost predicate Inv<T>(q: Queue<T>) {
    Threads(q) && Fifo(q) && Woken(q, 0, 0)
  }

  lemma InitInv<T>(capacity: nat)
    ensures Inv(Empty<T>(capacity))
  {
  }

  lemma PutKeeps<T>(q: Queue<T>, t: Tid, x: T, wake: Tid)
    requires Fifo(q) && Woken(q, 0, 1) && Apart(q.notEmpty) && q.notEmpty.MayWake(wake)
    ensures Fifo(PutBody(q, t, x, wake)) && Woken(PutBody(q, t, x, wake), 0, 0)
  {
    if !q.Full() {
      assert q.taken + (q.items + [x]) == (q.taken + q.items) + [x];
      NotifyCounts(q.notEmpty, wake);
    }
  }

  lemma TakeKeeps<T>(q: Queue<T>, t: Tid, wake: Tid)
    requires Fifo(q) && Woken(q, 1, 0) && Apart(q.notFull) && q.notFull.MayWake(wake)
    ensures Fifo(TakeBody(q, t, wake)) && Woken(TakeBody(q, t, wake), 0, 0)
  {
    if q.items != [] {
      assert q.taken + [q.items[0]] + q.items[1..] == q.taken + q.items;
      NotifyCounts(q.notFull, wake);
    }
  }

  lemma ThreadsKept<T>(q: Queue<T>, step: Step<T>)
    requires Threads(q) && Enabled(q, step)
    ensures Threads(Apply(q, step))
  {
  }

  lemma StepKeeps<T>(q: Queue<T>, step: Step<T>)
    requires Inv(q) && Enabled(q, step)
    ensures Inv(Apply(q, step)) && Apply(q, step).capacity == q.capacity
  {
    ThreadsKept(q, step);
    match step {
      case CallPut(t, x, wake) => PutKeeps(q, t, x, wake);
      case RetryPut(t, wake) => PutKeeps(q.(notFull := q.notFull.Resume(t)), t, q.offers[t], wake);
      case CallTake(t, wake) => TakeKeeps(q, t, wake);
      case RetryTake(t, wake) => TakeKeeps(q.(notEmpty := q.notEmpty.Resume(t)), t, wake);
      case SpuriousTake(t) => NotifyCounts(q.notEmpty, t);
      case SpuriousPut(t) => NotifyCounts(q.notFull, t);
    }
  }

  lemma {:induction false} RunKeeps<T>(q: Queue<T>, steps: seq<Step<T>>, q': Queue<T>)
    requires Inv(q) && Reaches(q, steps, q')
    ensures Inv(q') && q'.capacity == q.capacity
    decreases |steps|
  {
    hide Inv, Apply, Enabled;
    if steps != [] {
      StepKeeps(q, steps[0]);
      RunKeeps(Apply(q, steps[0]), steps[1..], q');
    }
  }

  // ------------------------------------------------------ main results

  /**
   * For any number of threads and any schedule: the bound holds, values come
   * out in the order they went in, each once, and a sleeping thread is never
   * left behind by work it could do.
   */
  lemma Correct<T>(capacity: nat, steps: seq<Step<T>>, q: Queue<T>)
    requires Reaches(Empty(capacity), steps, q)
    ensures |q.items| <= capacity
    ensures q.taken + q.items == q.put
    ensures q.notEmpty.asleep != {} && q.items != [] ==> q.notEmpty.woken != {}
    ensures q.notFull.asleep != {} && |q.items| < capacity ==> q.notFull.woken != {}
  {
    InitInv<T>(capacity);
    RunKeeps(Empty(capacity), steps, q);
  }

  /** A thread in put: its value is accepted, or it sleeps with it while the queue is full. */
  lemma PutDelivers<T>(q: Queue<T>, t: Tid, wake: Tid, x: T, step: Step<T>)
    requires Threads(q) && Enabled(q, step)
    requires step == CallPut(t, x, wake) || (step == RetryPut(t, wake) && x == q.offers[t])
    ensures var q' := Apply(q, step);
            && q'.taken == q.taken && q'.capacity == q.capacity
            && if |q.items| < q.capacity then
                 && q'.items == q.items + [x] && q'.put == q.put + [x] && t !in q'.Inside()
                 && (q.notEmpty.asleep != {} ==> wake in q'.notEmpty.woken)
               else
                 && q'.items == q.items && q'.put == q.put && t in q'.notFull.asleep && q'.offers[t] == x
  {
  }

  /** A thread in take: it has the first value, or it sleeps while there is none. */
  lemma TakeDelivers<T>(q: Queue<T>, t: Tid, wake: Tid, step: Step<T>)
    requires Threads(q) && Enabled(q, step)
    requires step == CallTake(t, wake) || step == RetryTake(t, wake)
    ensures var q' := Apply(q, step);
            && q'.put == q.put && q'.capacity == q.capacity
            && if q.items != [] then
                 && q'.taken == q.taken + [q.items[0]] && q'.items == q.items[1..] && t !in q'.Inside()
                 && (q.notFull.asleep != {} ==> wake in q'.notFull.woken)
               else
                 && q'.items == q.items && q'.taken == q.taken && t in q'.notEmpty.asleep
  {
  }

  ghost function Wakeable(c: Condition): (t: Tid)
    ensures c.MayWake(t)
  {
    if c.asleep == {} then 0
    else
      var t :| t in c.asleep;
      t
  }

  /** Exactly the woken threads can go on inside put and take, any that sleeps may wake, and all others can call them. */
  lemma WhoCanMove<T>(q: Queue<T>, t: Tid, x: T)
    requires Threads(q)
    ensures t in q.notFull.woken <==> exists wake :: Enabled(q, RetryPut(t, wake))
    ensures t in q.notEmpty.woken <==> exists wake :: Enabled(q, RetryTake(t, wake))
    ensures t in q.Inside() <==> !exists wake :: Enabled(q, CallPut(t, x, wake))
    ensures t in q.Inside() <==> !exists wake :: Enabled(q, CallTake(t, wake))
    ensures t in q.notEmpty.asleep <==> Enabled(q, SpuriousTake(t))
    ensures t in q.notFull.asleep <==> Enabled(q, SpuriousPut(t))
  {
    var consumer, producer := Wakeable(q.notEmpty), Wakeable(q.notFull);
    assert Enabled(q, RetryPut(t, consumer)) <==> t in q.notFull.woken;
    assert Enabled(q, RetryTake(t, producer)) <==> t in q.notEmpty.woken;
    assert Enabled(q, CallPut(t, x, consumer)) <==> t !in q.Inside();
    assert Enabled(q, CallTake(t, producer)) <==> t !in q.Inside();
  }

  lemma {:induction false} ReachesTrans<T>(a: Queue<T>, p: seq<Step<T>>, b: Queue<T>, q: seq<Step<T>>, c: Queue<T>)
    requires Reaches(a, p, b) && Reaches(b, q, c)
    ensures Reaches(a, p + q, c)
    decreases |p|
  {
    if p == [] {
      assert p + q == q;
    } else {
      ReachesTrans(Apply(a, p[0]), p[1..], b, q, c);
      assert (p + q)[0] == p[0] && (p + q)[1..] == p[1..] + q;
    }
  }

  /** The queue after all these values have passed. */
  function Passed<T>(capacity: nat, values: seq<T>): Queue<T> { Empty(capacity).(put := values, taken := values) }

  /** Whatever values there are, a producer and a consumer bring them through a queue with room. */
  lemma {:induction false} AnyValuesPass<T>(capacity: nat, values: seq<T>)
    requires capacity > 0
    ensures exists steps :: Reaches(Empty(capacity), steps, Passed(capacity, values))
  {
    if values == [] {
      assert Reaches(Empty(capacity), [], Passed(capacity, values));
    } else {
      var front, last := values[..|values| - 1], values[|values| - 1];
      AnyValuesPass(capacity, front);
      var before :| Reaches(Empty(capacity), before, Passed(capacity, front));
      var q0 := Passed(capacity, front);
      var put: Step<T> := CallPut(0, last, 0);
      var take: Step<T> := CallTake(1, 0);
      var q1 := Apply(q0, put);
      var q := Apply(q1, take);
      assert q1.items == [last] && front + [last] == values && q1.items[1..] == [];
      assert q.offers == map[];
      assert Reaches(q, [], q) && [put, take][1..] == [take] && [take][1..] == [] && Reaches(q1, [take], q);
      assert Reaches(q0, [put, take], q);
      ReachesTrans(Empty(capacity), before, q0, [put, take], q);
      assert q == Passed(capacity, values) && Reaches(Empty(capacity), before + [put, take], Passed(capacity, values));
    }
  }

  /** Producers and consumers asleep together, with nobody woken to free them. */
  ghost predicate Deadlocked<T>(q: Queue<T>) {
    && q.notEmpty.asleep != {} && q.notFull.asleep != {}
    && q.notEmpty.woken == {} && q.notFull.woken == {}
  }

  ghost predicate CanDeadlock(capacity: nat) {
    exists steps: seq<Step<int>>, q :: Reaches(Empty(capacity), steps, q) && Deadlocked(q)
  }

  /** Such a deadlock can be reached exactly when the capacity is zero. */
  lemma DeadlockIffZeroCapacity(capacity: nat)
    ensures CanDeadlock(capacity) <==> capacity == 0
  {
    if capacity == 0 {
      var q0 := Empty<int>(0);
      var take: Step<int> := CallTake(0, 0);
      var put := CallPut(1, 7, 0);
      var q1 := Apply(q0, take);
      assert Enabled(q1, CallPut(1, 7, 0));
      var q2 := Apply(q1, put);
      assert Reaches(q2, [], q2);
      assert [put][1..] == [] && [take, put][1..] == [put];
      assert Reaches(q1, [put], q2);
      assert 0 in q2.notEmpty.asleep && 1 in q2.notFull.asleep;
      assert Reaches(Empty(capacity), [take, put], q2) && Deadlocked(q2);
    } else {
      forall steps: seq<Step<int>>, q | Reaches(Empty(capacity), steps, q)
        ensures !Deadlocked(q)
      {
        InitInv<int>(capacity);
        RunKeeps(Empty(capacity), steps, q);
      }
    }
  }
}
