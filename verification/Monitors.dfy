/**
 * Condition variables under a mutex, as two sets of threads: those asleep and
 * not yet signalled, and those woken that still have to take the mutex again.
 */
module Monitors {

  type Tid = nat

  datatype Condition = Condition(asleep: set<Tid>, woken: set<Tid>) {

    function Threads(): set<Tid> { asleep + woken }

    /** The scheduler's choice of a thread for a notify: one that is asleep, if any is. */
    predicate MayWake(t: Tid) { asleep != {} ==> t in asleep }

    /** `wait`: the thread, which held the mutex, goes to sleep. */
    function Wait(t: Tid): Condition { this.(asleep := asleep + {t}) }

    /** A woken thread takes the mutex and leaves `wait`. */
    function Resume(t: Tid): Condition { this.(woken := woken - {t}) }

    /** `notify`, and also a spurious wakeup. */
    function Notify(t: Tid): Condition {
      if t in asleep then Condition(asleep - {t}, woken + {t}) else this
    }

    function NotifyAll(): Condition { Condition({}, woken + asleep) }
  }

  const NOBODY := Condition({}, {})

  ghost predicate Apart(c: Condition) { c.asleep !! c.woken }

  lemma NotifyCounts(c: Condition, t: Tid)
    requires Apart(c) && c.MayWake(t)
    ensures Apart(c.Notify(t)) && c.Notify(t).Threads() == c.Threads()
    ensures c.asleep != {} ==> |c.Notify(t).woken| == |c.woken| + 1
    ensures c.asleep == {} ==> c.Notify(t) == c
    ensures c.Notify(t).asleep <= c.asleep
  {
  }
}
