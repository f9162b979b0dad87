/** The interrupt locks in place, over the pools they serve. */
module ShimCore {
  import opened Kernel
  import opened QueueCalls
  import opened ShimQueuePool
  import opened ShimCritical
  import Sems = ShimSems
  import Wakeups = ShimWakeups

  /** mstatus.MIE, esp_shim_crit_nest and esp_shim_crit_saved, with the three pools. */
  class Core {
    var mie: bool
    var critNest: nat
    var critSaved: bool
    const queues: QueuePool
    const sems: Sems.SemPool
    const wakes: Wakeups.WakeupPool

    constructor (queues: QueuePool, sems: Sems.SemPool, wakes: Wakeups.WakeupPool)
      requires queues.Valid() && sems.Valid() && wakes.Valid()
      requires {queues as object, sems, wakes, wakes.pend} !! queues.parts
      requires sems.Repr() !! queues.parts + {queues as object, wakes, wakes.pend}
      ensures Valid() && mie && critNest == 0 && this.queues == queues && this.sems == sems && this.wakes == wakes
    {
      mie, critNest, critSaved := true, 0, false;
      this.queues, this.sems, this.wakes := queues, sems, wakes;
    }

    /** The pools share no memory. */
    ghost predicate Apart() {
      && this !in queues.parts && this !in sems.Repr()
      && {queues as object, sems, wakes, wakes.pend} !! queues.parts
      && sems.Repr() !! queues.parts + {queues as object, wakes, wakes.pend}
    }

    ghost predicate Valid()
      reads this, queues, queues.parts, sems, sems.Repr(), wakes, wakes.pend
    {
      Apart() && queues.Valid() && sems.Valid() && wakes.Valid()
    }

    ghost function Abs(): Shim
      reads this, queues, queues.parts, sems, sems.Repr(), wakes, wakes.pend
      requires Valid()
    {
      Shim(mie, critNest, critSaved, queues.Abs(), sems.account, wakes.Abs())
    }

    /** esp_shim_int_disable */
    method IntDisable() returns (state: bool)
      requires Valid()
      modifies this`mie
      ensures Valid() && Abs() == ShimCritical.IntDisable(old(Abs())) && state == old(mie)
    {
      state := mie;
      mie := false;
    }

    /** esp_shim_int_restore */
    method IntRestore(state: bool)
      requires Valid()
      modifies this`mie
      ensures Valid() && Abs() == ShimCritical.IntRestore(old(Abs()), state)
    {
      if state {
        mie := true;
      }
    }

    /** esp_shim_enter_critical */
    method EnterCritical()
      requires Valid()
      modifies this`mie, this`critNest, this`critSaved
      ensures Valid() && Abs() == ShimCritical.EnterCritical(old(Abs()))
    {
      hide Settled, Sems.Sound, Pending, Sems.PendSum;
      var state := mie;
      mie := false;
      if critNest == 0 {
        critSaved := state;
      }
      critNest := critNest + 1;
    }

    /** The three flushes. */
    method FlushAll(mode: Mode)
      requires Valid() && mie
      modifies queues, queues.parts, sems, sems.pend, wakes
      ensures Valid() && Abs() == SettleAll(old(Abs()), Env(mode, sems.max))
      ensures queues.pendTotal == 0 && sems.pendTotal == 0 && wakes.n == 0
      ensures mie && critNest == old(critNest) && critSaved == old(critSaved)
    {
      hide Flushed, Wakeups.WakeAll, Sems.Settled, Sems.Sound, Settled, Pending, Sems.PendSum;
      var c := Ctx(mode, mie);
      queues.FlushPending(c);
      sems.FlushPending(c);
      wakes.FlushPending(c);
    }

    /** esp_shim_exit_critical: the outermost exit that restores MIE flushes the queues, the gives and
        the wake-ups, in this order. */
    method ExitCritical(mode: Mode)
      requires Valid()
      modifies this`mie, this`critNest, queues, queues.parts, sems, sems.pend, wakes
      ensures Valid() && Abs() == ShimCritical.ExitCritical(old(Abs()), Env(mode, sems.max))
      ensures old(critNest) == 1 && critSaved ==> queues.pendTotal == 0 && sems.pendTotal == 0 && wakes.n == 0
    {
      hide ShimCritical.SettleAll, Settled, Sems.Sound, Pending, Sems.PendSum;
      if critNest > 0 {
        critNest := critNest - 1;
        if critNest == 0 && critSaved {
          mie := true;
          FlushAll(mode);
        }
      }
    }
  }
}
