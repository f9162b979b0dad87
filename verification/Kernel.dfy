/** The part of the TOPPERS/ASP3 kernel contract that the shim relies on: which service calls a
    context may issue.  A call that its context may not issue returns E_CTX and has no effect. */
module Kernel {

  /** Where the caller runs: a task that may be dispatched away, a task with dispatching disabled,
      or a non-task context (interrupt handler). */
  datatype Mode = Dispatchable | DispatchOff | Handler

  /** A calling context; `mie` is mstatus.MIE, and clearing it locks the CPU. */
  datatype Ctx = Ctx(mode: Mode, mie: bool)

  /** twai_sem, tsnd_dtq and trcv_dtq: only from a dispatchable task. */
  predicate CanWait(c: Ctx) {
    c.mie && c.mode.Dispatchable?
  }

  /** pol_sem and prcv_dtq: from any task that has not locked the CPU. */
  predicate CanPoll(c: Ctx) {
    c.mie && !c.mode.Handler?
  }

  /** sig_sem and psnd_dtq: from anywhere while the CPU is not locked. */
  predicate CanSignal(c: Ctx) {
    c.mie
  }

  /** Capacity of every kernel data queue (ESP_SHIM_DTQ_CNT). */
  const DTQ_CNT: nat := 256

  /** TMAX_RELTIM, the longest time in microseconds a service call may wait. */
  const TMAX_RELTIM: nat := 4_000_000_000
}
