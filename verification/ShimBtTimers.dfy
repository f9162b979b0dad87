/** The esp_timer pool in place. */
module ShimBtTimers {
  import opened Kernel
  import opened BtTimerSpec
  import opened ShimWakeups

  /** BT_TIMER_SEM, next to the semaphore of the timer list. */
  const BT_TIMER_SEM: nat := 1

  /** bt_timer_pool; its size BT_TIMER_NUM is 4 or 16, depending on the chip. */
  class TimerPool {
    const pool: array<Timer>

    constructor (num: nat)
      ensures fresh(pool) && pool.Length == num
      ensures forall i :: 0 <= i < num ==> pool[i] == Timer(false, false, 0, 0, NoCallback, 0)
    {
      pool := new Timer[num](_ => Timer(false, false, 0, 0, NoCallback, 0));
    }

    /** esp_timer_create: the first unused timer, or ESP_ERR_NO_MEM. */
    method Create(callback: Callback, arg: nat) returns (handle: nat, ok: bool)
      modifies pool
      ensures ok == exists i :: 0 <= i < pool.Length && !old(pool[i].used)
      ensures !ok ==> pool[..] == old(pool[..])
      ensures ok ==> handle == FirstUnused(old(pool[..])) < pool.Length
      ensures ok ==> var was := old(pool[..]);
                     pool[..] == was[handle := Timer(true, false, was[handle].deadline, 0, callback, arg)]
    {
      handle, ok := 0, false;
      while handle < pool.Length
        invariant handle <= pool.Length && unchanged(pool)
        invariant forall k :: 0 <= k < handle ==> pool[k].used
      {
        if !pool[handle].used {
          pool[handle] := pool[handle].(used := true);
          pool[handle] := pool[handle].(active := false, callback := callback, arg := arg, period := 0);
          ok := true;
          assert !old(pool[..])[handle].used;
          return;
        }
        handle := handle + 1;
      }
    }

    /** esp_timer_delete */
    method Delete(handle: nat)
      requires handle < pool.Length
      modifies pool
      ensures pool[..] == old(pool[..])[handle := old(pool[handle]).(active := false, used := false)]
    {
      pool[handle] := pool[handle].(active := false, used := false);
    }

    /** esp_timer_start_once (period 0) and esp_timer_start_periodic: the timer runs, every other is left
        alone, and the timer task is signalled, at once or by way of the wake-up array. */
    method Start(handle: nat, clock: int, timeout: nat, period: nat, c: Ctx, wakes: WakeupPool)
      requires handle < pool.Length && wakes.Valid() && pool as object != wakes.pend
      modifies pool, wakes, wakes.pend
      ensures wakes.Valid() && wakes.Abs() == SignalCall(old(wakes.Abs()), BT_TIMER_SEM, c)
      ensures pool[..] == old(pool[..])[handle :=
                old(pool[handle]).(deadline := clock + timeout, period := period, active := true)]
    {
      pool[handle] := pool[handle].(deadline := clock + timeout, period := period, active := true);
      wakes.SignalOrPend(BT_TIMER_SEM, c);
    }

    /** esp_timer_stop */
    method Stop(handle: nat)
      requires handle < pool.Length
      modifies pool
      ensures pool[..] == old(pool[..])[handle := old(pool[handle]).(active := false)]
    {
      pool[handle] := pool[handle].(active := false);
    }

    /** The locked scan of bt_timer_task. */
    method ScanDue(now: int) returns (due: bool, callback: Callback, arg: nat, nearest: int)
      modifies pool
      ensures Scanned(pool[..], due, callback, arg, nearest) == Scan(old(pool[..]), now)
    {
      due, callback, arg, nearest := false, NoCallback, 0, NOTHING;
      var i := 0;
      while i < pool.Length
        invariant i <= pool.Length && unchanged(pool)
        invariant ScanFrom(pool[..], now, i, nearest) == Scan(pool[..], now)
      {
        if pool[i].used && pool[i].active {
          if pool[i].deadline <= now {
            due, callback, arg := true, pool[i].callback, pool[i].arg;
            if pool[i].period != 0 {
              pool[i] := pool[i].(deadline := pool[i].deadline + pool[i].period);
            } else {
              pool[i] := pool[i].(active := false);
            }
            return;
          } else if nearest < 0 || pool[i].deadline < nearest {
            nearest := pool[i].deadline;
          }
        }
        i := i + 1;
      }
    }

    /** What bt_timer_task does while the clock stands at `now`, its callbacks doing nothing to the pool,
        until it waits; `later` is the clock read before waiting.  It ends, having made every outstanding
        call: one for a due one-shot timer, as many as its deadline has come for a periodic one; and it
        waits for the soonest deadline there is. */
    method ServeAll(now: int, later: int) returns (calls: seq<(Callback, nat)>, tmo: Tmo)
      requires Wired(pool[..]) && 0 <= now <= later
      modifies pool
      ensures calls == Calls(old(pool[..]), now) && pool[..] == AllSettled(old(pool[..]), now)
      ensures WaitsRight(pool[..], later, tmo)
    {
      calls := [];
      while true
        invariant Wired(pool[..])
        invariant calls + Calls(pool[..], now) == Calls(old(pool[..]), now)
        invariant AllSettled(pool[..], now) == AllSettled(old(pool[..]), now)
        decreases |Calls(pool[..], now)|
      {
        ScanServesOne(pool[..], now);
        var due, callback, arg, nearest := ScanDue(now);
        if callback.NoCallback? {
          NothingDueEarlier(pool[..], now);
          WaitIsRight(pool[..], nearest, later);
          tmo := WaitFor(nearest, later);
          return;
        }
        calls := calls + [(callback, arg)];
      }
    }
  }
}
