/** Timer wake-ups asked for while the CPU is locked: a small set of semaphore identifiers kept in an
    array and signalled later. */
module ShimWakeups {
  import opened Kernel

  /** SHIM_WAKEUP_PEND_MAX */
  const WAKEUP_MAX: nat := 4

  /** The identifiers waiting, and the binary semaphores that are up. */
  datatype Wakes = Wakes(pend: seq<nat>, up: set<nat>)

  /** esp_shim_signal_or_pend */
  function SignalCall(w: Wakes, id: nat, c: Ctx): Wakes {
    if CanSignal(c) then w.(up := w.up + {id})
    else if id in w.pend || |w.pend| >= WAKEUP_MAX then w
    else w.(pend := w.pend + [id])
  }

  /** esp_shim_wakeup_flush_pending */
  function WakeAll(w: Wakes, c: Ctx): Wakes
    decreases |w.pend|
  {
    if w.pend == [] then w
    else
      var n := |w.pend| - 1;
      WakeAll(Wakes(w.pend[..n], if CanSignal(c) then w.up + {w.pend[n]} else w.up), c)
  }

  /** No identifier is kept twice, and there is room for all that are in use. */
  ghost predicate Sound(w: Wakes, ids: set<nat>) {
    && |w.pend| <= WAKEUP_MAX
    && (forall i, j :: 0 <= i < j < |w.pend| ==> w.pend[i] != w.pend[j])
    && (forall i :: 0 <= i < |w.pend| ==> w.pend[i] in ids)
  }

  function Elements(s: seq<nat>): set<nat> {
    set x | x in s
  }

  lemma {:induction false} ElementsOf(s: seq<nat>)
    requires forall i, j :: 0 <= i < j < |s| ==> s[i] != s[j]
    ensures |Elements(s)| == |s|
  {
    if s == [] {
      assert Elements(s) == {};
    } else {
      var n := |s| - 1;
      ElementsOf(s[..n]);
      assert Elements(s) == Elements(s[..n]) + {s[n]} && s[n] !in s[..n];
    }
  }

  lemma SubsetOfSameSize(a: set<nat>, b: set<nat>)
    requires a <= b && |a| >= |b|
    ensures a == b
  {
    if x :| x in b && x !in a {
      SmallerThan(a, b, x);
    }
  }

  lemma SmallerThan(a: set<nat>, b: set<nat>, x: nat)
    requires a <= b && x in b && x !in a
    ensures |a| < |b|
  {
    var rest := b - a;
    assert b == a + rest && a !! rest && x in rest;
    assert |b| == |a| + |rest|;
  }

  /** With no more identifiers in use than the array has places, a wake-up is never forgotten: the
      semaphore goes up at once, or its identifier is in the array. */
  lemma WakeUpIsKept(w: Wakes, id: nat, c: Ctx, ids: set<nat>)
    requires Sound(w, ids) && id in ids && |ids| <= WAKEUP_MAX
    ensures Sound(SignalCall(w, id, c), ids)
    ensures if c.mie then id in SignalCall(w, id, c).up else id in SignalCall(w, id, c).pend
    ensures w.up <= SignalCall(w, id, c).up && w.pend <= SignalCall(w, id, c).pend
  {
    if !CanSignal(c) && id !in w.pend && |w.pend| >= WAKEUP_MAX {
      ElementsOf(w.pend);
      SubsetOfSameSize(Elements(w.pend), ids);
    }
  }

  /** In general it is kept exactly when the caller is not locked, the identifier waits already, or a
      place is free. */
  lemma WakeUpIsKeptExactly(w: Wakes, id: nat, c: Ctx)
    requires id !in w.up
    ensures var r := SignalCall(w, id, c);
            (id in r.up || id in r.pend) <==> c.mie || id in w.pend || |w.pend| < WAKEUP_MAX
  {
    if !CanSignal(c) && id !in w.pend && |w.pend| < WAKEUP_MAX {
      assert (w.pend + [id])[|w.pend|] == id;
    }
  }

  /** A flush in an unlocked context raises exactly the semaphores that were waiting. */
  lemma {:induction false} WakeAllRaises(w: Wakes, c: Ctx)
    ensures WakeAll(w, c).pend == []
    ensures WakeAll(w, c).up == if c.mie then w.up + Elements(w.pend) else w.up
    decreases |w.pend|
  {
    if w.pend == [] {
      assert Elements(w.pend) == {};
    } else {
      var n := |w.pend| - 1;
      WakeAllRaises(Wakes(w.pend[..n], if CanSignal(c) then w.up + {w.pend[n]} else w.up), c);
      assert Elements(w.pend) == Elements(w.pend[..n]) + {w.pend[n]};
    }
  }

  /** A run of calls: signals, and flushes. */
  datatype Call = Signal(id: nat, c: Ctx) | Flush(c: Ctx)

  function After(calls: seq<Call>): Wakes {
    if calls == [] then Wakes([], {})
    else
      var w := After(calls[..|calls| - 1]);
      match calls[|calls| - 1]
      case Signal(id, c) => SignalCall(w, id, c)
      case Flush(c) => WakeAll(w, c)
  }

  function Asked(calls: seq<Call>): set<nat> {
    set i | 0 <= i < |calls| && calls[i].Signal? :: calls[i].id
  }

  /** With no more identifiers in use than the array has places and no flush on a locked CPU, those raised
      and those kept are exactly those asked for, none forgotten and none made up. */
  lemma {:induction false} WakeUpsAreThoseAsked(calls: seq<Call>, ids: set<nat>)
    requires |ids| <= WAKEUP_MAX && Asked(calls) <= ids
    requires forall i :: 0 <= i < |calls| && calls[i].Flush? ==> calls[i].c.mie
    ensures Sound(After(calls), ids) && After(calls).up + Elements(After(calls).pend) == Asked(calls)
  {
    if calls != [] {
      var before, e := calls[..|calls| - 1], calls[|calls| - 1];
      var w := After(before);
      assert Asked(calls) == Asked(before) + if e.Signal? then {e.id} else {};
      WakeUpsAreThoseAsked(before, ids);
      match e
      case Signal(id, c) =>
        WakeUpIsKept(w, id, c, ids);
        SignalAdds(w, id, c);
      case Flush(c) => WakeAllRaises(w, c);
    }
  }

  lemma SignalAdds(w: Wakes, id: nat, c: Ctx)
    ensures var r := SignalCall(w, id, c); r.up + Elements(r.pend) <= w.up + Elements(w.pend) + {id}
    ensures var r := SignalCall(w, id, c); w.up + Elements(w.pend) <= r.up + Elements(r.pend)
  {
  }

  /** shim_wakeup_pend and shim_wakeup_pend_n */
  class WakeupPool {
    const pend: array<nat>
    var n: nat
    var up: set<nat>

    ghost predicate Valid()
      reads this, pend
    {
      pend.Length == WAKEUP_MAX && n <= pend.Length
    }

    ghost function Abs(): Wakes
      reads this, pend
      requires Valid()
    {
      Wakes(pend[..n], up)
    }

    constructor ()
      ensures Valid() && fresh(this) && fresh(pend) && Abs() == Wakes([], {})
    {
      pend := new nat[WAKEUP_MAX];
      n, up := 0, {};
    }

    /** esp_shim_signal_or_pend */
    method SignalOrPend(id: nat, c: Ctx)
      requires Valid()
      modifies this, pend
      ensures Valid() && Abs() == SignalCall(old(Abs()), id, c)
    {
      if CanSignal(c) {
        up := up + {id};
        return;
      }
      var i := 0;
      while i < n
        invariant i <= n && forall k :: 0 <= k < i ==> pend[k] != id
      {
        if pend[i] == id {
          return;
        }
        i := i + 1;
      }
      if n < WAKEUP_MAX {
        pend[n] := id;
        n := n + 1;
      }
    }

    /** esp_shim_wakeup_flush_pending */
    method FlushPending(c: Ctx)
      requires Valid()
      modifies this
      ensures Valid() && n == 0 && Abs() == WakeAll(old(Abs()), c)
    {
      while n > 0
        invariant Valid() && WakeAll(Abs(), c) == WakeAll(old(Abs()), c)
        decreases n
      {
        ghost var before := Abs();
        n := n - 1;
        assert before.pend[..n] == pend[..n];
        if CanSignal(c) {
          up := up + {pend[n]};
        }
      }
    }
  }
}
