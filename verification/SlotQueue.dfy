/** The shim's slot queue as a value: the SHIM_QUE record together with the kernel data queue and
    the counting semaphore that belong to it.  Every operation of the shim is composed of the
    primitives below, each of which is one kernel call or one stretch of code under SHIM_LOCK. */
module SlotQueue {
  import opened Kernel

  type Msg = seq<bv8>

  /** `free` is free_stk[0..free_top); `ring` is all of pend_ring, stale entries included. */
  datatype Que = Que(
    depth: nat,
    free: seq<nat>,
    ring: seq<nat>,
    rd: nat,
    wr: nat,
    cnt: nat,
    debt: nat,
    pool: seq<Msg>,
    dtq: seq<nat>,
    sem: nat)

  function Wrap(x: nat, d: nat): nat {
    if x >= d then x - d else x
  }

  /** Sizes and indexes of the arrays agree. */
  ghost predicate WellFormed(q: Que) {
    && |q.ring| == q.depth == |q.pool|
    && q.depth <= DTQ_CNT
    && |q.free| <= q.depth
    && q.cnt <= q.depth
    && (q.depth == 0 ==> q.rd == 0 && q.wr == 0)
    && (q.depth > 0 ==> q.rd < q.depth && q.wr == Wrap(q.rd + q.cnt, q.depth))
  }

  /** The live part of pend_ring, oldest slot first. */
  ghost function Window(q: Que): (w: seq<nat>)
    requires WellFormed(q)
    ensures |w| == q.cnt
  {
    seq(q.cnt, i requires 0 <= i < q.cnt => q.ring[Wrap(q.rd + i, q.depth)])
  }

  /** shim_que_slot_alloc, when a slot is free. */
  function SlotAlloc(q: Que): Que
    requires q.free != []
  {
    q.(free := q.free[..|q.free| - 1])
  }

  function TopSlot(q: Que): nat
    requires q.free != []
  {
    q.free[|q.free| - 1]
  }

  /** The locked section of shim_que_slot_free_notify: give the slot back, repay one debt. */
  function SlotRelease(q: Que, slot: nat): Que {
    q.(free := q.free + [slot], debt := if q.debt > 0 then q.debt - 1 else 0)
  }

  function CopyIn(q: Que, slot: nat, m: Msg): Que
    requires slot < |q.pool|
  {
    q.(pool := q.pool[slot := m])
  }

  /** The locked section of shim_que_slot_alloc_debt_copy, when a slot is free. */
  function DebtAlloc(q: Que, m: Msg): Que
    requires q.free != [] && TopSlot(q) < |q.pool|
  {
    CopyIn(SlotAlloc(q), TopSlot(q), m).(debt := q.debt + 1)
  }

  /** The locked section of shim_que_pend_push_slot. */
  function RingPush(q: Que, slot: nat): Que
    requires q.wr < |q.ring|
  {
    q.(ring := q.ring[q.wr := slot], wr := if q.wr + 1 >= q.depth then 0 else q.wr + 1, cnt := q.cnt + 1)
  }

  /** The locked section of one round of esp_shim_queue_flush_pending. */
  function RingPop(q: Que): Que
    requires q.cnt > 0
  {
    q.(rd := if q.rd + 1 >= q.depth then 0 else q.rd + 1, cnt := q.cnt - 1)
  }

  function DtqPush(q: Que, slot: nat): Que {
    q.(dtq := q.dtq + [slot])
  }

  function DtqPop(q: Que): Que
    requires q.dtq != []
  {
    q.(dtq := q.dtq[1..])
  }

  function AllSlots(depth: nat): (r: seq<nat>)
    ensures |r| == depth
  {
    seq(depth, k => k)
  }

  lemma {:induction false} AllSlotsCounts(d: nat)
    ensures forall k: nat :: multiset(AllSlots(d))[k] == if k < d then 1 else 0
  {
    if d > 0 {
      AllSlotsCounts(d - 1);
      assert AllSlots(d) == AllSlots(d - 1) + [d - 1];
    }
  }

  /** A queue as esp_shim_queue_create leaves it. */
  function Fresh(depth: nat, ring: seq<nat>, pool: seq<Msg>): Que {
    Que(depth, AllSlots(depth), ring, 0, 0, 0, 0, pool, [], depth)
  }

  lemma WindowAfterPush(q: Que, slot: nat)
    requires WellFormed(q) && q.cnt < q.depth
    ensures WellFormed(RingPush(q, slot))
    ensures Window(RingPush(q, slot)) == Window(q) + [slot]
  {
    var p, w := RingPush(q, slot), Window(q) + [slot];
    forall i | 0 <= i < p.cnt
      ensures Window(p)[i] == w[i]
    {
      assert Window(p)[i] == p.ring[Wrap(p.rd + i, p.depth)];
    }
    assert Window(p) == w;
  }

  lemma WindowAfterPop(q: Que)
    requires WellFormed(q) && q.cnt > 0
    ensures WellFormed(RingPop(q))
    ensures Window(q) == [q.ring[q.rd]] + Window(RingPop(q))
  {
    var p := RingPop(q);
    var w := [q.ring[q.rd]] + Window(p);
    forall i | 0 <= i < q.cnt
      ensures Window(q)[i] == w[i]
    {
      assert Window(q)[i] == q.ring[Wrap(q.rd + i, q.depth)];
      if i > 0 {
        assert Window(p)[i - 1] == p.ring[Wrap(p.rd + (i - 1), p.depth)];
      }
    }
    assert Window(q) == w;
  }
}
