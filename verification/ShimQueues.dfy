/** The queues in place: SHIM_QUE records with their arrays.  Every method is proved to compute what the
    value model says. */
module ShimQueues {
  import opened Kernel
  import opened SlotQueue
  import opened QueueCalls

  /** Item `k` of a pool of `depth` items of `size` bytes each. */
  function Item(bytes: seq<bv8>, size: nat, k: nat): Msg
    requires (k + 1) * size <= |bytes|
  {
    assert k * size <= (k + 1) * size;
    bytes[k * size..(k + 1) * size]
  }

  lemma ItemFits(size: nat, depth: nat, k: nat)
    requires k < depth
    ensures (k + 1) * size <= depth * size
  {
  }

  function Items(bytes: seq<bv8>, size: nat, depth: nat): (r: seq<Msg>)
    requires |bytes| == depth * size
    ensures |r| == depth
  {
    seq(depth, k requires 0 <= k < depth => ItemFits(size, depth, k); Item(bytes, size, k))
  }

  /** Overwriting item `slot` leaves every other item alone. */
  lemma ItemsAfterCopy(before: seq<bv8>, after: seq<bv8>, size: nat, depth: nat, slot: nat, m: Msg)
    requires |before| == |after| == depth * size && slot < depth && |m| == size
    requires (slot + 1) * size <= |before|
    requires forall b :: 0 <= b < |before| ==>
               after[b] == if slot * size <= b < (slot + 1) * size then m[b - slot * size] else before[b]
    ensures Items(after, size, depth) == Items(before, size, depth)[slot := m]
  {
    forall k | 0 <= k < depth
      ensures Items(after, size, depth)[k] == Items(before, size, depth)[slot := m][k]
    {
      ItemFits(size, depth, k);
      if k < slot {
        ItemFits(size, slot, k);
      } else if slot < k {
        ItemFits(size, k, slot);
      }
      assert Items(after, size, depth)[k] == Item(after, size, k);
      assert Items(before, size, depth)[k] == Item(before, size, k);
    }
  }

  /** shim_que_slot_alloc returns this when no slot is free. */
  const NO_SLOT: nat := 0xFFFF_FFFF

  /** One SHIM_QUE record, its three arrays, and its two kernel objects. */
  class Queue {
    const depth: nat
    const itemSize: nat
    const pool: array<bv8>
    const freeStk: array<nat>
    const pendRing: array<nat>
    var freeTop: nat
    var pendRd: nat
    var pendWr: nat
    var pendCnt: nat
    var semDebt: nat
    var dtq: seq<nat>
    var sem: nat

    ghost function Repr(): set<object> {
      {this, pool, freeStk, pendRing}
    }

    ghost predicate Valid()
      reads Repr()
    {
      && freeStk != pendRing && pool as object != freeStk && pool as object != pendRing
      && depth <= DTQ_CNT
      && pool.Length == depth * itemSize
      && freeStk.Length == pendRing.Length == depth
      && freeTop <= depth
    }

    ghost function Abs(): Que
      reads Repr()
      requires Valid()
    {
      Que(depth, freeStk[..freeTop], pendRing[..], pendRd, pendWr, pendCnt, semDebt,
          Items(pool[..], itemSize, depth), dtq, sem)
    }

    /** esp_shim_queue_create: clamp the length, allocate once, fill the free stack and raise the
        semaphore to the depth. */
    constructor (len: nat, itemSize: nat)
      ensures Valid() && fresh(Repr()) && this.itemSize == itemSize
      ensures depth == if len > DTQ_CNT then DTQ_CNT else len
      ensures Abs() == Fresh(depth, Abs().ring, Abs().pool)
    {
      var d := if len > DTQ_CNT then DTQ_CNT else len;
      depth := d;
      this.itemSize := itemSize;
      pool := new bv8[d * itemSize];
      freeStk := new nat[d];
      pendRing := new nat[d];
      freeTop, pendRd, pendWr, pendCnt, semDebt, dtq, sem := d, 0, 0, 0, 0, [], 0;
      new;
      for k := 0 to d
        invariant freeStk.Length == d && forall i :: 0 <= i < k ==> freeStk[i] == i
        invariant Valid() && freeTop == depth == d
        invariant pendRd == pendWr == pendCnt == semDebt == sem == 0 && dtq == []
      {
        freeStk[k] := k;
      }
      for k := 0 to d
        invariant sem == k && Valid() && freeTop == depth == d
        invariant freeStk[..] == AllSlots(d)
        invariant pendRd == pendWr == pendCnt == semDebt == 0 && dtq == []
      {
        sem := sem + 1;
      }
      assert freeStk[..freeTop] == freeStk[..];
    }

    /** shim_que_slot_alloc */
    method SlotAlloc() returns (slot: nat)
      requires Valid() && forall i :: 0 <= i < freeTop ==> freeStk[i] != NO_SLOT
      modifies this`freeTop
      ensures Valid()
      ensures slot == NO_SLOT <==> old(Abs()).free == []
      ensures slot == NO_SLOT ==> Abs() == old(Abs())
      ensures slot != NO_SLOT ==> slot == TopSlot(old(Abs())) && Abs() == SlotQueue.SlotAlloc(old(Abs()))
    {
      if freeTop == 0 {
        return NO_SLOT;
      }
      freeTop := freeTop - 1;
      slot := freeStk[freeTop];
    }

    /** The locked section of shim_que_slot_free_notify; the result tells whether a debt was repaid. */
    method SlotRelease(slot: nat) returns (repay: bool)
      requires Valid() && freeTop < depth
      modifies this`freeTop, this`semDebt, freeStk
      ensures Valid() && Abs() == SlotQueue.SlotRelease(old(Abs()), slot)
      ensures repay == (old(semDebt) > 0)
    {
      freeStk[freeTop] := slot;
      freeTop := freeTop + 1;
      repay := false;
      if semDebt > 0 {
        semDebt := semDebt - 1;
        repay := true;
      }
      assert freeStk[..freeTop] == old(freeStk[..freeTop]) + [slot];
      assert pendRing[..] == old(pendRing[..]) && pool[..] == old(pool[..]);
    }

    /** shim_que_slot_free_notify */
    method SlotFreeNotify(slot: nat, c: Ctx)
      requires Valid() && freeTop < depth
      modifies this`freeTop, this`semDebt, this`sem, freeStk
      ensures Valid() && Abs() == FreeNotify(old(Abs()), slot, c)
    {
      var repay := SlotRelease(slot);
      if !repay && CanSignal(c) {
        sem := sem + 1;
      }
    }

    /** memcpy of an item into its slot. */
    method CopyIn(slot: nat, m: seq<bv8>)
      requires Valid() && slot < depth && |m| == itemSize
      modifies pool
      ensures Valid() && Abs() == SlotQueue.CopyIn(old(Abs()), slot, m)
    {
      ItemFits(itemSize, depth, slot);
      var base := slot * itemSize;
      for b := 0 to itemSize
        invariant Valid() && base + itemSize == (slot + 1) * itemSize <= pool.Length
        invariant forall i :: 0 <= i < pool.Length ==>
                    pool[i] == if base <= i < base + b then m[i - base] else old(pool[i])
        invariant freeStk[..] == old(freeStk[..]) && pendRing[..] == old(pendRing[..])
      {
        pool[base + b] := m[b];
      }
      ItemsAfterCopy(old(pool[..]), pool[..], itemSize, depth, slot, m);
    }

    /** memcpy of an item out of its slot. */
    method CopyOut(slot: nat) returns (m: seq<bv8>)
      requires Valid() && slot < depth
      ensures m == Abs().pool[slot]
    {
      ItemFits(itemSize, depth, slot);
      m := pool[slot * itemSize..(slot + 1) * itemSize];
      assert m == Item(pool[..], itemSize, slot);
    }

    /** The locked section of shim_que_pend_push_slot. */
    method RingPush(slot: nat)
      requires Valid() && pendWr < depth
      modifies this`pendWr, this`pendCnt, pendRing
      ensures Valid() && Abs() == SlotQueue.RingPush(old(Abs()), slot)
    {
      pendRing[pendWr] := slot;
      pendWr := if pendWr + 1 >= depth then 0 else pendWr + 1;
      pendCnt := pendCnt + 1;
      assert pendRing[..] == old(pendRing[..])[old(pendWr) := slot];
      assert freeStk[..freeTop] == old(freeStk[..freeTop]) && pool[..] == old(pool[..]);
    }

    /** The locked section of one round of esp_shim_queue_flush_pending. */
    method RingPop() returns (slot: nat)
      requires Valid() && pendRd < depth && pendCnt > 0
      modifies this`pendRd, this`pendCnt
      ensures Valid() && Abs() == SlotQueue.RingPop(old(Abs())) && slot == old(pendRing[pendRd])
    {
      slot := pendRing[pendRd];
      pendRd := if pendRd + 1 >= depth then 0 else pendRd + 1;
      pendCnt := pendCnt - 1;
    }

    /** psnd_dtq; the result tells whether it was done. */
    method Psnd(slot: nat, c: Ctx) returns (ok: bool)
      requires Valid()
      modifies this`dtq
      ensures Valid() && ok == (CanSignal(c) && |old(dtq)| < DTQ_CNT)
      ensures Abs() == if ok then DtqPush(old(Abs()), slot) else old(Abs())
    {
      ok := CanSignal(c) && |dtq| < DTQ_CNT;
      if ok {
        dtq := dtq + [slot];
      }
    }

    /** prcv_dtq (or trcv_dtq that finds a slot). */
    method Prcv() returns (slot: nat)
      requires Valid() && dtq != []
      modifies this`dtq
      ensures Valid() && Abs() == DtqPop(old(Abs())) && slot == old(dtq[0])
    {
      slot := dtq[0];
      dtq := dtq[1..];
    }

    /** The rest of a send that has obtained a token. */
    method TokenSend(c: Ctx, m: seq<bv8>) returns (o: Outcome)
      requires Valid() && Roomy(Abs()) && CanPoll(c) && |m| == itemSize
      modifies Repr()
      ensures Valid()
      ensures (Abs(), o) == QueueCalls.TokenSend(old(Abs()), c, m)
    {
      var slot := SlotAlloc();
      if slot == NO_SLOT {
        sem := sem + 1;
        return Returned(false);
      }
      CopyIn(slot, m);
      var ok := Psnd(slot, c);
      if !ok {
        SlotFreeNotify(slot, c);
      }
      o := Returned(ok);
    }

    /** shim_que_slot_alloc_debt_copy */
    method DebtAllocCopy(m: seq<bv8>) returns (slot: nat)
      requires Valid() && Roomy(Abs()) && |m| == itemSize
      modifies this`freeTop, this`semDebt, pool
      ensures Valid()
      ensures slot == NO_SLOT <==> old(Abs()).free == []
      ensures slot == NO_SLOT ==> Abs() == old(Abs())
      ensures slot != NO_SLOT ==> slot == TopSlot(old(Abs())) && Abs() == Borrow(old(Abs()), m)
    {
      slot := SlotAlloc();
      if slot != NO_SLOT {
        semDebt := semDebt + 1;
        CopyIn(slot, m);
      }
    }
  }

  /** Every free slot is a slot. */
  ghost predicate Roomy(q: Que) {
    |q.pool| == q.depth <= DTQ_CNT && forall i :: 0 <= i < |q.free| ==> q.free[i] < q.depth
  }
}
