/** The pool of queues and the flush that serves them all. */
module ShimQueuePool {
  import opened Kernel
  import opened SlotQueue
  import opened QueueProtocol
  import opened QueueCalls
  import opened ShimQueues

  /** How many slots are parked in all rings together. */
  function Pending(qs: seq<Que>): nat {
    if qs == [] then 0 else Pending(qs[..|qs| - 1]) + qs[|qs| - 1].cnt
  }

  lemma {:induction false} PendingAfter(qs: seq<Que>, i: nat, q: Que)
    requires i < |qs|
    ensures Pending(qs[i := q]) + qs[i].cnt == Pending(qs) + q.cnt
    ensures qs[i].cnt <= Pending(qs)
  {
    var n := |qs| - 1;
    if i == n {
      assert qs[i := q][..n] == qs[..n];
    } else {
      assert qs[i := q][..n] == qs[..n][i := q];
      PendingAfter(qs[..n], i, q);
    }
  }

  lemma {:induction false} NothingPending(qs: seq<Que>)
    ensures Pending(qs) == 0 <==> forall i :: 0 <= i < |qs| ==> qs[i].cnt == 0
  {
    if qs != [] {
      NothingPending(qs[..|qs| - 1]);
    }
  }

  /** Every queue flushed. */
  function Flushed(qs: seq<Que>, c: Ctx): seq<Que> {
    seq(|qs|, i requires 0 <= i < |qs| => FlushCall(qs[i], c))
  }

  lemma FlushedIsEmpty(q: Que, c: Ctx)
    ensures FlushCall(q, c).cnt == 0
    decreases q.cnt
  {
    if q.cnt > 0 {
      if CanSignal(c) && |q.dtq| < DTQ_CNT {
        FlushedIsEmpty(DtqPush(RingPop(q), RingHead(q)), c);
      } else {
        FlushedIsEmpty(FreeNotify(RingPop(q), RingHead(q), c), c);
      }
    }
  }

  /** What one flush round needs of the arrays. */
  ghost predicate Flushable(q: Que) {
    WellFormed(q) && |q.free| + |q.dtq| + q.cnt == q.depth
  }

  lemma RoundKeepsFlushable(q: Que, c: Ctx)
    requires Flushable(q) && q.cnt > 0
    ensures q.rd < |q.ring|
    ensures WellFormed(RingPop(q))
    ensures Flushable(DtqPush(RingPop(q), RingHead(q)))
    ensures Flushable(FreeNotify(RingPop(q), RingHead(q), c))
  {
  }

  lemma SettledIsUsable(q: Que)
    requires Settled(q)
    ensures Flushable(q) && Roomy(q)
    ensures q.free != [] ==> WellFormed(Write(SlotAlloc(q), TopSlot(q), [])) && q.cnt < q.depth && q.wr < q.depth
    ensures forall i :: 0 <= i < |q.dtq| ==> q.dtq[i] < q.depth
    ensures q.dtq != [] ==> |q.free| < q.depth
  {
    forall i | 0 <= i < |q.free|
      ensures q.free[i] < q.depth
    {
      assert Tally(q, NOTHING, q.free[i]) == if q.free[i] < q.depth then 1 else 0;
      assert multiset(q.free)[q.free[i]] > 0;
    }
    forall i | 0 <= i < |q.dtq|
      ensures q.dtq[i] < q.depth
    {
      assert Tally(q, NOTHING, q.dtq[i]) == if q.dtq[i] < q.depth then 1 else 0;
      assert multiset(q.dtq)[q.dtq[i]] > 0;
    }
  }

  class QueuePool {
    const que: seq<Queue>
    var pendTotal: nat

    ghost const parts: set<object>

    /** A pool of queues that have just been created. */
    constructor (que: seq<Queue>, ghost parts: set<object>)
      requires forall i :: 0 <= i < |que| ==> que[i].Repr() <= parts && que[i].Valid()
      requires forall i :: 0 <= i < |que| ==> Settled(que[i].Abs()) && que[i].pendCnt == 0
      requires forall i, j :: 0 <= i < j < |que| ==> que[i].Repr() !! que[j].Repr()
      ensures Valid() && fresh(this) && this.que == que && this.parts == parts
    {
      this.que, this.parts, pendTotal := que, parts, 0;
      new;
      NothingPending(Abs());
    }

    /** The queues share no memory. */
    ghost predicate Apart() {
      && this !in parts
      && (forall i :: 0 <= i < |que| ==> que[i].Repr() <= parts)
      && (forall i, j :: 0 <= i < j < |que| ==> que[i].Repr() !! que[j].Repr())
    }

    /** Between calls: each queue is sound, and pendTotal is the sum over the rings, so that the test
        of pendTotal against zero speaks for all of them. */
    ghost predicate Valid()
      reads this, parts
    {
      && AllValid()
      && (forall i :: 0 <= i < |que| ==> Settled(Abs()[i]))
      && pendTotal == Pending(Abs())
    }

    ghost function Abs(): seq<Que>
      reads parts
      requires AllValid()
    {
      seq(|que|, i requires 0 <= i < |que| && que[i].Repr() <= parts && que[i].Valid() reads parts => que[i].Abs())
    }

    /** The inner loop of esp_shim_queue_flush_pending. */
    method FlushOne(i: nat, c: Ctx)
      requires i < |que| && Apart() && que[i].Valid() && Flushable(que[i].Abs()) && que[i].pendCnt <= pendTotal
      modifies this`pendTotal, que[i].Repr()
      ensures que[i].Valid() && que[i].Abs() == FlushCall(old(que[i].Abs()), c)
      ensures pendTotal == old(pendTotal) - old(que[i].pendCnt)
    {
      var q := que[i];
      while q.pendCnt > 0
        invariant q.Valid() && Flushable(q.Abs())
        invariant FlushCall(q.Abs(), c) == FlushCall(old(q.Abs()), c)
        invariant q.pendCnt <= old(q.pendCnt) && pendTotal == old(pendTotal) - old(q.pendCnt) + q.pendCnt
        decreases q.pendCnt
      {
        RoundKeepsFlushable(q.Abs(), c);
        var slot := q.RingPop();
        pendTotal := pendTotal - 1;
        var ok := q.Psnd(slot, c);
        if !ok {
          q.SlotFreeNotify(slot, c);
        }
      }
    }

    ghost predicate AllValid()
      reads parts
    {
      Apart() && forall i :: 0 <= i < |que| ==> que[i].Valid()
    }

    method FlushAt(i: nat, c: Ctx)
      requires AllValid() && i < |que| && Flushable(Abs()[i]) && pendTotal == Pending(Abs())
      modifies this`pendTotal, que[i].Repr()
      ensures AllValid() && Abs() == old(Abs())[i := FlushCall(old(Abs())[i], c)] && pendTotal == Pending(Abs())
    {
      hide Flushable;
      ghost var before := Abs();
      PendingAfter(before, i, FlushCall(before[i], c));
      FlushedIsEmpty(before[i], c);
      FlushOne(i, c);
      assert Abs() == before[i := FlushCall(before[i], c)];
    }

    /** esp_shim_queue_flush_pending */
    method FlushPending(c: Ctx)
      requires Valid()
      modifies this, parts
      ensures Valid() && Abs() == Flushed(old(Abs()), c) && pendTotal == 0
    {
      FlushedIsSettled(Abs(), c);
      ghost var before := Abs();
      if pendTotal == 0 {
        NothingPending(Abs());
        assert Abs() == Flushed(Abs(), c);
      } else {
        FlushAll(c);
      }
    }

    method FlushAll(c: Ctx)
      requires AllValid() && pendTotal == Pending(Abs()) && forall i :: 0 <= i < |que| ==> Flushable(Abs()[i])
      modifies this, parts
      ensures AllValid() && Abs() == Flushed(old(Abs()), c) && pendTotal == Pending(Abs())
    {
      hide Flushable, FlushCall, Pending;
      ghost var before := Abs();
      for i := 0 to |que|
        invariant AllValid() && pendTotal == Pending(Abs())
        invariant forall k :: 0 <= k < |before| ==> Abs()[k] == if k < i then FlushCall(before[k], c) else before[k]
      {
        FlushAt(i, c);
      }
      assert Abs() == Flushed(before, c);
    }

    /** shim_que_pend_push_slot */
    method PendPushSlot(i: nat, slot: nat)
      requires AllValid() && i < |que| && que[i].pendWr < que[i].depth && pendTotal == Pending(Abs())
      modifies this`pendTotal, que[i].Repr()
      ensures AllValid() && pendTotal == Pending(Abs())
      ensures Abs() == old(Abs())[i := Push(old(Abs())[i], slot)]
    {
      hide Pending;
      ghost var before := Abs();
      PendingAfter(before, i, Push(before[i], slot));
      que[i].RingPush(slot);
      pendTotal := pendTotal + 1;
      assert Abs() == before[i := Push(before[i], slot)];
    }

    /** shim_que_pend_push */
    method PendPush(i: nat, m: seq<bv8>) returns (o: Outcome)
      requires AllValid() && i < |que| && pendTotal == Pending(Abs())
      requires Settled(Abs()[i]) && |m| == que[i].itemSize
      modifies this`pendTotal, que[i].Repr()
      ensures AllValid() && pendTotal == Pending(Abs())
      ensures (Abs(), o) == (old(Abs())[i := Park(old(Abs())[i], m).0], Park(old(Abs())[i], m).1)
    {
      hide Pending, Settled, Push;
      ghost var before := Abs();
      var slot := DebtAlloc(i, m);
      if slot == NO_SLOT {
        assert Abs() == before[i := before[i]];
        return Returned(false);
      }
      PendPushSlot(i, slot);
      assert before[i := Borrow(before[i], m)][i := Push(Borrow(before[i], m), slot)]
          == before[i := Push(Borrow(before[i], m), slot)];
      o := Returned(true);
    }

    /** shim_que_slot_alloc_debt_copy on queue `i`; a slot taken leaves room in the ring. */
    method DebtAlloc(i: nat, m: seq<bv8>) returns (slot: nat)
      requires AllValid() && i < |que| && pendTotal == Pending(Abs())
      requires Settled(Abs()[i]) && |m| == que[i].itemSize
      modifies que[i].Repr()
      ensures AllValid() && pendTotal == Pending(Abs())
      ensures slot == NO_SLOT <==> old(Abs())[i].free == []
      ensures slot == NO_SLOT ==> Abs() == old(Abs())
      ensures slot != NO_SLOT ==>
                && slot == TopSlot(old(Abs())[i]) && que[i].pendWr < que[i].depth
                && Abs() == old(Abs())[i := Borrow(old(Abs())[i], m)]
    {
      hide Pending, Settled, Write;
      ghost var before := Abs();
      SettledIsUsable(before[i]);
      slot := que[i].DebtAllocCopy(m);
      if slot == NO_SLOT {
        assert Abs() == before;
      } else {
        BorrowKeepsRing(before[i], m);
        PendingAfter(before, i, Borrow(before[i], m));
        assert Abs() == before[i := Borrow(before[i], m)];
      }
    }

    /** The token of a send is taken, and the rest of it done. */
    method SendWithToken(i: nat, c: Ctx, m: seq<bv8>) returns (o: Outcome)
      requires AllValid() && i < |que| && pendTotal == Pending(Abs()) && CanPoll(c) && que[i].sem > 0
      requires Settled(Abs()[i]) && |m| == que[i].itemSize
      modifies que[i].Repr()
      ensures AllValid() && pendTotal == Pending(Abs())
      ensures var q := old(Abs())[i];
              var (p, r) := QueueCalls.TokenSend(q.(sem := q.sem - 1), c, m);
              Abs() == old(Abs())[i := p] && o == r
    {
      hide Pending, Settled;
      ghost var before := Abs();
      SettledIsUsable(before[i]);
      que[i].sem := que[i].sem - 1;
      ghost var q := before[i].(sem := before[i].sem - 1);
      assert que[i].Abs() == q;
      o := que[i].TokenSend(c, m);
      PendingAfter(before, i, QueueCalls.TokenSend(q, c, m).0);
      TokenSendCnt(q, c, m);
      assert Abs() == before[i := QueueCalls.TokenSend(q, c, m).0];
    }

    /** esp_shim_queue_send, on its own: it opens with a flush of every queue. */
    method Send(i: nat, c: Ctx, m: seq<bv8>, forever: bool) returns (o: Outcome)
      requires Valid() && i < |que| && |m| == que[i].itemSize
      modifies this, parts
      ensures Valid()
      ensures Abs() == Flushed(old(Abs()), c)[i := SendCall(old(Abs())[i], c, m, forever).0]
      ensures o == SendCall(old(Abs())[i], c, m, forever).1
    {
      hide Settled, FlushCall, Pending, QueueCalls.TokenSend, Park;
      SendKeepsSettled(Abs()[i], c, m, forever);
      FlushPending(c);
      ghost var f := Abs();
      if !CanPoll(c) {
        o := PendPush(i, m);
      } else if que[i].sem > 0 {
        o := SendWithToken(i, c, m);
      } else if CanWait(c) && forever {
        o := Waits;
      } else {
        o := Returned(false);
      }
      assert Abs() == f[i := Abs()[i]];
    }

    /** psnd_dtq of a slot an interrupt send has borrowed. */
    method PostBorrowed(i: nat, slot: nat, c: Ctx) returns (o: Outcome)
      requires AllValid() && i < |que| && pendTotal == Pending(Abs()) && c.mie && que[i].freeTop < que[i].depth
      modifies que[i].Repr()
      ensures AllValid() && pendTotal == Pending(Abs())
      ensures var (p, r) := Post(old(Abs())[i], slot, c);
              Abs() == old(Abs())[i := p] && o == r
    {
      hide Pending;
      ghost var before := Abs();
      PendingAfter(before, i, Post(before[i], slot, c).0);
      var ok := que[i].Psnd(slot, c);
      if !ok {
        que[i].SlotFreeNotify(slot, c);
      }
      o := Returned(ok);
      assert Abs() == before[i := Post(before[i], slot, c).0];
    }

    /** esp_shim_queue_send_from_isr */
    method SendFromIsr(i: nat, c: Ctx, m: seq<bv8>) returns (o: Outcome)
      requires Valid() && i < |que| && |m| == que[i].itemSize
      modifies this, parts
      ensures Valid()
      ensures Abs() == old(Abs())[i := SendFromIsrCall(old(Abs())[i], c, m).0]
      ensures o == SendFromIsrCall(old(Abs())[i], c, m).1
    {
      hide Settled, Pending, QueueCalls.TokenSend, Borrow, Push;
      ghost var before := Abs();
      PerformKeepsSettled(Abs()[i], Op.SendFromIsr(m), c);
      BorrowRoom(before[i], m);
      assert before[i := before[i]] == before;
      if !CanPoll(c) {
        var slot := DebtAlloc(i, m);
        if slot == NO_SLOT {
          o := Returned(false);
        } else if CanSignal(c) {
          o := PostBorrowed(i, slot, c);
        } else {
          PendPushSlot(i, slot);
          o := Returned(true);
        }
      } else if que[i].sem > 0 {
        o := SendWithToken(i, c, m);
      } else {
        o := Returned(false);
      }
      assert Abs() == before[i := Abs()[i]];
    }

    /** Receiving the head of the data queue and returning its slot. */
    method TakeHead(i: nat, c: Ctx) returns (slot: nat)
      requires AllValid() && i < |que| && pendTotal == Pending(Abs()) && que[i].dtq != []
      requires que[i].freeTop < que[i].depth
      modifies que[i].Repr()
      ensures AllValid() && pendTotal == Pending(Abs())
      ensures slot == old(que[i].dtq[0])
      ensures Abs() == old(Abs())[i := FreeNotify(DtqPop(old(Abs())[i]), slot, c)]
    {
      hide Pending;
      ghost var before := Abs();
      slot := que[i].Prcv();
      que[i].SlotFreeNotify(slot, c);
      PendingAfter(before, i, FreeNotify(DtqPop(before[i]), slot, c));
      assert Abs() == before[i := FreeNotify(DtqPop(before[i]), slot, c)];
    }

    /** esp_shim_queue_recv, on its own; `m` is what was copied to the caller's buffer. */
    method Recv(i: nat, c: Ctx, forever: bool) returns (r: Received)
      requires Valid() && i < |que|
      modifies this, parts
      ensures Valid()
      ensures Abs() == Flushed(old(Abs()), c)[i := RecvCall(old(Abs())[i], c, forever).0]
      ensures r == RecvCall(old(Abs())[i], c, forever).1
    {
      hide Settled, FlushCall, Pending, FreeNotify, DtqPop;
      RecvKeepsSettled(Abs()[i], c, forever);
      FlushPending(c);
      ghost var f := Abs();
      assert f[i := f[i]] == f;
      if !CanPoll(c) {
        r := NoMessage;
      } else if que[i].dtq != [] {
        SettledIsUsable(f[i]);
        var m := que[i].CopyOut(que[i].dtq[0]);
        var slot := TakeHead(i, c);
        r := Got(m);
      } else if CanWait(c) && forever {
        r := WaitsForOne;
      } else {
        r := NoMessage;
      }
      assert Abs() == f[i := Abs()[i]];
    }

    /** The drain loop of esp_shim_queue_reset. */
    method DrainLoop(i: nat, c: Ctx)
      requires AllValid() && i < |que| && pendTotal == Pending(Abs()) && Settled(Abs()[i]) && que[i].pendCnt == 0
      modifies que[i].Repr()
      ensures AllValid() && pendTotal == Pending(Abs())
      ensures Abs() == old(Abs())[i := Drain(old(Abs())[i], c)]
    {
      hide Settled, FreeNotify, DtqPop, Pending;
      ghost var f := Abs();
      assert f[i := f[i]] == f;
      while CanPoll(c) && que[i].dtq != []
        invariant AllValid() && pendTotal == Pending(Abs())
        invariant Settled(Abs()[i]) && que[i].pendCnt == 0 && Abs() == f[i := Abs()[i]]
        invariant Drain(Abs()[i], c) == Drain(f[i], c)
        decreases |Abs()[i].dtq|
      {
        HeadReturns(Abs()[i], c);
        var slot := TakeHead(i, c);
      }
    }

    /** esp_shim_queue_reset */
    method Reset(i: nat, c: Ctx)
      requires Valid() && i < |que|
      modifies this, parts
      ensures Valid()
      ensures Abs() == Flushed(old(Abs()), c)[i := ResetCall(old(Abs())[i], c)]
    {
      hide Settled, FlushCall, Drain, Pending;
      ResetKeepsSettled(Abs()[i], c);
      FlushedIsEmpty(Abs()[i], c);
      FlushPending(c);
      DrainLoop(i, c);
    }
  }

  lemma FlushedIsSettled(qs: seq<Que>, c: Ctx)
    requires forall i :: 0 <= i < |qs| ==> Settled(qs[i])
    ensures forall i :: 0 <= i < |qs| ==> Flushable(qs[i]) && Settled(Flushed(qs, c)[i])
    ensures Pending(Flushed(qs, c)) == 0
  {
    forall i | 0 <= i < |qs|
      ensures Flushable(qs[i]) && Settled(Flushed(qs, c)[i]) && Flushed(qs, c)[i].cnt == 0
    {
      SettledIsUsable(qs[i]);
      FlushKeepsSettled(qs[i], c);
    }
    NothingPending(Flushed(qs, c));
  }

  lemma TokenSendCnt(q: Que, c: Ctx, m: Msg)
    ensures TokenSend(q, c, m).0.cnt == q.cnt
  {
  }

  lemma BorrowKeepsRing(q: Que, m: Msg)
    requires q.free != []
    ensures Borrow(q, m).cnt == q.cnt && Borrow(q, m).wr == q.wr && Borrow(q, m).ring == q.ring
  {
  }

  lemma BorrowRoom(q: Que, m: Msg)
    requires Settled(q)
    ensures q.free != [] ==> |Borrow(q, m).free| < q.depth && Borrow(q, m).depth == q.depth
  {
  }

  /** One round of the drain loop of a reset, which runs with an empty ring. */
  lemma HeadReturns(q: Que, c: Ctx)
    requires Settled(q) && CanPoll(c) && q.dtq != []
    ensures |q.free| < q.depth
    ensures var p := FreeNotify(DtqPop(q), q.dtq[0], c);
            p.cnt == q.cnt && |p.dtq| < |q.dtq| && (q.cnt == 0 ==> Settled(p))
  {
    Returns(q, c, 0);
  }
}
