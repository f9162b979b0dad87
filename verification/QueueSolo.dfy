/** The two models of the queue agree: a context that makes a call under the step-by-step protocol
    and is never preempted computes exactly what the call function says. */
module QueueSolo {
  import opened Kernel
  import opened SlotQueue
  import opened QueueProtocol
  import opened QueueCalls

  /** `n` steps of one context with nobody in between; finite waits expire. */
  function Alone(o: Out, n: nat): Out
    decreases n
  {
    if n == 0 then o else Alone(Step(o.q, o.h, o.l, Expire), n - 1)
  }

  ghost predicate Leads(o: Out, o': Out) {
    exists n: nat :: Alone(o, n) == o'
  }

  lemma {:induction false} AloneJoins(o: Out, m: nat, n: nat)
    ensures Alone(Alone(o, m), n) == Alone(o, m + n)
    decreases m
  {
    if m > 0 {
      AloneJoins(Step(o.q, o.h, o.l, Expire), m - 1, n);
    }
  }

  lemma LeadsOn(a: Out, b: Out, c: Out)
    requires Leads(a, b) && Leads(b, c)
    ensures Leads(a, c)
  {
    var m: nat :| Alone(a, m) == b;
    var n: nat :| Alone(b, n) == c;
    AloneJoins(a, m, n);
    assert Alone(a, m + n) == c;
  }

  function One(o: Out): Out {
    Step(o.q, o.h, o.l, Expire)
  }

  /** One step, and the invariant after it. */
  lemma StepLeads(a: Out, R: Holding)
    requires Kept(a, R)
    ensures Leads(a, One(a)) && Kept(One(a), R)
  {
    hide Step, Good;
    StepKeeps(a.q, a.h, a.l, Expire, R);
    assert Alone(a, 1) == Alone(One(a), 0);
  }

  lemma FreeSlotBound(q: Que, h: Hist, c: Ctx, slot: nat, next: After, R: Holding)
    requires Kept(Out(q, h, Freeing(c, slot, next)), R)
    ensures |q.free| < q.depth
  {
    HeldSlot(q, Plus(R, Hold(Freeing(c, slot, next))), slot);
  }

  /** Nothing was copied in and nothing was delivered. */
  ghost predicate Quietly(h: Hist, h': Hist) {
    h'.log == h.log && h'.deliv == h.deliv
  }

  lemma SettlesQuietly(h: Hist, slot: nat, f: Fate, c: Ctx)
    ensures Quietly(h, Settle(h, slot, f)) && Quietly(h, Throw(h, slot, c))
  {
  }

  /** The record after a message has been copied into `slot` and accepted. */
  function Recorded(h: Hist, slot: nat, m: Msg): Hist {
    Settle(Load(h, slot, m), slot, Queued(slot))
  }

  lemma RecordedSays(h: Hist, slot: nat, m: Msg)
    requires |h.fate| == |h.log|
    ensures var g := Recorded(h, slot, m);
            g.log == h.log + [m] && |g.fate| == |g.log| && g.fate[|h.log|].Queued? && g.deliv == h.deliv
  {
  }

  /** Returning a slot. */
  lemma FreeingGets(a: Out, R: Holding) returns (b: Out)
    requires Kept(a, R) && a.l.Freeing?
    ensures Leads(a, b) && Kept(b, R) && b.q == FreeNotify(a.q, a.l.slot, a.l.c) && b.l == Resume(a.l.c, a.l.next)
    ensures Quietly(a.h, b.h)
  {
    hide Kept, Leads;
    FreeSlotBound(a.q, a.h, a.l.c, a.l.slot, a.l.next, R);
    StepLeads(a, R);
    b := One(a);
    if a.q.debt == 0 {
      StepLeads(b, R);
      LeadsOn(a, b, One(b));
      b := One(b);
    }
  }

  lemma FlushHoldRoom(a: Out, R: Holding)
    requires Kept(a, R) && a.l.FlushHold?
    ensures |a.q.dtq| < DTQ_CNT
  {
    HeldSlot(a.q, Plus(R, Hold(a.l)), a.l.slot);
  }

  lemma KeptIsWellFormed(a: Out, R: Holding)
    requires Kept(a, R)
    ensures WellFormed(a.q)
  {
  }

  /** A whole flush. */
  lemma {:induction false} FlushGets(a: Out, R: Holding) returns (b: Out)
    requires Kept(a, R) && a.l.Flushing?
    ensures Leads(a, b) && Kept(b, R) && b.q == FlushCall(a.q, a.l.c) && b.l == Continue(a.l.c, a.l.k)
    ensures Quietly(a.h, b.h)
    decreases a.q.cnt
  {
    hide Kept, Leads, FreeNotify, Throw;
    KeptIsWellFormed(a, R);
    StepLeads(a, R);
    b := One(a);
    if a.q.cnt > 0 {
      var hold := b;
      assert hold.l == FlushHold(a.l.c, RingHead(a.q), a.l.k) && hold.q == RingPop(a.q);
      FlushHoldRoom(hold, R);
      SettlesQuietly(hold.h, hold.l.slot, Discarded, hold.l.c);
      StepLeads(hold, R);
      b := One(hold);
      LeadsOn(a, hold, b);
      if !a.l.c.mie {
        var freeing := b;
        b := FreeingGets(freeing, R);
        LeadsOn(a, freeing, b);
        FreeNotifyCnt(freeing.q, freeing.l.slot, freeing.l.c);
      }
      var again := b;
      b := FlushGets(again, R);
      LeadsOn(a, again, b);
    }
  }

  lemma FreeNotifyCnt(q: Que, slot: nat, c: Ctx)
    ensures FreeNotify(q, slot, c).cnt == q.cnt && FreeNotify(q, slot, c).dtq == q.dtq
  {
  }

  /** What the arrays must offer to a context that holds slot `slot`. */
  lemma HeldRoom(a: Out, R: Holding)
    requires Kept(a, R) && (a.l.SendCopy? || a.l.SendPost? || a.l.ParkPush? || a.l.IsrPost? || a.l.RecvCopy?)
    ensures WellFormed(a.q) && a.l.slot < |a.q.pool|
    ensures |a.q.dtq| < DTQ_CNT && a.q.cnt < a.q.depth && a.q.wr < |a.q.ring|
  {
    hide Cargo, Past, Ledger;
    HeldSlot(a.q, Plus(R, Hold(a.l)), a.l.slot);
  }

  lemma TopRoom(a: Out, R: Holding)
    requires Kept(a, R) && a.q.free != []
    ensures TopSlot(a.q) < |a.q.pool|
  {
    TopSlotCounts(a.q, Plus(R, Hold(a.l)));
  }

  /** The rest of a send that has a token. */
  lemma TokenSendGets(a: Out, R: Holding) returns (b: Out)
    requires Kept(a, R) && a.l.SendAlloc?
    ensures Leads(a, b) && Kept(b, R) && b.q == TokenSend(a.q, a.l.c, a.l.m).0 && b.l == Idle
    ensures TokenSend(a.q, a.l.c, a.l.m).1 == Returned(a.q.free != [])
    ensures b.h == if a.q.free == [] then a.h else Recorded(a.h, TopSlot(a.q), a.l.m)
  {
    hide Kept, Leads, Settle, Load;
    assert CanPoll(a.l.c) by { KeptIsOk(a, R); }
    StepLeads(a, R);
    b := One(a);
    var next := b;
    if a.q.free != [] {
      HeldRoom(next, R);
      StepLeads(next, R);
      b := One(next);
      LeadsOn(a, next, b);
      next := b;
      HeldRoom(next, R);
    }
    StepLeads(next, R);
    b := One(next);
    LeadsOn(a, next, b);
  }

  lemma KeptIsOk(a: Out, R: Holding)
    requires Kept(a, R)
    ensures LocalOk(a.l)
  {
  }

  /** A send that parks. */
  lemma ParkGets(a: Out, R: Holding) returns (b: Out)
    requires Kept(a, R) && a.l.ParkAlloc?
    ensures Leads(a, b) && Kept(b, R) && b.q == Park(a.q, a.l.m).0 && b.l == Idle
    ensures b.h == if a.q.free == [] then a.h else Recorded(a.h, TopSlot(a.q), a.l.m)
  {
    hide Kept, Leads, Settle, Load;
    StepLeads(a, R);
    b := One(a);
    if a.q.free != [] {
      TopRoom(a, R);
      var next := b;
      HeldRoom(next, R);
      StepLeads(next, R);
      b := One(next);
      LeadsOn(a, next, b);
    }
  }

  /** esp_shim_queue_send after its flush; only an unlimited wait leaves the context inside. */
  lemma SendingGets(a: Out, R: Holding) returns (b: Out)
    requires Kept(a, R) && a.l.Sending?
    ensures Leads(a, b) && Kept(b, R)
    ensures var (q, o) := AfterSendFlush(a.q, a.l.c, a.l.m, a.l.forever);
            && b.q == q && b.l == (if o.Waits? then a.l else Idle)
            && b.h == if o == Returned(true) then Recorded(a.h, RecordedAt(a.q), a.l.m) else a.h
  {
    hide Kept, Leads, Park, TokenSend;
    StepLeads(a, R);
    b := One(a);
    var next := b;
    if !CanPoll(a.l.c) {
      b := ParkGets(next, R);
      LeadsOn(a, next, b);
      ParkReturns(a.q, a.l.m);
    } else if a.q.sem > 0 {
      b := TokenSendGets(next, R);
      LeadsOn(a, next, b);
      TokenSendReturns(a.q.(sem := a.q.sem - 1), a.l.c, a.l.m);
    }
  }

  /** The slot a send uses if it is accepted. */
  function RecordedAt(q: Que): nat {
    if q.free == [] then 0 else TopSlot(q)
  }

  lemma ParkReturns(q: Que, m: Msg)
    ensures Park(q, m).1 == Returned(q.free != [])
  {
  }

  lemma TokenSendReturns(q: Que, c: Ctx, m: Msg)
    ensures TokenSend(q, c, m).1.Returned?
  {
  }

  /** esp_shim_queue_send_from_isr */
  lemma IsrPollGets(a: Out, R: Holding) returns (b: Out)
    requires Kept(a, R) && a.l.IsrPoll?
    ensures Leads(a, b) && Kept(b, R) && b.q == SendFromIsrCall(a.q, a.l.c, a.l.m).0 && b.l == Idle
    ensures var o := SendFromIsrCall(a.q, a.l.c, a.l.m).1;
            b.h == if o == Returned(true) then Recorded(a.h, RecordedAt(a.q), a.l.m) else a.h
  {
    hide Kept, Leads, TokenSend;
    StepLeads(a, R);
    b := One(a);
    var next := b;
    if !CanPoll(a.l.c) {
      b := IsrDebtGets(next, R);
      LeadsOn(a, next, b);
    } else if a.q.sem > 0 {
      b := TokenSendGets(next, R);
      LeadsOn(a, next, b);
    }
  }

  lemma IsrDebtGets(a: Out, R: Holding) returns (b: Out)
    requires Kept(a, R) && a.l.IsrDebt? && !CanPoll(a.l.c)
    ensures Leads(a, b) && Kept(b, R) && b.q == SendFromIsrCall(a.q, a.l.c, a.l.m).0 && b.l == Idle
    ensures var o := SendFromIsrCall(a.q, a.l.c, a.l.m).1;
            b.h == if o == Returned(true) then Recorded(a.h, RecordedAt(a.q), a.l.m) else a.h
  {
    hide Kept, Leads, Settle, Load;
    StepLeads(a, R);
    b := One(a);
    if a.q.free != [] {
      TopRoom(a, R);
      var next := b;
      HeldRoom(next, R);
      StepLeads(next, R);
      b := One(next);
      LeadsOn(a, next, b);
      if !a.l.c.mie {
        next := b;
        StepLeads(next, R);
        b := One(next);
        LeadsOn(a, next, b);
      }
    }
  }

  /** What the record says of a receive with this answer: one delivery more, of these bytes, or none. */
  ghost predicate RecvAnswer(h: Hist, h': Hist, r: Received) {
    && h'.log == h.log
    && if r.Got? then
         && |h'.deliv| == |h.deliv| + 1 && h'.deliv[..|h.deliv|] == h.deliv
         && h'.deliv[|h.deliv|].bytes == r.m
       else h'.deliv == h.deliv
  }

  /** And of a send with this answer: one message more, queued, or none. */
  ghost predicate SendAnswer(h: Hist, h': Hist, m: Msg, o: Outcome) {
    && h'.deliv == h.deliv
    && if o == Returned(true) then h'.log == h.log + [m] && |h'.fate| == |h'.log| && h'.fate[|h.log|].Queued?
       else h'.log == h.log
  }

  /** A receive that copies its message out delivers it. */
  lemma CopyDelivers(q: Que, h: Hist, c: Ctx, slot: nat, R: Holding)
    requires Kept(Out(q, h, RecvCopy(c, slot)), R)
    ensures var g := StepRecvCopy(q, h, c, slot).h;
            g.log == h.log && slot < |q.pool| && exists id: nat :: g.deliv == h.deliv + [Delivery(id, q.pool[slot])]
  {
    HeldRoom(Out(q, h, RecvCopy(c, slot)), R);
    StepKeeps(q, h, RecvCopy(c, slot), Go, R);
    var g := StepRecvCopy(q, h, c, slot).h;
    assert !g.fault;
    assert slot in h.slotId;
    assert g.deliv == h.deliv + [Delivery(h.slotId[slot], q.pool[slot])];
  }

  /** esp_shim_queue_recv after its flush */
  lemma ReceivingGets(a: Out, R: Holding) returns (b: Out)
    requires Kept(a, R) && a.l.Receiving?
    ensures Leads(a, b) && Kept(b, R)
    ensures var (q, r) := AfterRecvFlush(a.q, a.l.c, a.l.forever);
            && b.q == q && b.l == (if r.WaitsForOne? then a.l else Idle)
            && RecvAnswer(a.h, b.h, r)
  {
    hide Kept, Leads, Settle, Deliver, FreeNotify;
    StepLeads(a, R);
    b := One(a);
    if CanPoll(a.l.c) && a.q.dtq != [] {
      var next := b;
      HeldRoom(next, R);
      CopyDelivers(next.q, next.h, next.l.c, next.l.slot, R);
      StepLeads(next, R);
      b := One(next);
      LeadsOn(a, next, b);
      next := b;
      b := FreeingGets(next, R);
      LeadsOn(a, next, b);
    }
  }

  /** The drain loop of esp_shim_queue_reset */
  lemma {:induction false} ResettingGets(a: Out, R: Holding) returns (b: Out)
    requires Kept(a, R) && a.l.Resetting?
    ensures Leads(a, b) && Kept(b, R) && b.q == Drain(a.q, a.l.c) && b.l == Idle
    ensures Quietly(a.h, b.h)
    decreases |a.q.dtq|
  {
    hide Kept, Leads, Settle, FreeNotify;
    StepLeads(a, R);
    b := One(a);
    if CanPoll(a.l.c) && a.q.dtq != [] {
      var next := b;
      SettlesQuietly(a.h, a.q.dtq[0], Discarded, a.l.c);
      b := FreeingGets(next, R);
      LeadsOn(a, next, b);
      FreeNotifyCnt(next.q, next.l.slot, next.l.c);
      next := b;
      b := ResettingGets(next, R);
      LeadsOn(a, next, b);
    }
  }

  /** The call has not returned because it waits without limit. */
  predicate IsWaiting(q: Que, op: Op, c: Ctx) {
    match op
    case Send(m, forever) => SendCall(q, c, m, forever).1.Waits?
    case Recv(forever) => RecvCall(q, c, forever).1.WaitsForOne?
    case _ => false
  }

  lemma EnterIsKept(q: Que, h: Hist, op: Op, c: Ctx, R: Holding)
    requires Good(q, h, R)
    ensures Kept(Out(q, h, Enter(op, c)), R)
  {
    hide Good;
    PlusCounts(R, NOTHING);
  }

  lemma KeptIsGood(a: Out, R: Holding)
    requires Kept(a, R) && Hold(a.l) == NOTHING
    ensures Good(a.q, a.h, R)
  {
    hide Good;
    PlusCounts(R, NOTHING);
  }

  /** What the record says of a call with this answer. */
  ghost predicate Answered(q: Que, h: Hist, op: Op, c: Ctx, h': Hist) {
    match op
    case Send(m, forever) => SendAnswer(h, h', m, SendCall(q, c, m, forever).1)
    case SendFromIsr(m) => SendAnswer(h, h', m, SendFromIsrCall(q, c, m).1)
    case Recv(forever) => RecvAnswer(h, h', RecvCall(q, c, forever).1)
    case _ => Quietly(h, h')
  }

  lemma KeptFates(a: Out, R: Holding)
    requires Kept(a, R)
    ensures |a.h.fate| == |a.h.log|
  {
  }

  /** Left alone, a context that begins a call in a sound state of the protocol leaves the queue as
      the call function says, answers as it says, and is outside the call again unless it waits without
      limit: a send that returns 1 has put one message more into the record, accepted; one that returns 0
      none; a receive delivers the bytes it is said to get. */
  lemma AloneComputesTheCall(q: Que, h: Hist, op: Op, c: Ctx, R: Holding) returns (h': Hist, l: Local)
    requires Good(q, h, R)
    ensures Leads(Out(q, h, Enter(op, c)), Out(Perform(q, op, c), h', l))
    ensures Good(Perform(q, op, c), h', R)
    ensures l.Idle? <==> !IsWaiting(q, op, c)
    ensures Answered(q, h, op, c, h')
  {
    hide Good, Kept, Leads, FlushCall, AfterSendFlush, AfterRecvFlush, SendFromIsrCall, Drain, Recorded;
    EnterIsKept(q, h, op, c, R);
    var a := Out(q, h, Enter(op, c));
    var b := a;
    KeptFates(a, R);
    if op.SendFromIsr? {
      b := IsrPollGets(a, R);
      RecordedSays(a.h, RecordedAt(a.q), op.m);
    } else {
      var f := FlushGets(a, R);
      b := f;
      KeptFates(f, R);
      if op.Send? {
        b := SendingGets(f, R);
        RecordedSays(f.h, RecordedAt(f.q), op.m);
      }
      if op.Recv? { b := ReceivingGets(f, R); }
      if op.Reset? { b := ResettingGets(f, R); }
      if op.Flush? { b := f; } else { LeadsOn(a, f, b); }
    }
    KeptIsGood(b, R);
    h', l := b.h, b.l;
  }
}
