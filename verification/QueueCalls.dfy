/** The queue calls run to completion without preemption, as functions of the queue, and how far they
    behave as a bounded first-in first-out queue. */
module QueueCalls {
  import opened Kernel
  import opened SlotQueue
  import opened QueueProtocol

  datatype Outcome = Returned(ok: bool) | Waits

  function RingHead(q: Que): nat {
    if q.rd < |q.ring| then q.ring[q.rd] else 0
  }

  function Read(pool: seq<Msg>, slot: nat): Msg {
    if slot < |pool| then pool[slot] else []
  }

  function Write(q: Que, slot: nat, m: Msg): Que {
    if slot < |q.pool| then CopyIn(q, slot, m) else q
  }

  function Push(q: Que, slot: nat): Que {
    if q.wr < |q.ring| then RingPush(q, slot) else q
  }

  /** shim_que_slot_free_notify */
  function FreeNotify(q: Que, slot: nat, c: Ctx): Que {
    var p := SlotRelease(q, slot);
    if q.debt == 0 && CanSignal(c) then p.(sem := p.sem + 1) else p
  }

  /** What esp_shim_queue_flush_pending does to one queue. */
  function FlushCall(q: Que, c: Ctx): Que
    decreases q.cnt
  {
    if q.cnt == 0 then q
    else if CanSignal(c) && |q.dtq| < DTQ_CNT then FlushCall(DtqPush(RingPop(q), RingHead(q)), c)
    else FlushCall(FreeNotify(RingPop(q), RingHead(q), c), c)
  }

  /** psnd_dtq (or tsnd_dtq) of a slot already loaded. */
  function Post(q: Que, slot: nat, c: Ctx): (Que, Outcome) {
    if |q.dtq| < DTQ_CNT then (DtqPush(q, slot), Returned(true)) else (FreeNotify(q, slot, c), Returned(false))
  }

  /** The rest of a send that has obtained a token. */
  function TokenSend(q: Que, c: Ctx, m: Msg): (Que, Outcome) {
    if q.free == [] then (q.(sem := q.sem + 1), Returned(false))
    else Post(Write(SlotAlloc(q), TopSlot(q), m), TopSlot(q), c)
  }

  /** shim_que_slot_alloc_debt_copy, when a slot is free */
  function Borrow(q: Que, m: Msg): Que
    requires q.free != []
  {
    Write(SlotAlloc(q), TopSlot(q), m).(debt := q.debt + 1)
  }

  /** shim_que_pend_push */
  function Park(q: Que, m: Msg): (Que, Outcome) {
    if q.free == [] then (q, Returned(false)) else (Push(Borrow(q, m), TopSlot(q)), Returned(true))
  }

  /** esp_shim_queue_send; `forever` is a wait without limit. */
  function SendCall(q: Que, c: Ctx, m: Msg, forever: bool): (Que, Outcome) {
    AfterSendFlush(FlushCall(q, c), c, m, forever)
  }

  function AfterSendFlush(p: Que, c: Ctx, m: Msg, forever: bool): (Que, Outcome) {
    if !CanPoll(c) then Park(p, m)
    else if p.sem > 0 then TokenSend(p.(sem := p.sem - 1), c, m)
    else if CanWait(c) && forever then (p, Waits)
    else (p, Returned(false))
  }

  /** esp_shim_queue_send_from_isr */
  function SendFromIsrCall(q: Que, c: Ctx, m: Msg): (Que, Outcome) {
    if !CanPoll(c) then
      if q.free == [] then (q, Returned(false))
      else if CanSignal(c) then Post(Borrow(q, m), TopSlot(q), c)
      else (Push(Borrow(q, m), TopSlot(q)), Returned(true))
    else if q.sem > 0 then TokenSend(q.(sem := q.sem - 1), c, m)
    else (q, Returned(false))
  }

  datatype Received = Got(m: Msg) | NoMessage | WaitsForOne

  /** esp_shim_queue_recv */
  function RecvCall(q: Que, c: Ctx, forever: bool): (Que, Received) {
    AfterRecvFlush(FlushCall(q, c), c, forever)
  }

  function AfterRecvFlush(p: Que, c: Ctx, forever: bool): (Que, Received) {
    if !CanPoll(c) then (p, NoMessage)
    else if p.dtq != [] then (FreeNotify(DtqPop(p), p.dtq[0], c), Got(Read(p.pool, p.dtq[0])))
    else if CanWait(c) && forever then (p, WaitsForOne)
    else (p, NoMessage)
  }

  /** The drain loop of esp_shim_queue_reset. */
  function Drain(q: Que, c: Ctx): Que
    decreases |q.dtq|
  {
    if !CanPoll(c) || q.dtq == [] then q else Drain(FreeNotify(DtqPop(q), q.dtq[0], c), c)
  }

  /** esp_shim_queue_reset */
  function ResetCall(q: Que, c: Ctx): Que {
    Drain(FlushCall(q, c), c)
  }

  // ---------------------------------------------------------------- the abstract queue

  /** Nobody is inside the queue, and `lost` tokens have been lost before. */
  ghost predicate Quiet(q: Que, lost: nat) {
    && WellFormed(q)
    && Partition(q, NOTHING)
    && q.sem + lost == |q.free| + q.debt
    && |q.free| + q.debt <= q.depth
  }

  function ReadAll(pool: seq<Msg>, slots: seq<nat>): (r: seq<Msg>)
    ensures |r| == |slots|
  {
    seq(|slots|, i requires 0 <= i < |slots| => Read(pool, slots[i]))
  }

  /** The messages held, oldest first: those in the data queue, then those parked in the ring. */
  ghost function Contents(q: Que): seq<Msg>
    requires WellFormed(q)
  {
    ReadAll(q.pool, q.dtq) + ReadAll(q.pool, Window(q))
  }

  /** Adding `m` the way a bounded first-in first-out queue does. */
  ghost predicate Enqueues(q: Que, q': Que, m: Msg, ok: bool)
    requires WellFormed(q) && WellFormed(q')
  {
    && ok == (|Contents(q)| < q.depth)
    && Contents(q') == if |Contents(q)| < q.depth then Contents(q) + [m] else Contents(q)
  }

  lemma Fits(q: Que, lost: nat)
    requires Quiet(q, lost)
    ensures |q.free| + |Contents(q)| == q.depth <= DTQ_CNT
  {
  }

  lemma ReadAllElsewhere(pool: seq<Msg>, slots: seq<nat>, slot: nat, m: Msg)
    requires slot < |pool| && slot !in slots
    ensures ReadAll(pool[slot := m], slots) == ReadAll(pool, slots)
  {
  }

  lemma ReadAllJoins(pool: seq<Msg>, a: seq<nat>, b: seq<nat>)
    ensures ReadAll(pool, a + b) == ReadAll(pool, a) + ReadAll(pool, b)
  {
  }

  /** While the CPU is not locked, a flush carries the ring over to the data queue, in order. */
  lemma {:induction false} FlushCarries(q: Que, c: Ctx)
    requires WellFormed(q) && c.mie && |q.dtq| + q.cnt <= DTQ_CNT
    ensures var p := FlushCall(q, c);
            && p == q.(dtq := q.dtq + Window(q), rd := p.rd, cnt := 0)
            && WellFormed(p)
    decreases q.cnt
  {
    if q.cnt == 0 {
      assert q.dtq + Window(q) == q.dtq;
    } else {
      WindowAfterPop(q);
      var r := DtqPush(RingPop(q), q.ring[q.rd]);
      assert Window(r) == Window(RingPop(q));
      FlushCarries(r, c);
      assert q.dtq + Window(q) == r.dtq + Window(r);
    }
  }

  /** On a locked CPU it throws the ring away and repays debt as long as there is any. */
  lemma {:induction false} LockedFlushThrows(q: Que, c: Ctx)
    requires WellFormed(q) && !c.mie && |q.free| + q.cnt <= q.depth
    ensures var p := FlushCall(q, c);
            && p == q.(free := q.free + Window(q), debt := if q.debt > q.cnt then q.debt - q.cnt else 0,
                       rd := p.rd, cnt := 0)
            && WellFormed(p)
    decreases q.cnt
  {
    if q.cnt == 0 {
      assert q.free + Window(q) == q.free;
    } else {
      WindowAfterPop(q);
      var r := FreeNotify(RingPop(q), q.ring[q.rd], c);
      assert Window(r) == Window(RingPop(q));
      LockedFlushThrows(r, c);
      assert q.free + Window(q) == r.free + Window(r);
    }
  }

  /** Partition looks at places only. */
  lemma SamePartition(q: Que, q': Que)
    requires WellFormed(q) && WellFormed(q') && Partition(q, NOTHING) && q'.depth == q.depth
    requires |q'.free| + |q'.dtq| + q'.cnt == q.depth
    requires forall k: nat :: multiset(q'.free)[k] + multiset(q'.dtq)[k] + multiset(Window(q'))[k]
                           == multiset(q.free)[k] + multiset(q.dtq)[k] + multiset(Window(q))[k]
    ensures Partition(q', NOTHING)
  {
    forall k: nat
      ensures Tally(q', NOTHING, k) == if k < q'.depth then 1 else 0
    {
      assert Tally(q, NOTHING, k) == if k < q.depth then 1 else 0;
    }
  }

  /** A message copied into the top free slot disturbs no other. */
  lemma TopSlotIsUnused(q: Que, m: Msg)
    requires WellFormed(q) && Partition(q, NOTHING) && q.free != []
    ensures TopSlot(q) < q.depth
    ensures var r := Write(SlotAlloc(q), TopSlot(q), m);
            && WellFormed(r) && Window(r) == Window(q)
            && ReadAll(r.pool, q.dtq) == ReadAll(q.pool, q.dtq)
            && ReadAll(r.pool, Window(q)) == ReadAll(q.pool, Window(q))
            && ReadAll(r.pool, [TopSlot(q)]) == [m]
  {
    TopSlotCounts(q, NOTHING);
    var r := Write(SlotAlloc(q), TopSlot(q), m);
    assert Window(r) == Window(q);
    ReadAllElsewhere(q.pool, q.dtq, TopSlot(q), m);
    ReadAllElsewhere(q.pool, Window(q), TopSlot(q), m);
  }

  /** Top free slot, loaded with `m`, into the data queue; `debt` and `sem` may change beside it. */
  lemma Posts(q: Que, m: Msg, debt: nat, sem: nat)
    requires WellFormed(q) && Partition(q, NOTHING) && q.free != []
    ensures var r := DtqPush(Write(SlotAlloc(q), TopSlot(q), m), TopSlot(q)).(debt := debt, sem := sem);
            && WellFormed(r) && Partition(r, NOTHING) && |q.dtq| < q.depth
            && Contents(r) == ReadAll(q.pool, q.dtq) + [m] + ReadAll(q.pool, Window(q))
  {
    TopSlotCounts(q, NOTHING);
    TopSlotIsUnused(q, m);
    var w := Write(SlotAlloc(q), TopSlot(q), m);
    var r := DtqPush(w, TopSlot(q)).(debt := debt, sem := sem);
    assert Window(r) == Window(w);
    SamePartition(q, r);
    ReadAllJoins(w.pool, q.dtq, [TopSlot(q)]);
  }

  /** Top free slot, loaded with `m`, into the ring. */
  lemma Parks(q: Que, m: Msg, debt: nat, sem: nat)
    requires WellFormed(q) && Partition(q, NOTHING) && q.free != []
    ensures var w := Write(SlotAlloc(q), TopSlot(q), m);
            var r := Push(w, TopSlot(q)).(debt := debt, sem := sem);
            && w.wr < |w.ring| && WellFormed(r) && Partition(r, NOTHING)
            && Contents(r) == Contents(q) + [m]
  {
    ParksPlaces(q, m, debt, sem);
    TopSlotIsUnused(q, m);
    hide Partition, Window, ReadAll, Write, SlotAlloc, TopSlot;
    var w := Write(SlotAlloc(q), TopSlot(q), m);
    var r := Push(w, TopSlot(q)).(debt := debt, sem := sem);
    ReadAllJoins(w.pool, Window(q), [TopSlot(q)]);
    assert Contents(r) == ReadAll(w.pool, q.dtq) + (ReadAll(w.pool, Window(q)) + [m]);
  }

  lemma ParksPlaces(q: Que, m: Msg, debt: nat, sem: nat)
    requires WellFormed(q) && Partition(q, NOTHING) && q.free != []
    ensures var w := Write(SlotAlloc(q), TopSlot(q), m);
            var r := Push(w, TopSlot(q)).(debt := debt, sem := sem);
            && w.wr < |w.ring| && WellFormed(r) && Partition(r, NOTHING)
            && Window(r) == Window(q) + [TopSlot(q)] && r.dtq == q.dtq && r.pool == w.pool
  {
    TopSlotCounts(q, NOTHING);
    TopSlotIsUnused(q, m);
    var w := Write(SlotAlloc(q), TopSlot(q), m);
    WindowAfterPush(w, TopSlot(q));
    var r := Push(w, TopSlot(q)).(debt := debt, sem := sem);
    assert Window(r) == Window(RingPush(w, TopSlot(q)));
    hide ReadAll;
    SamePartition(q, r);
  }

  lemma UnlockedFlushIsQuiet(q: Que, c: Ctx, lost: nat)
    requires Quiet(q, lost) && c.mie
    ensures var p := FlushCall(q, c);
            && Quiet(p, lost) && p.cnt == 0 && Contents(p) == Contents(q)
            && p.sem == q.sem && p.free == q.free && p.debt == q.debt && p.depth == q.depth
            && p.dtq == q.dtq + Window(q) && p.pool == q.pool
  {
    FlushCarries(q, c);
    var p := FlushCall(q, c);
    assert Window(p) == [];
    SamePartition(q, p);
    ReadAllJoins(q.pool, q.dtq, Window(q));
  }

  lemma LockedFlushIsQuiet(q: Que, c: Ctx, lost: nat)
    requires Quiet(q, lost) && !c.mie
    ensures var p := FlushCall(q, c);
            && Quiet(p, lost + if q.cnt > q.debt then q.cnt - q.debt else 0)
            && p.cnt == 0 && Contents(p) == ReadAll(q.pool, q.dtq)
            && p.sem == q.sem && p.dtq == q.dtq && p.depth == q.depth && p.pool == q.pool
            && p.debt == if q.debt > q.cnt then q.debt - q.cnt else 0
  {
    LockedFlushThrows(q, c);
    var p := FlushCall(q, c);
    assert Window(p) == [];
    SamePartition(q, p);
  }

  // ---------------------------------------------------------------- the calls as a bounded FIFO

  lemma TokenSendEnqueues(q: Que, c: Ctx, m: Msg)
    requires Quiet(q, 0) && q.cnt == 0 && q.sem > 0
    ensures var (p, o) := TokenSend(q.(sem := q.sem - 1), c, m);
            && Quiet(p, 0) && p.cnt == 0 && p.debt == q.debt && p.depth == q.depth
            && o.Returned? && Enqueues(q, p, m, o.ok)
  {
    Fits(q, 0);
    if q.free != [] {
      TokenPosts(q, c, m);
    } else {
      assert q.(sem := q.sem - 1).(sem := q.sem) == q;
    }
  }

  lemma TokenPosts(q: Que, c: Ctx, m: Msg)
    requires Quiet(q, 0) && q.cnt == 0 && q.sem > 0 && q.free != [] && |q.dtq| < DTQ_CNT
    ensures var (p, o) := TokenSend(q.(sem := q.sem - 1), c, m);
            && Quiet(p, 0) && p.cnt == 0 && p.debt == q.debt && p.depth == q.depth && o == Returned(true)
            && Contents(p) == Contents(q) + [m]
  {
    TokenTaken(q);
    hide Partition, Window, ReadAll;
    var t := q.(sem := q.sem - 1);
    Posts(t, m, q.debt, q.sem - 1);
    NothingInWindow(q);
    var (p, o) := TokenSend(t, c, m);
    assert p == DtqPush(Write(SlotAlloc(t), TopSlot(t), m), TopSlot(t)).(debt := q.debt, sem := q.sem - 1);
  }

  lemma NothingInWindow(q: Que)
    requires WellFormed(q) && q.cnt == 0
    ensures ReadAll(q.pool, Window(q)) == []
  {
  }

  lemma ParkEnqueues(q: Que, m: Msg, lost: nat)
    requires Quiet(q, lost)
    ensures var (p, o) := Park(q, m);
            && Quiet(p, lost) && p.depth == q.depth
            && o.Returned? && Enqueues(q, p, m, o.ok)
            && (p.debt - p.cnt == q.debt - q.cnt)
  {
    Fits(q, lost);
    if q.free != [] {
      Parks(q, m, q.debt + 1, q.sem);
      hide Partition, Window, ReadAll, Write;
      var w := Write(SlotAlloc(q), TopSlot(q), m);
      WriteKeeps(SlotAlloc(q), TopSlot(q), m);
      assert Park(q, m).0 == Push(w, TopSlot(q)).(debt := q.debt + 1, sem := q.sem);
    }
  }

  lemma WriteKeeps(q: Que, slot: nat, m: Msg)
    ensures var w := Write(q, slot, m); w == q.(pool := w.pool)
  {
  }

  /** esp_shim_queue_send is a bounded first-in first-out enqueue from every context, task, dispatch
      disabled, handler or locked, even while there is debt: except exactly when the CPU is locked
      and messages are parked already, which its opening flush then throws away. */
  lemma SendIsFifo(q: Que, c: Ctx, m: Msg, forever: bool)
    requires Quiet(q, 0)
    ensures var (p, o) := SendCall(q, c, m, forever);
            WellFormed(p) && (Enqueues(q, p, m, o == Returned(true)) <==> c.mie || q.cnt == 0)
  {
    hide Partition, FlushCall, TokenSend, Park, ReadAll;
    Fits(q, 0);
    var f := FlushCall(q, c);
    if c.mie {
      UnlockedFlushIsQuiet(q, c, 0);
      if !CanPoll(c) {
        ParkEnqueues(f, m, 0);
      } else if f.sem > 0 {
        TokenSendEnqueues(f, c, m);
      }
    } else {
      LockedFlushIsQuiet(q, c, 0);
      ParkEnqueues(f, m, if q.cnt > q.debt then q.cnt - q.debt else 0);
      Fits(f, if q.cnt > q.debt then q.cnt - q.debt else 0);
      assert q.cnt == 0 ==> ReadAll(q.pool, Window(q)) == [];
    }
  }

  /** So the first of two sends made inside one critical section is always lost, although both report
      success. */
  lemma SecondLockedSendLosesTheFirst(q: Que, c: Ctx, a: Msg, b: Msg, forever: bool)
    requires Quiet(q, 0) && !c.mie && q.cnt == 0 && q.free != []
    ensures var (p, o) := SendCall(q, c, a, forever);
            var (r, o') := SendCall(p, c, b, forever);
            && o == o' == Returned(true) && WellFormed(r)
            && Contents(r) == Contents(q) + [b]
  {
    Fits(q, 0);
    ParkEnqueues(q, a, 0);
    assert q == FlushCall(q, c);
    var p := SendCall(q, c, a, forever).0;
    assert ReadAll(p.pool, p.dtq) == Contents(q) by {
      TopSlotIsUnused(q, a);
      assert Window(q) == [];
    }
    LockedFlushIsQuiet(p, c, 0);
    var f := FlushCall(p, c);
    Fits(f, if p.cnt > p.debt then p.cnt - p.debt else 0);
    ParkEnqueues(f, b, if p.cnt > p.debt then p.cnt - p.debt else 0);
  }

  /** A send that may wait for ever waits only when the queue is full and free of debt.  When it is
      full and there is debt, it finds a token without a slot and fails at once instead of waiting. */
  lemma BlockingSend(q: Que, c: Ctx, m: Msg)
    requires Quiet(q, 0) && CanWait(c)
    ensures SendCall(q, c, m, true).1 ==
            if |Contents(q)| < q.depth then Returned(true) else if q.debt == 0 then Waits else Returned(false)
  {
    Fits(q, 0);
    UnlockedFlushIsQuiet(q, c, 0);
    if FlushCall(q, c).sem > 0 {
      TokenSendEnqueues(FlushCall(q, c), c, m);
    }
  }

  /** The messages that the flush opening a call leaves: all of them, or on a locked CPU those that were in
      the data queue already. */
  ghost function Left(q: Que, c: Ctx): seq<Msg>
    requires WellFormed(q)
  {
    if c.mie then Contents(q) else ReadAll(q.pool, q.dtq)
  }

  /** What a send answers, in every context and whatever it may wait: 1 if there is room once the flush is
      over, and then the message is behind those left; on a full queue it waits if it may do so for ever
      and there is no debt, and returns 0 in all other cases, having added nothing. */
  lemma SendAnswers(q: Que, c: Ctx, m: Msg, forever: bool)
    requires Quiet(q, 0)
    ensures var (p, o) := SendCall(q, c, m, forever);
            var room := |Left(q, c)| < q.depth;
            && (o == Returned(true) <==> room)
            && (o == Waits <==> !room && c.mie && c.mode.Dispatchable? && forever && q.debt == 0)
            && WellFormed(p) && p.depth == q.depth && p.cnt == (if room && (!c.mie || c.mode.Handler?) then 1 else 0)
            && Contents(p) == Left(q, c) + if room then [m] else []
  {
    hide Partition, FlushCall, TokenSend, Park, ReadAll;
    var f := FlushCall(q, c);
    if c.mie {
      UnlockedFlushIsQuiet(q, c, 0);
      Fits(f, 0);
      if !CanPoll(c) {
        ParkEnqueues(f, m, 0);
        ParkCounts(f, m);
      } else if f.sem > 0 {
        TokenSendEnqueues(f, c, m);
      }
    } else {
      var lost := if q.cnt > q.debt then q.cnt - q.debt else 0;
      LockedFlushIsQuiet(q, c, 0);
      Fits(f, lost);
      ParkEnqueues(f, m, lost);
      ParkCounts(f, m);
    }
  }

  lemma ParkCounts(q: Que, m: Msg)
    requires WellFormed(q)
    ensures Park(q, m).0.cnt == q.cnt + (if Park(q, m).1 == Returned(true) then 1 else 0)
  {
  }

  /** An interrupt send that can reach the data queue goes in front of everything parked. */
  lemma SendFromIsrOvertakes(q: Que, c: Ctx, m: Msg)
    requires Quiet(q, 0) && c.mie && q.free != []
    ensures var (p, o) := SendFromIsrCall(q, c, m);
            && Quiet(p, 0) && o == Returned(true) && p.cnt == q.cnt && p.debt >= q.debt
            && Contents(p) == ReadAll(q.pool, q.dtq) + [m] + ReadAll(q.pool, Window(q))
  {
    hide Partition, ReadAll, Window, Quiet, SendFromIsrCall;
    if CanPoll(c) {
      PostsWithToken(q, c, m);
    } else {
      PostsOnDebt(q, c, m);
    }
  }

  lemma TokenTaken(q: Que)
    requires Quiet(q, 0) && q.free != []
    ensures q.sem > 0
    ensures var t := q.(sem := q.sem - 1); WellFormed(t) && Partition(t, NOTHING) && Window(t) == Window(q)
  {
    var t := q.(sem := q.sem - 1);
    assert Window(t) == Window(q);
    SamePartition(q, t);
  }

  lemma PostsWithToken(q: Que, c: Ctx, m: Msg)
    requires Quiet(q, 0) && CanPoll(c) && q.free != []
    ensures var (p, o) := SendFromIsrCall(q, c, m);
            && Quiet(p, 0) && o == Returned(true) && p.cnt == q.cnt && p.debt >= q.debt
            && Contents(p) == ReadAll(q.pool, q.dtq) + [m] + ReadAll(q.pool, Window(q))
  {
    hide Partition, ReadAll, Window;
    TokenTaken(q);
    var t := q.(sem := q.sem - 1);
    Posts(t, m, q.debt, q.sem - 1);
    assert SendFromIsrCall(q, c, m).0
        == DtqPush(Write(SlotAlloc(t), TopSlot(t), m), TopSlot(t)).(debt := q.debt, sem := q.sem - 1);
  }

  lemma PostsOnDebt(q: Que, c: Ctx, m: Msg)
    requires Quiet(q, 0) && c.mie && !CanPoll(c) && q.free != []
    ensures var (p, o) := SendFromIsrCall(q, c, m);
            && Quiet(p, 0) && o == Returned(true) && p.cnt == q.cnt && p.debt >= q.debt
            && Contents(p) == ReadAll(q.pool, q.dtq) + [m] + ReadAll(q.pool, Window(q))
  {
    hide Partition, ReadAll, Window;
    Posts(q, m, q.debt + 1, q.sem);
  }

  /** esp_shim_queue_send_from_isr does not flush first.  From a context that can reach the data queue
      it therefore overtakes parked messages, and it is a first-in first-out enqueue exactly when the
      queue is full or nothing parked differs from the new message. */
  lemma SendFromIsrIsFifo(q: Que, c: Ctx, m: Msg)
    requires Quiet(q, 0)
    ensures var (p, o) := SendFromIsrCall(q, c, m);
            && WellFormed(p) && o == Returned(|Contents(q)| < q.depth)
            && (Enqueues(q, p, m, o == Returned(true)) <==>
                  !c.mie || q.free == [] || forall i :: 0 <= i < q.cnt ==> ReadAll(q.pool, Window(q))[i] == m)
  {
    hide Partition, TokenSend, Post, Push, Borrow, Write, Window, ReadAll;
    Fits(q, 0);
    if !c.mie {
      ParkEnqueues(q, m, 0);
    } else if q.free != [] {
      SendFromIsrOvertakes(q, c, m);
      Overtakes(ReadAll(q.pool, q.dtq), ReadAll(q.pool, Window(q)), m);
    } else {
      FullSendFromIsr(q, c, m);
    }
  }

  lemma FullSendFromIsr(q: Que, c: Ctx, m: Msg)
    requires Quiet(q, 0) && q.free == []
    ensures SendFromIsrCall(q, c, m) == (q, Returned(false))
  {
  }

  lemma {:induction false} Overtakes(a: seq<Msg>, w: seq<Msg>, m: Msg)
    ensures a + [m] + w == a + w + [m] <==> forall i :: 0 <= i < |w| ==> w[i] == m
  {
    var l, r := a + [m] + w, a + w + [m];
    if l == r {
      AllEqual(w, m, |w|) by {
        forall i | 0 <= i < |w|
          ensures w[i] == if i == 0 then m else w[i - 1]
        {
          assert l[|a| + i] == r[|a| + i];
        }
      }
    }
  }

  lemma {:induction false} AllEqual(w: seq<Msg>, m: Msg, n: nat)
    requires n <= |w|
    requires forall i :: 0 <= i < |w| ==> w[i] == if i == 0 then m else w[i - 1]
    ensures forall i :: 0 <= i < n ==> w[i] == m
  {
    if n > 0 {
      AllEqual(w, m, n - 1);
      assert w[n - 1] == if n - 1 == 0 then m else w[n - 2];
    }
  }

  lemma ReturnPlaces(q: Que, c: Ctx)
    requires WellFormed(q) && Partition(q, NOTHING) && q.dtq != []
    ensures var p := FreeNotify(DtqPop(q), q.dtq[0], c);
            WellFormed(p) && Partition(p, NOTHING) && Window(p) == Window(q)
  {
    DtqHeadCounts(q, NOTHING);
    var p := FreeNotify(DtqPop(q), q.dtq[0], c);
    assert Window(p) == Window(q);
    SamePartition(q, p);
  }

  /** Taking the head of the data queue and returning its slot. */
  lemma Returns(q: Que, c: Ctx, lost: nat)
    requires Quiet(q, lost) && c.mie && q.dtq != []
    ensures var p := FreeNotify(DtqPop(q), q.dtq[0], c);
            && Quiet(p, lost) && p.cnt == q.cnt && p.depth == q.depth && p.dtq == q.dtq[1..]
            && Contents(q) == [Read(q.pool, q.dtq[0])] + Contents(p)
  {
    hide Partition, Window;
    ReturnPlaces(q, c);
    ReadAllJoins(q.pool, [q.dtq[0]], q.dtq[1..]);
    assert q.dtq == [q.dtq[0]] + q.dtq[1..];
    assert Contents(q) == ReadAll(q.pool, [q.dtq[0]]) + (ReadAll(q.pool, q.dtq[1..]) + ReadAll(q.pool, Window(q)));
  }

  /** esp_shim_queue_recv takes the oldest message, parked ones included, whenever its context may
      receive at all.  A context that may not gets nothing, and then it leaves the queue as it was
      unless the CPU is locked and something is parked. */
  lemma RecvIsFifo(q: Que, c: Ctx, forever: bool)
    requires Quiet(q, 0)
    ensures var (p, r) := RecvCall(q, c, forever);
            && WellFormed(p)
            && (CanPoll(c) && Contents(q) != [] ==> r == Got(Contents(q)[0]) && Contents(p) == Contents(q)[1..])
            && (CanPoll(c) && Contents(q) == [] ==>
                  r == (if CanWait(c) && forever then WaitsForOne else NoMessage) && Contents(p) == [])
            && (!CanPoll(c) ==> r == NoMessage && (Contents(p) == Contents(q) <==> c.mie || q.cnt == 0))
  {
    if c.mie {
      UnlockedFlushIsQuiet(q, c, 0);
      var f := FlushCall(q, c);
      if f.dtq != [] {
        Returns(f, c, 0);
      }
    } else {
      LockedFlushIsQuiet(q, c, 0);
      assert q.cnt == 0 ==> ReadAll(q.pool, Window(q)) == [];
    }
  }

  lemma {:induction false} DrainEmpties(q: Que, c: Ctx, lost: nat)
    requires Quiet(q, lost) && CanPoll(c)
    ensures var p := Drain(q, c);
            Quiet(p, lost) && p.dtq == [] && p.cnt == q.cnt && p.depth == q.depth
    decreases |q.dtq|
  {
    if q.dtq != [] {
      Returns(q, c, lost);
      DrainEmpties(FreeNotify(DtqPop(q), q.dtq[0], c), c, lost);
    }
  }

  /** esp_shim_queue_reset, from a task that has not locked the CPU and with nobody else inside, frees
      every slot and brings the accounting back to that of a new queue, whatever mix of token and debt
      sends came before.  Only tokens lost earlier stay lost.  From any other context it empties
      nothing but, when locked, the ring. */
  lemma ResetRestores(q: Que, c: Ctx, lost: nat)
    requires Quiet(q, lost)
    ensures var p := ResetCall(q, c);
            && WellFormed(p) && p.cnt == 0 && p.depth == q.depth
            && (CanPoll(c) ==>
                  && p.dtq == [] && p.debt == 0 && p.sem + lost == p.depth
                  && multiset(p.free) == multiset(AllSlots(p.depth)))
            && (!CanPoll(c) ==> p.dtq == q.dtq + if c.mie then Window(q) else [])
  {
    if c.mie {
      UnlockedFlushIsQuiet(q, c, lost);
      if CanPoll(c) {
        var f := FlushCall(q, c);
        DrainEmpties(f, c, lost);
        var p := Drain(f, c);
        AllSlotsCounts(p.depth);
        assert Window(p) == [];
        forall k: nat
          ensures multiset(p.free)[k] == multiset(AllSlots(p.depth))[k]
        {
          assert Tally(p, NOTHING, k) == if k < p.depth then 1 else 0;
        }
        assert multiset(p.free) == multiset(AllSlots(p.depth));
      }
    } else {
      LockedFlushIsQuiet(q, c, lost);
    }
  }

  // ---------------------------------------------------------------- call sequences

  function Perform(q: Que, op: Op, c: Ctx): Que {
    match op
    case Send(m, forever) => SendCall(q, c, m, forever).0
    case SendFromIsr(m) => SendFromIsrCall(q, c, m).0
    case Recv(forever) => RecvCall(q, c, forever).0
    case Reset => ResetCall(q, c)
    case Flush => FlushCall(q, c)
  }

  datatype Call = Call(op: Op, c: Ctx)

  function PerformAll(q: Que, calls: seq<Call>): Que {
    if calls == [] then q
    else Perform(PerformAll(q, calls[..|calls| - 1]), calls[|calls| - 1].op, calls[|calls| - 1].c)
  }

  /** No token is missing, and every parked message is still covered by debt. */
  ghost predicate Settled(q: Que) {
    Quiet(q, 0) && q.cnt <= q.debt
  }

  lemma PerformKeepsSettled(q: Que, op: Op, c: Ctx)
    requires Settled(q)
    ensures Settled(Perform(q, op, c)) && Perform(q, op, c).depth == q.depth
  {
    match op
    case Send(m, forever) => SendKeepsSettled(q, c, m, forever);
    case SendFromIsr(m) =>
      if !c.mie {
        ParkEnqueues(q, m, 0);
      } else if q.free != [] {
        SendFromIsrOvertakes(q, c, m);
      } else {
        FullSendFromIsr(q, c, m);
      }
    case Recv(forever) => RecvKeepsSettled(q, c, forever);
    case Reset => ResetKeepsSettled(q, c);
    case Flush => FlushKeepsSettled(q, c);
  }

  lemma FlushKeepsSettled(q: Que, c: Ctx)
    requires Settled(q)
    ensures Settled(FlushCall(q, c)) && FlushCall(q, c).cnt == 0 && FlushCall(q, c).depth == q.depth
  {
    if c.mie { UnlockedFlushIsQuiet(q, c, 0); } else { LockedFlushIsQuiet(q, c, 0); }
  }

  lemma SendKeepsSettled(q: Que, c: Ctx, m: Msg, forever: bool)
    requires Settled(q)
    ensures Settled(SendCall(q, c, m, forever).0) && SendCall(q, c, m, forever).0.depth == q.depth
  {
    hide Partition, Enqueues, TokenSend, Park;
    FlushKeepsSettled(q, c);
    var f := FlushCall(q, c);
    if !CanPoll(c) {
      ParkEnqueues(f, m, 0);
    } else if f.sem > 0 {
      TokenSendEnqueues(f, c, m);
    }
  }

  lemma RecvKeepsSettled(q: Que, c: Ctx, forever: bool)
    requires Settled(q)
    ensures Settled(RecvCall(q, c, forever).0) && RecvCall(q, c, forever).0.depth == q.depth
  {
    hide Partition, FreeNotify, DtqPop;
    FlushKeepsSettled(q, c);
    var f := FlushCall(q, c);
    if CanPoll(c) && f.dtq != [] {
      Returns(f, c, 0);
    }
  }

  lemma ResetKeepsSettled(q: Que, c: Ctx)
    requires Settled(q)
    ensures Settled(ResetCall(q, c)) && ResetCall(q, c).depth == q.depth
  {
    FlushKeepsSettled(q, c);
    if CanPoll(c) {
      DrainEmpties(FlushCall(q, c), c, 0);
    }
  }

  /** Calls that do not overlap never lose a token, in whatever contexts they run: locked flushes then
      cost messages only.  (Losing a token takes preemption; see LockedFlushLosesAToken.) */
  lemma {:induction false} CallsKeepSettled(ring: seq<nat>, pool: seq<Msg>, calls: seq<Call>)
    requires |ring| == |pool| <= DTQ_CNT
    ensures var q := PerformAll(Fresh(|pool|, ring, pool), calls);
            Settled(q) && q.sem == |q.free| + q.debt && q.depth == |pool|
  {
    if calls == [] {
      FreshIsSettled(ring, pool);
    } else {
      CallsKeepSettled(ring, pool, calls[..|calls| - 1]);
      PerformKeepsSettled(PerformAll(Fresh(|pool|, ring, pool), calls[..|calls| - 1]),
                          calls[|calls| - 1].op, calls[|calls| - 1].c);
    }
  }

  lemma FreshIsSettled(ring: seq<nat>, pool: seq<Msg>)
    requires |ring| == |pool| <= DTQ_CNT
    ensures Settled(Fresh(|pool|, ring, pool))
  {
    FreshPlaces(ring, pool);
  }
}
