/** The slot queue under preemption.  Any number of contexts run the five queue calls; control may
    pass to another context before every kernel call and every SHIM_LOCK section, and such a call or
    section is one atomic step.  A ghostly record of every message is kept beside the queue. */
module QueueProtocol {
  import opened Kernel
  import opened SlotQueue

  // ---------------------------------------------------------------- the calls and their steps

  datatype Op =
    | Send(m: Msg, forever: bool)
    | SendFromIsr(m: Msg)
    | Recv(forever: bool)
    | Reset
    | Flush

  /** What a call goes on to once its opportunistic flush is over. */
  datatype Then = ToSend(m: Msg, forever: bool) | ToRecv(forever: bool) | ToReset | ToDone

  /** What a context goes on to once it has returned a slot. */
  datatype After = AfterFlush(k: Then) | AfterReset | AfterCall

  /** Where a context stands.  `Idle` is outside every call. */
  datatype Local =
    | Idle
    | Flushing(c: Ctx, k: Then)
    | FlushHold(c: Ctx, slot: nat, k: Then)
    | Freeing(c: Ctx, slot: nat, next: After)
    | Signalling(c: Ctx, next: After)
    | Sending(c: Ctx, m: Msg, forever: bool)
    | SendAlloc(c: Ctx, m: Msg)
    | SendUndo(c: Ctx)
    | SendCopy(c: Ctx, slot: nat, m: Msg)
    | SendPost(c: Ctx, slot: nat)
    | ParkAlloc(c: Ctx, m: Msg)
    | ParkPush(c: Ctx, slot: nat)
    | IsrPoll(c: Ctx, m: Msg)
    | IsrDebt(c: Ctx, m: Msg)
    | IsrPost(c: Ctx, slot: nat)
    | Receiving(c: Ctx, forever: bool)
    | RecvCopy(c: Ctx, slot: nat)
    | Resetting(c: Ctx)

  /** A scheduling choice: begin a call, run one step, or let a finite wait expire. */
  datatype Act = Begin(op: Op, c: Ctx) | Go | Expire

  /** What became of a message.  Its number is its place in `log`. */
  datatype Fate =
    | Held(slot: nat)        // copied into the pool by a send that has not returned yet
    | Queued(slot: nat)      // accepted: the send returned 1
    | Delivered(at: nat)     // copied out by a receive
    | Discarded              // taken out by a reset
    | Dropped(at: nat)       // thrown away by a flush
    | Refused                // copied, but the send returned 0

  datatype Delivery = Delivery(id: nat, bytes: Msg)
  datatype Drop = Drop(id: nat, c: Ctx)

  /** The record: every message ever copied in, its fate, the message each loaded slot carries, all
      deliveries and drops in order, and the sig_sem calls that returned E_CTX.  `fault` is set when
      an array of the shim would be overrun. */
  datatype Hist = Hist(
    log: seq<Msg>,
    fate: seq<Fate>,
    slotId: map<nat, nat>,
    deliv: seq<Delivery>,
    dropped: seq<Drop>,
    lost: nat,
    fault: bool)

  datatype Out = Out(q: Que, h: Hist, l: Local)

  function Fault(h: Hist): Hist {
    h.(fault := true)
  }

  /** A slot is loaded with a new message. */
  function Load(h: Hist, slot: nat, m: Msg): Hist {
    h.(log := h.log + [m], fate := h.fate + [Held(slot)], slotId := h.slotId[slot := |h.log|])
  }

  /** The message of `slot` meets fate `f`; it leaves the slot unless it is queued there. */
  function Settle(h: Hist, slot: nat, f: Fate): Hist {
    if slot in h.slotId && h.slotId[slot] < |h.fate| then
      h.(fate := h.fate[h.slotId[slot] := f],
         slotId := if f.Queued? then h.slotId else h.slotId - {slot})
    else
      Fault(h)
  }

  function Deliver(h: Hist, slot: nat, bytes: Msg): Hist {
    if slot in h.slotId then
      Settle(h, slot, Delivered(|h.deliv|)).(deliv := h.deliv + [Delivery(h.slotId[slot], bytes)])
    else
      Fault(h)
  }

  function Throw(h: Hist, slot: nat, c: Ctx): Hist {
    if slot in h.slotId then
      Settle(h, slot, Dropped(|h.dropped|)).(dropped := h.dropped + [Drop(h.slotId[slot], c)])
    else
      Fault(h)
  }

  function Enter(op: Op, c: Ctx): Local {
    match op
    case Send(m, forever) => Flushing(c, ToSend(m, forever))
    case SendFromIsr(m) => IsrPoll(c, m)
    case Recv(forever) => Flushing(c, ToRecv(forever))
    case Reset => Flushing(c, ToReset)
    case Flush => Flushing(c, ToDone)
  }

  function Continue(c: Ctx, k: Then): Local {
    match k
    case ToSend(m, forever) => Sending(c, m, forever)
    case ToRecv(forever) => Receiving(c, forever)
    case ToReset => Resetting(c)
    case ToDone => Idle
  }

  function Resume(c: Ctx, next: After): Local {
    match next
    case AfterFlush(k) => Flushing(c, k)
    case AfterReset => Resetting(c)
    case AfterCall => Idle
  }

  /** One round of esp_shim_queue_flush_pending up to its psnd_dtq. */
  function StepFlushing(q: Que, h: Hist, c: Ctx, k: Then): Out {
    if q.cnt == 0 then Out(q, h, Continue(c, k))
    else if q.rd < |q.ring| then Out(RingPop(q), h, FlushHold(c, q.ring[q.rd], k))
    else Out(q, Fault(h), Idle)
  }

  /** psnd_dtq of the popped slot; when it fails the message is thrown away. */
  function StepFlushHold(q: Que, h: Hist, c: Ctx, slot: nat, k: Then): Out {
    if CanSignal(c) && |q.dtq| < DTQ_CNT then Out(DtqPush(q, slot), h, Flushing(c, k))
    else Out(q, Throw(h, slot, c), Freeing(c, slot, AfterFlush(k)))
  }

  function StepFreeing(q: Que, h: Hist, c: Ctx, slot: nat, next: After): Out {
    if |q.free| >= q.depth then Out(q, Fault(h), Idle)
    else Out(SlotRelease(q, slot), h, if q.debt > 0 then Resume(c, next) else Signalling(c, next))
  }

  function StepSignalling(q: Que, h: Hist, c: Ctx, next: After): Out {
    if CanSignal(c) then Out(q.(sem := q.sem + 1), h, Resume(c, next))
    else Out(q, h.(lost := h.lost + 1), Resume(c, next))
  }

  /** twai_sem, or pol_sem after it returned E_CTX, or the parking path after both did. */
  function StepSending(q: Que, h: Hist, c: Ctx, m: Msg, forever: bool, a: Act): Out {
    if !CanPoll(c) then Out(q, h, ParkAlloc(c, m))
    else if q.sem > 0 then Out(q.(sem := q.sem - 1), h, SendAlloc(c, m))
    else if !CanWait(c) || (a.Expire? && !forever) then Out(q, h, Idle)
    else Out(q, h, Sending(c, m, forever))
  }

  function StepSendAlloc(q: Que, h: Hist, c: Ctx, m: Msg): Out {
    if q.free == [] then Out(q, h, SendUndo(c))
    else Out(SlotAlloc(q), h, SendCopy(c, TopSlot(q), m))
  }

  function StepSendUndo(q: Que, h: Hist, c: Ctx): Out {
    if CanSignal(c) then Out(q.(sem := q.sem + 1), h, Idle)
    else Out(q, h.(lost := h.lost + 1), Idle)
  }

  function StepSendCopy(q: Que, h: Hist, c: Ctx, slot: nat, m: Msg): Out {
    if slot < |q.pool| then Out(CopyIn(q, slot, m), Load(h, slot, m), SendPost(c, slot))
    else Out(q, Fault(h), Idle)
  }

  /** tsnd_dtq, or psnd_dtq when it returned E_CTX. */
  function StepSendPost(q: Que, h: Hist, c: Ctx, slot: nat): Out {
    if CanSignal(c) && |q.dtq| < DTQ_CNT then Out(DtqPush(q, slot), Settle(h, slot, Queued(slot)), Idle)
    else Out(q, Settle(h, slot, Refused), Freeing(c, slot, AfterCall))
  }

  /** shim_que_slot_alloc_debt_copy, for a parking send or for an interrupt send. */
  function StepDebt(q: Que, h: Hist, c: Ctx, m: Msg, isr: bool): Out {
    if q.free == [] then Out(q, h, Idle)
    else if TopSlot(q) < |q.pool| then
      Out(DebtAlloc(q, m), Load(h, TopSlot(q), m),
          if isr then IsrPost(c, TopSlot(q)) else ParkPush(c, TopSlot(q)))
    else Out(q, Fault(h), Idle)
  }

  function StepParkPush(q: Que, h: Hist, slot: nat): Out {
    if q.wr < |q.ring| && q.cnt < q.depth then Out(RingPush(q, slot), Settle(h, slot, Queued(slot)), Idle)
    else Out(q, Fault(h), Idle)
  }

  function StepIsrPoll(q: Que, h: Hist, c: Ctx, m: Msg): Out {
    if !CanPoll(c) then Out(q, h, IsrDebt(c, m))
    else if q.sem > 0 then Out(q.(sem := q.sem - 1), h, SendAlloc(c, m))
    else Out(q, h, Idle)
  }

  function StepIsrPost(q: Que, h: Hist, c: Ctx, slot: nat): Out {
    if !CanSignal(c) then Out(q, h, ParkPush(c, slot))
    else StepSendPost(q, h, c, slot)
  }

  /** trcv_dtq, or prcv_dtq when it returned E_CTX. */
  function StepReceiving(q: Que, h: Hist, c: Ctx, forever: bool, a: Act): Out {
    if !CanPoll(c) then Out(q, h, Idle)
    else if q.dtq != [] then Out(DtqPop(q), h, RecvCopy(c, q.dtq[0]))
    else if !CanWait(c) || (a.Expire? && !forever) then Out(q, h, Idle)
    else Out(q, h, Receiving(c, forever))
  }

  function StepRecvCopy(q: Que, h: Hist, c: Ctx, slot: nat): Out {
    if slot < |q.pool| then Out(q, Deliver(h, slot, q.pool[slot]), Freeing(c, slot, AfterCall))
    else Out(q, Fault(h), Idle)
  }

  function StepResetting(q: Que, h: Hist, c: Ctx): Out {
    if CanPoll(c) && q.dtq != [] then
      Out(DtqPop(q), Settle(h, q.dtq[0], Discarded), Freeing(c, q.dtq[0], AfterReset))
    else Out(q, h, Idle)
  }

  /** One step of one context. */
  function Step(q: Que, h: Hist, l: Local, a: Act): Out {
    match l
    case Idle => Out(q, h, if a.Begin? then Enter(a.op, a.c) else Idle)
    case Flushing(c, k) => StepFlushing(q, h, c, k)
    case FlushHold(c, slot, k) => StepFlushHold(q, h, c, slot, k)
    case Freeing(c, slot, next) => StepFreeing(q, h, c, slot, next)
    case Signalling(c, next) => StepSignalling(q, h, c, next)
    case Sending(c, m, forever) => StepSending(q, h, c, m, forever, a)
    case SendAlloc(c, m) => StepSendAlloc(q, h, c, m)
    case SendUndo(c) => StepSendUndo(q, h, c)
    case SendCopy(c, slot, m) => StepSendCopy(q, h, c, slot, m)
    case SendPost(c, slot) => StepSendPost(q, h, c, slot)
    case ParkAlloc(c, m) => StepDebt(q, h, c, m, false)
    case ParkPush(c, slot) => StepParkPush(q, h, slot)
    case IsrPoll(c, m) => StepIsrPoll(q, h, c, m)
    case IsrDebt(c, m) => StepDebt(q, h, c, m, true)
    case IsrPost(c, slot) => StepIsrPost(q, h, c, slot)
    case Receiving(c, forever) => StepReceiving(q, h, c, forever, a)
    case RecvCopy(c, slot) => StepRecvCopy(q, h, c, slot)
    case Resetting(c) => StepResetting(q, h, c)
  }

  // ---------------------------------------------------------------- what the contexts hold

  /** Resources in the hands of contexts: tokens taken whose slot is not allocated yet, releases
      whose sig_sem is still to come, the number of slots held, and which ones: without a message
      (`blank`), loaded by an unfinished send (`loaded`), or on their way between ring, data queue
      and receiver (`transit`); and flushes that have just thrown a message away (`mourning`). */
  datatype Holding = Holding(
    tokens: nat,
    signals: nat,
    slots: nat,
    blank: multiset<nat>,
    loaded: multiset<nat>,
    transit: multiset<nat>,
    mourning: nat)

  const NOTHING := Holding(0, 0, 0, multiset{}, multiset{}, multiset{}, 0)

  function Plus(a: Holding, b: Holding): Holding {
    Holding(a.tokens + b.tokens, a.signals + b.signals, a.slots + b.slots, a.blank + b.blank,
            a.loaded + b.loaded, a.transit + b.transit, a.mourning + b.mourning)
  }

  function Hold(l: Local): Holding {
    match l
    case SendAlloc(_, _) => NOTHING.(tokens := 1)
    case SendUndo(_) => NOTHING.(tokens := 1)
    case Signalling(_, next) => NOTHING.(signals := 1, mourning := if next.AfterFlush? then 1 else 0)
    case FlushHold(_, slot, _) => NOTHING.(slots := 1, transit := multiset{slot})
    case RecvCopy(_, slot) => NOTHING.(slots := 1, transit := multiset{slot})
    case Freeing(_, slot, next) =>
      NOTHING.(slots := 1, blank := multiset{slot}, mourning := if next.AfterFlush? then 1 else 0)
    case SendCopy(_, slot, _) => NOTHING.(slots := 1, blank := multiset{slot})
    case SendPost(_, slot) => NOTHING.(slots := 1, loaded := multiset{slot})
    case ParkPush(_, slot) => NOTHING.(slots := 1, loaded := multiset{slot})
    case IsrPost(_, slot) => NOTHING.(slots := 1, loaded := multiset{slot})
    case _ => NOTHING
  }

  function Total(ts: seq<Local>): Holding {
    if ts == [] then NOTHING else Plus(Total(ts[..|ts| - 1]), Hold(ts[|ts| - 1]))
  }

  /** What everyone but context `i` holds. */
  function Rest(ts: seq<Local>, i: nat): Holding
    requires i < |ts|
  {
    if i == |ts| - 1 then Total(ts[..i]) else Plus(Rest(ts[..|ts| - 1], i), Hold(ts[|ts| - 1]))
  }

  lemma PlusSwaps(a: Holding, b: Holding, c: Holding)
    ensures Plus(Plus(a, b), c) == Plus(Plus(a, c), b)
  {
    var x, y := Plus(Plus(a, b), c), Plus(Plus(a, c), b);
    assert x.blank == y.blank;
    assert x.loaded == y.loaded;
    assert x.transit == y.transit;
  }

  lemma {:induction false} TotalSplits(ts: seq<Local>, i: nat, l: Local)
    requires i < |ts|
    ensures Total(ts[i := l]) == Plus(Rest(ts, i), Hold(l))
  {
    hide Plus, Hold;
    var us, n := ts[i := l], |ts| - 1;
    if i == n {
      assert us[..n] == ts[..n];
    } else {
      assert us[..n] == ts[..n][i := l];
      TotalSplits(ts[..n], i, l);
      PlusSwaps(Rest(ts[..n], i), Hold(l), Hold(ts[n]));
    }
  }

  // ---------------------------------------------------------------- the invariant

  /** How often slot `k` occurs among the slots that carry an accepted message. */
  ghost function Carries(q: Que, H: Holding, k: nat): nat
    requires WellFormed(q)
  {
    multiset(q.dtq)[k] + multiset(Window(q))[k] + H.transit[k]
  }

  /** How often slot `k` occurs anywhere. */
  ghost function Tally(q: Que, H: Holding, k: nat): nat
    requires WellFormed(q)
  {
    multiset(q.free)[k] + Carries(q, H, k) + H.blank[k] + H.loaded[k]
  }

  /** Every slot is in exactly one place. */
  ghost predicate Partition(q: Que, H: Holding)
    requires WellFormed(q)
  {
    && |q.free| + |q.dtq| + q.cnt + H.slots == q.depth
    && forall k: nat :: Tally(q, H, k) == if k < q.depth then 1 else 0
  }

  /** Tokens and debt balance the free slots, but for the tokens lost to a locked CPU. */
  ghost predicate Ledger(q: Que, h: Hist, H: Holding) {
    && q.sem + H.tokens + H.signals + h.lost == |q.free| + q.debt
    && |q.free| + q.debt <= q.depth
    && h.lost + H.mourning <= |h.dropped|
  }

  ghost function Carried(q: Que, H: Holding): set<nat>
    requires WellFormed(q)
  {
    set k: nat | k < q.depth && Carries(q, H, k) > 0
  }

  ghost function LoadedIn(q: Que, H: Holding): set<nat> {
    set k: nat | k < q.depth && H.loaded[k] > 0
  }

  /** Loaded slots and live messages correspond one to one, and the pool holds their bytes. */
  ghost predicate Cargo(h: Hist, pool: seq<Msg>, carried: set<nat>, loaded: set<nat>) {
    && |h.fate| == |h.log|
    && h.slotId.Keys == carried + loaded
    && (forall k :: k in h.slotId ==>
          && h.slotId[k] < |h.log|
          && k < |pool|
          && pool[k] == h.log[h.slotId[k]]
          && h.fate[h.slotId[k]] == if k in loaded then Held(k) else Queued(k))
    && (forall id :: 0 <= id < |h.fate| && (h.fate[id].Held? || h.fate[id].Queued?) ==>
          h.fate[id].slot in h.slotId && h.slotId[h.fate[id].slot] == id)
  }

  /** What the record says about messages that are gone. */
  ghost predicate Past(h: Hist) {
    && |h.fate| == |h.log|
    && (forall id :: 0 <= id < |h.fate| ==> !h.fate[id].Refused?)
    && (forall id :: 0 <= id < |h.fate| && h.fate[id].Delivered? ==>
          h.fate[id].at < |h.deliv| && h.deliv[h.fate[id].at].id == id)
    && (forall j :: 0 <= j < |h.deliv| ==>
          && h.deliv[j].id < |h.log|
          && h.deliv[j].bytes == h.log[h.deliv[j].id]
          && h.fate[h.deliv[j].id] == Delivered(j))
    && (forall id :: 0 <= id < |h.fate| && h.fate[id].Dropped? ==>
          h.fate[id].at < |h.dropped| && h.dropped[h.fate[id].at].id == id)
    && (forall j :: 0 <= j < |h.dropped| ==>
          && h.dropped[j].id < |h.log|
          && !h.dropped[j].c.mie
          && h.fate[h.dropped[j].id] == Dropped(j))
  }

  ghost predicate Good(q: Que, h: Hist, H: Holding) {
    && WellFormed(q)
    && !h.fault
    && Partition(q, H)
    && Ledger(q, h, H)
    && Cargo(h, q.pool, Carried(q, H), LoadedIn(q, H))
    && Past(h)
  }

  /** What the kernel calls already made tell about the context: only a flush outlives E_CTX. */
  ghost predicate LocalOk(l: Local) {
    match l
    case SendAlloc(c, _) => CanPoll(c)
    case SendUndo(c) => CanPoll(c)
    case SendCopy(c, _, _) => CanPoll(c)
    case SendPost(c, _) => CanPoll(c)
    case RecvCopy(c, _) => CanPoll(c)
    case Freeing(c, _, next) => next.AfterFlush? || c.mie
    case Signalling(c, next) => next.AfterFlush? || c.mie
    case _ => true
  }

  /** Step lemmas have this conclusion, for whatever the other contexts hold. */
  ghost predicate Kept(o: Out, R: Holding) {
    Good(o.q, o.h, Plus(R, Hold(o.l))) && LocalOk(o.l)
  }

  // ---------------------------------------------------------------- message lemmas

  lemma PastLoads(h: Hist, slot: nat, m: Msg)
    requires Past(h)
    ensures Past(Load(h, slot, m))
  {
  }

  /** A send copies a message into a slot that carries none. */
  lemma CargoLoads(h: Hist, pool: seq<Msg>, carried: set<nat>, loaded: set<nat>, slot: nat, m: Msg)
    requires Cargo(h, pool, carried, loaded) && Past(h)
    requires slot !in carried + loaded && slot < |pool|
    ensures Cargo(Load(h, slot, m), pool[slot := m], carried, loaded + {slot}) && Past(Load(h, slot, m))
  {
    hide Past;
    PastLoads(h, slot, m);
  }

  lemma PastSettles(h: Hist, pool: seq<Msg>, carried: set<nat>, loaded: set<nat>, slot: nat, f: Fate)
    requires Cargo(h, pool, carried, loaded) && Past(h)
    requires slot in carried + loaded && (f.Queued? || f.Discarded?)
    ensures Past(Settle(h, slot, f)) && Settle(h, slot, f).fault == h.fault
  {
  }

  /** A send publishes its message. */
  lemma CargoQueues(h: Hist, pool: seq<Msg>, carried: set<nat>, loaded: set<nat>, slot: nat)
    requires Cargo(h, pool, carried, loaded) && Past(h)
    requires slot in loaded && slot !in carried
    ensures var h' := Settle(h, slot, Queued(slot));
            Cargo(h', pool, carried + {slot}, loaded - {slot}) && Past(h') && h'.fault == h.fault
  {
    PastSettles(h, pool, carried, loaded, slot, Queued(slot));
    hide Past;
  }

  /** A message leaves its slot for good. */
  lemma CargoLeaves(h: Hist, pool: seq<Msg>, carried: set<nat>, loaded: set<nat>, slot: nat, f: Fate)
    requires Cargo(h, pool, carried, loaded)
    requires slot in carried && slot !in loaded
    requires !f.Held? && !f.Queued?
    ensures var h' := Settle(h, slot, f);
            Cargo(h', pool, carried - {slot}, loaded) && h'.fault == h.fault
  {
  }

  lemma PastDelivers(h: Hist, pool: seq<Msg>, carried: set<nat>, loaded: set<nat>, slot: nat)
    requires Cargo(h, pool, carried, loaded) && Past(h)
    requires slot in carried && slot !in loaded
    ensures slot < |pool| && Past(Deliver(h, slot, pool[slot]))
  {
  }

  /** A receive copies the bytes of the message out. */
  lemma CargoDelivers(h: Hist, pool: seq<Msg>, carried: set<nat>, loaded: set<nat>, slot: nat)
    requires Cargo(h, pool, carried, loaded) && Past(h)
    requires slot in carried && slot !in loaded
    ensures slot < |pool|
    ensures var h' := Deliver(h, slot, pool[slot]);
            Cargo(h', pool, carried - {slot}, loaded) && Past(h') && h'.fault == h.fault
  {
    hide Past;
    PastDelivers(h, pool, carried, loaded, slot);
    CargoLeaves(h, pool, carried, loaded, slot, Delivered(|h.deliv|));
  }

  lemma CargoDiscards(h: Hist, pool: seq<Msg>, carried: set<nat>, loaded: set<nat>, slot: nat)
    requires Cargo(h, pool, carried, loaded) && Past(h)
    requires slot in carried && slot !in loaded
    ensures var h' := Settle(h, slot, Discarded);
            Cargo(h', pool, carried - {slot}, loaded) && Past(h') && h'.fault == h.fault
  {
    hide Past;
    PastSettles(h, pool, carried, loaded, slot, Discarded);
    CargoLeaves(h, pool, carried, loaded, slot, Discarded);
  }

  lemma PastThrows(h: Hist, pool: seq<Msg>, carried: set<nat>, loaded: set<nat>, slot: nat, c: Ctx)
    requires Cargo(h, pool, carried, loaded) && Past(h) && !c.mie
    requires slot in carried && slot !in loaded
    ensures Past(Throw(h, slot, c))
  {
  }

  /** A flush in a locked context throws a message away. */
  lemma CargoThrows(h: Hist, pool: seq<Msg>, carried: set<nat>, loaded: set<nat>, slot: nat, c: Ctx)
    requires Cargo(h, pool, carried, loaded) && Past(h) && !c.mie
    requires slot in carried && slot !in loaded
    ensures var h' := Throw(h, slot, c);
            Cargo(h', pool, carried - {slot}, loaded) && Past(h') && h'.fault == h.fault
  {
    hide Past;
    PastThrows(h, pool, carried, loaded, slot, c);
    CargoLeaves(h, pool, carried, loaded, slot, Dropped(|h.dropped|));
  }

  // ---------------------------------------------------------------- slot lemmas

  lemma FreshPlaces(ring: seq<nat>, pool: seq<Msg>)
    requires |ring| == |pool| <= DTQ_CNT
    ensures var q := Fresh(|pool|, ring, pool);
            WellFormed(q) && Partition(q, NOTHING) && Carried(q, NOTHING) == {} && LoadedIn(q, NOTHING) == {}
  {
    var q := Fresh(|pool|, ring, pool);
    AllSlotsCounts(|pool|);
    assert Window(q) == [];
    assert forall k: nat :: Carries(q, NOTHING, k) == 0;
    assert forall k: nat :: Tally(q, NOTHING, k) == multiset(q.free)[k];
  }

  /** A slot that is held is a slot, occurs nowhere else, and leaves room everywhere else. */
  lemma HeldSlot(q: Que, H: Holding, slot: nat)
    requires WellFormed(q) && Partition(q, H) && H.slots > 0
    requires slot in H.blank || slot in H.loaded || slot in H.transit
    ensures slot < q.depth
    ensures multiset(q.free)[slot] + Carries(q, H, slot) + H.blank[slot] + H.loaded[slot] == 1
    ensures |q.dtq| < q.depth && q.cnt < q.depth && |q.free| < q.depth
  {
    assert Tally(q, H, slot) == if slot < q.depth then 1 else 0;
  }

  lemma TopSlotCounts(q: Que, H: Holding)
    requires WellFormed(q) && Partition(q, H) && q.free != []
    ensures TopSlot(q) < q.depth
    ensures Carries(q, H, TopSlot(q)) + H.blank[TopSlot(q)] + H.loaded[TopSlot(q)] == 0
    ensures forall k: nat :: multiset(q.free)[k] == multiset(SlotAlloc(q).free)[k] + if k == TopSlot(q) then 1 else 0
  {
    assert q.free == SlotAlloc(q).free + [TopSlot(q)];
    assert Tally(q, H, TopSlot(q)) == if TopSlot(q) < q.depth then 1 else 0;
  }

  lemma DtqHeadCounts(q: Que, H: Holding)
    requires WellFormed(q) && Partition(q, H) && q.dtq != []
    ensures q.dtq[0] < q.depth
    ensures multiset(q.free)[q.dtq[0]] + H.transit[q.dtq[0]] + H.blank[q.dtq[0]] + H.loaded[q.dtq[0]] == 0
    ensures forall k: nat :: multiset(q.dtq)[k] == multiset(DtqPop(q).dtq)[k] + if k == q.dtq[0] then 1 else 0
  {
    assert q.dtq == [q.dtq[0]] + DtqPop(q).dtq;
    assert Tally(q, H, q.dtq[0]) == if q.dtq[0] < q.depth then 1 else 0;
  }

  lemma RingHeadCounts(q: Que, H: Holding)
    requires WellFormed(q) && Partition(q, H) && q.cnt > 0
    ensures WellFormed(RingPop(q))
    ensures forall k: nat ::
              multiset(Window(q))[k] == multiset(Window(RingPop(q)))[k] + if k == q.ring[q.rd] then 1 else 0
  {
    WindowAfterPop(q);
  }

  function With(s: set<nat>, slot: nat, member: bool): set<nat> {
    if member then s + {slot} else s - {slot}
  }

  /** A step that touches one slot only. */
  lemma OneSlotMoves(q: Que, H: Holding, q': Que, H': Holding, slot: nat)
    requires WellFormed(q) && WellFormed(q') && q'.depth == q.depth && slot < q.depth && Partition(q, H)
    requires |q'.free| + |q'.dtq| + q'.cnt + H'.slots == q.depth
    requires forall k: nat :: Tally(q', H', k) == Tally(q, H, k)
    requires forall k: nat :: k != slot ==> Carries(q', H', k) == Carries(q, H, k)
    requires forall k: nat :: k != slot ==> H'.loaded[k] == H.loaded[k]
    ensures Partition(q', H')
    ensures Carried(q', H') == With(Carried(q, H), slot, Carries(q', H', slot) > 0)
    ensures LoadedIn(q', H') == With(LoadedIn(q, H), slot, H'.loaded[slot] > 0)
  {
  }

  /** A step that touches no slot. */
  lemma NoSlotMoves(q: Que, H: Holding, q': Que, H': Holding)
    requires WellFormed(q) && WellFormed(q') && q'.depth == q.depth && Partition(q, H)
    requires |q'.free| + |q'.dtq| + q'.cnt + H'.slots == q.depth
    requires forall k: nat :: Tally(q', H', k) == Tally(q, H, k)
    requires forall k: nat :: Carries(q', H', k) == Carries(q, H, k)
    requires forall k: nat :: H'.loaded[k] == H.loaded[k]
    ensures Partition(q', H') && Carried(q', H') == Carried(q, H) && LoadedIn(q', H') == LoadedIn(q, H)
  {
  }

  // ---------------------------------------------------------------- every step keeps the invariant

  lemma RingPopPlaces(q: Que, H: Holding, H': Holding)
    requires WellFormed(q) && Partition(q, H) && q.cnt > 0
    requires H' == Plus(H, NOTHING.(slots := 1, transit := multiset{q.ring[q.rd]}))
    ensures var q' := RingPop(q);
            && WellFormed(q') && Partition(q', H')
            && Carried(q', H') == Carried(q, H) && LoadedIn(q', H') == LoadedIn(q, H)
  {
    RingHeadCounts(q, H);
    NoSlotMoves(q, H, RingPop(q), H');
  }

  /** Holding no slot adds to the counts only. */
  lemma PlusCounts(R: Holding, x: Holding)
    requires x.slots == 0 && x.blank == x.loaded == x.transit == multiset{}
    ensures Plus(R, x) == R.(tokens := R.tokens + x.tokens, signals := R.signals + x.signals,
                             mourning := R.mourning + x.mourning)
  {
    assert R.blank + multiset{} == R.blank;
    assert R.loaded + multiset{} == R.loaded;
    assert R.transit + multiset{} == R.transit;
  }

  /** Places and cargo do not depend on the counts. */
  lemma CountsDoNotPlace(q: Que, H: Holding, q': Que, H': Holding)
    requires WellFormed(q) && Partition(q, H)
    requires q' == q.(sem := q'.sem)
    requires H' == H.(tokens := H'.tokens, signals := H'.signals, mourning := H'.mourning)
    ensures WellFormed(q') && Partition(q', H')
    ensures Carried(q', H') == Carried(q, H) && LoadedIn(q', H') == LoadedIn(q, H)
  {
    assert Window(q') == Window(q);
    NoSlotMoves(q, H, q', H');
  }

  lemma KeepRingPop(q: Que, h: Hist, c: Ctx, k: Then, R: Holding)
    requires Good(q, h, R) && q.cnt > 0
    ensures Good(RingPop(q), h, Plus(R, Hold(FlushHold(c, q.ring[q.rd], k))))
  {
    hide Partition, Carried, LoadedIn, Cargo, Past;
    RingPopPlaces(q, R, Plus(R, Hold(FlushHold(c, q.ring[q.rd], k))));
  }

  lemma KeepFlushing(q: Que, h: Hist, c: Ctx, k: Then, R: Holding)
    requires Good(q, h, Plus(R, Hold(Flushing(c, k))))
    ensures Kept(StepFlushing(q, h, c, k), R)
  {
    PlusCounts(R, NOTHING);
    if q.cnt > 0 {
      KeepRingPop(q, h, c, k, R);
    }
  }

  lemma KeepDtqPush(q: Que, h: Hist, H: Holding, slot: nat, H': Holding)
    requires WellFormed(q) && Partition(q, H) && |q.dtq| < q.depth
    requires H'.slots + 1 == H.slots && H'.blank == H.blank
    requires forall k: nat :: H.transit[k] + H.loaded[k] == H'.transit[k] + H'.loaded[k] + if k == slot then 1 else 0
    requires slot < q.depth && forall k: nat :: k != slot ==> H'.transit[k] == H.transit[k]
    ensures var q' := DtqPush(q, slot);
            && WellFormed(q') && Partition(q', H')
            && Carried(q', H') == Carried(q, H) + {slot}
            && LoadedIn(q', H') == With(LoadedIn(q, H), slot, H'.loaded[slot] > 0)
  {
    var q' := DtqPush(q, slot);
    assert Window(q') == Window(q);
    OneSlotMoves(q, H, q', H', slot);
  }

  lemma KeepFlushHold(q: Que, h: Hist, c: Ctx, slot: nat, k: Then, R: Holding)
    requires Good(q, h, Plus(R, Hold(FlushHold(c, slot, k))))
    ensures Kept(StepFlushHold(q, h, c, slot, k), R)
  {
    var H := Plus(R, Hold(FlushHold(c, slot, k)));
    HeldSlot(q, H, slot);
    var o := StepFlushHold(q, h, c, slot, k);
    var H' := Plus(R, Hold(o.l));
    if c.mie {
      KeepDtqPush(q, h, H, slot, H');
      assert Carried(q, H) == Carried(o.q, H');
      assert LoadedIn(q, H) == LoadedIn(o.q, H');
    } else {
      KeepThrow(q, h, c, slot, k, R);
    }
  }

  lemma KeepThrow(q: Que, h: Hist, c: Ctx, slot: nat, k: Then, R: Holding)
    requires Good(q, h, Plus(R, Hold(FlushHold(c, slot, k)))) && !c.mie
    ensures Kept(Out(q, Throw(h, slot, c), Freeing(c, slot, AfterFlush(k))), R)
  {
    var H := Plus(R, Hold(FlushHold(c, slot, k)));
    var H' := Plus(R, Hold(Freeing(c, slot, AfterFlush(k))));
    HeldSlot(q, H, slot);
    OneSlotMoves(q, H, q, H', slot);
    CargoThrows(h, q.pool, Carried(q, H), LoadedIn(q, H), slot, c);
    assert LoadedIn(q, H') == LoadedIn(q, H);
    assert h.slotId.Keys == Carried(q, H) + LoadedIn(q, H);
  }

  lemma ReleasePlaces(q: Que, R: Holding, slot: nat, m: nat, H': Holding)
    requires WellFormed(q)
    requires Partition(q, Plus(R, NOTHING.(slots := 1, blank := multiset{slot}, mourning := m)))
    requires H' == R.(signals := H'.signals, mourning := H'.mourning)
    ensures var q' := SlotRelease(q, slot);
            var H := Plus(R, NOTHING.(slots := 1, blank := multiset{slot}, mourning := m));
            && WellFormed(q') && Partition(q', H')
            && Carried(q', H') == Carried(q, H) && LoadedIn(q', H') == LoadedIn(q, H)
  {
    var H := Plus(R, NOTHING.(slots := 1, blank := multiset{slot}, mourning := m));
    HeldSlot(q, H, slot);
    var q' := SlotRelease(q, slot);
    assert Window(q') == Window(q);
    NoSlotMoves(q, H, q', H');
  }

  lemma KeepFreeing(q: Que, h: Hist, c: Ctx, slot: nat, next: After, R: Holding)
    requires Good(q, h, Plus(R, Hold(Freeing(c, slot, next)))) && LocalOk(Freeing(c, slot, next))
    ensures Kept(StepFreeing(q, h, c, slot, next), R)
  {
    hide Partition, Carried, LoadedIn, Cargo, Past;
    var o := StepFreeing(q, h, c, slot, next);
    HeldSlot(q, Plus(R, Hold(Freeing(c, slot, next))), slot);
    PlusCounts(R, Hold(o.l));
    ReleasePlaces(q, R, slot, if next.AfterFlush? then 1 else 0, Plus(R, Hold(o.l)));
  }

  lemma NoSlotsNothing(l: Local)
    ensures Hold(l).slots == 0 ==> Hold(l).blank == Hold(l).loaded == Hold(l).transit == multiset{}
  {
  }

  /** Steps that only take or give a token. */
  lemma KeepCounts(q: Que, h: Hist, l: Local, q': Que, h': Hist, l': Local, R: Holding)
    requires Good(q, h, Plus(R, Hold(l))) && LocalOk(l')
    requires Hold(l).slots == 0 && Hold(l').slots == 0
    requires q' == q.(sem := q'.sem) && h' == h.(lost := h'.lost)
    requires q'.sem + Hold(l').tokens + Hold(l').signals + h'.lost == q.sem + Hold(l).tokens + Hold(l).signals + h.lost
    requires h'.lost + Hold(l').mourning <= h.lost + Hold(l).mourning
    ensures Kept(Out(q', h', l'), R)
  {
    NoSlotsNothing(l);
    NoSlotsNothing(l');
    hide Partition, Carried, LoadedIn, Hold, LocalOk;
    PlusCounts(R, Hold(l));
    PlusCounts(R, Hold(l'));
    CountsDoNotPlace(q, Plus(R, Hold(l)), q', Plus(R, Hold(l')));
  }

  lemma KeepAlloc(q: Que, h: Hist, c: Ctx, m: Msg, R: Holding)
    requires Good(q, h, R.(tokens := R.tokens + 1)) && q.free != []
    ensures Good(SlotAlloc(q), h, Plus(R, Hold(SendCopy(c, TopSlot(q), m))))
  {
    hide Partition, Carried, LoadedIn, Cargo, Past;
    AllocPlaces(q, R.(tokens := R.tokens + 1), Plus(R, Hold(SendCopy(c, TopSlot(q), m))));
  }

  lemma KeepSendAlloc(q: Que, h: Hist, c: Ctx, m: Msg, R: Holding)
    requires Good(q, h, Plus(R, Hold(SendAlloc(c, m)))) && LocalOk(SendAlloc(c, m))
    ensures Kept(StepSendAlloc(q, h, c, m), R)
  {
    hide Good;
    if q.free == [] {
      KeepCounts(q, h, SendAlloc(c, m), q, h, SendUndo(c), R);
    } else {
      PlusCounts(R, Hold(SendAlloc(c, m)));
      KeepAlloc(q, h, c, m, R);
    }
  }

  lemma AllocPlaces(q: Que, H: Holding, H': Holding)
    requires WellFormed(q) && Partition(q, H) && q.free != []
    requires H'.slots == H.slots + 1
    requires H'.blank == H.blank + multiset{TopSlot(q)} && H'.loaded == H.loaded && H'.transit == H.transit
    ensures var q' := SlotAlloc(q);
            && WellFormed(q') && Partition(q', H')
            && Carried(q', H') == Carried(q, H) && LoadedIn(q', H') == LoadedIn(q, H)
  {
    TopSlotCounts(q, H);
    assert Window(SlotAlloc(q)) == Window(q);
    NoSlotMoves(q, H, SlotAlloc(q), H');
  }

  lemma CopyPlaces(q: Que, R: Holding, slot: nat, m: Msg)
    requires WellFormed(q) && Partition(q, Plus(R, NOTHING.(slots := 1, blank := multiset{slot})))
    ensures slot < |q.pool|
    ensures var q' := CopyIn(q, slot, m);
            var H := Plus(R, NOTHING.(slots := 1, blank := multiset{slot}));
            var H' := Plus(R, NOTHING.(slots := 1, loaded := multiset{slot}));
            && slot !in Carried(q, H) + LoadedIn(q, H)
            && WellFormed(q') && Partition(q', H')
            && Carried(q', H') == Carried(q, H) && LoadedIn(q', H') == LoadedIn(q, H) + {slot}
  {
    var H := Plus(R, NOTHING.(slots := 1, blank := multiset{slot}));
    var H' := Plus(R, NOTHING.(slots := 1, loaded := multiset{slot}));
    HeldSlot(q, H, slot);
    var q' := CopyIn(q, slot, m);
    assert Window(q') == Window(q);
    OneSlotMoves(q, H, q', H', slot);
  }

  lemma KeepCopy(q: Que, h: Hist, c: Ctx, slot: nat, m: Msg, R: Holding)
    requires Good(q, h, Plus(R, NOTHING.(slots := 1, blank := multiset{slot})))
    ensures slot < |q.pool|
    ensures Good(CopyIn(q, slot, m), Load(h, slot, m), Plus(R, NOTHING.(slots := 1, loaded := multiset{slot})))
  {
    hide Partition, Carried, LoadedIn, Cargo, Past;
    var H := Plus(R, NOTHING.(slots := 1, blank := multiset{slot}));
    CopyPlaces(q, R, slot, m);
    CargoLoads(h, q.pool, Carried(q, H), LoadedIn(q, H), slot, m);
  }

  /** A loaded slot goes to the data queue. */
  lemma KeepPost(q: Que, h: Hist, slot: nat, R: Holding)
    requires Good(q, h, Plus(R, NOTHING.(slots := 1, loaded := multiset{slot})))
    ensures |q.dtq| < DTQ_CNT
    ensures Good(DtqPush(q, slot), Settle(h, slot, Queued(slot)), R)
  {
    hide Partition, Cargo, Past;
    var H := Plus(R, NOTHING.(slots := 1, loaded := multiset{slot}));
    HeldSlot(q, H, slot);
    KeepDtqPush(q, h, H, slot, R);
    CargoQueues(h, q.pool, Carried(q, H), LoadedIn(q, H), slot);
  }

  lemma RingPushPlaces(q: Que, H: Holding, H': Holding, slot: nat)
    requires WellFormed(q) && Partition(q, H) && q.cnt < q.depth && slot < q.depth
    requires H'.slots + 1 == H.slots && H'.blank == H.blank && H'.transit == H.transit
    requires H.loaded == H'.loaded + multiset{slot}
    ensures var q' := RingPush(q, slot);
            && WellFormed(q') && Partition(q', H')
            && Carried(q', H') == Carried(q, H) + {slot}
            && LoadedIn(q', H') == With(LoadedIn(q, H), slot, H'.loaded[slot] > 0)
  {
    WindowAfterPush(q, slot);
    OneSlotMoves(q, H, RingPush(q, slot), H', slot);
  }

  /** A loaded slot goes to the ring. */
  lemma KeepPark(q: Que, h: Hist, slot: nat, R: Holding)
    requires Good(q, h, Plus(R, NOTHING.(slots := 1, loaded := multiset{slot})))
    ensures q.cnt < q.depth && q.wr < |q.ring|
    ensures Good(RingPush(q, slot), Settle(h, slot, Queued(slot)), R)
  {
    hide Partition, Cargo, Past;
    var H := Plus(R, NOTHING.(slots := 1, loaded := multiset{slot}));
    HeldSlot(q, H, slot);
    RingPushPlaces(q, H, R, slot);
    CargoQueues(h, q.pool, Carried(q, H), LoadedIn(q, H), slot);
  }

  lemma KeepDebt(q: Que, h: Hist, m: Msg, R: Holding)
    requires Good(q, h, R) && q.free != []
    ensures TopSlot(q) < |q.pool|
    ensures Good(DebtAlloc(q, m), Load(h, TopSlot(q), m), Plus(R, NOTHING.(slots := 1, loaded := multiset{TopSlot(q)})))
  {
    hide Partition, Carried, LoadedIn, Cargo, Past;
    var p := SlotAlloc(q);
    var B := Plus(R, NOTHING.(slots := 1, blank := multiset{TopSlot(q)}));
    AllocPlaces(q, R, B);
    CopyPlaces(p, R, TopSlot(q), m);
    CargoLoads(h, q.pool, Carried(p, B), LoadedIn(p, B), TopSlot(q), m);
    DebtDoesNotPlace(CopyIn(p, TopSlot(q), m), Plus(R, NOTHING.(slots := 1, loaded := multiset{TopSlot(q)})),
                     q.debt + 1);
  }

  lemma DebtDoesNotPlace(q: Que, H: Holding, debt: nat)
    requires WellFormed(q) && Partition(q, H)
    ensures var q' := q.(debt := debt);
            && WellFormed(q') && Partition(q', H)
            && Carried(q', H) == Carried(q, H) && LoadedIn(q', H) == LoadedIn(q, H)
  {
    assert Window(q.(debt := debt)) == Window(q);
    NoSlotMoves(q, H, q.(debt := debt), H);
  }

  lemma DtqPopPlaces(q: Que, H: Holding, H': Holding)
    requires WellFormed(q) && Partition(q, H) && q.dtq != []
    requires H'.slots == H.slots + 1 && H'.loaded == H.loaded
    requires forall k: nat :: H'.transit[k] + H'.blank[k] == H.transit[k] + H.blank[k] + if k == q.dtq[0] then 1 else 0
    requires forall k: nat :: k != q.dtq[0] ==> H'.transit[k] == H.transit[k]
    ensures q.dtq[0] in Carried(q, H) && q.dtq[0] !in LoadedIn(q, H) && q.dtq[0] !in H.transit
    ensures var q' := DtqPop(q);
            && WellFormed(q') && Partition(q', H')
            && Carried(q', H') == With(Carried(q, H), q.dtq[0], H'.transit[q.dtq[0]] > 0)
            && LoadedIn(q', H') == LoadedIn(q, H)
  {
    DtqHeadCounts(q, H);
    var q' := DtqPop(q);
    assert Window(q') == Window(q);
    OneSlotMoves(q, H, q', H', q.dtq[0]);
    assert Tally(q', H', q.dtq[0]) == 1;
  }

  lemma KeepReceiving(q: Que, h: Hist, c: Ctx, R: Holding)
    requires Good(q, h, R) && q.dtq != []
    ensures Good(DtqPop(q), h, Plus(R, Hold(RecvCopy(c, q.dtq[0]))))
  {
    hide Partition, Carried, LoadedIn, Cargo, Past;
    DtqPopPlaces(q, R, Plus(R, Hold(RecvCopy(c, q.dtq[0]))));
    assert Carried(q, R) + {q.dtq[0]} == Carried(q, R);
  }

  lemma KeepResetting(q: Que, h: Hist, c: Ctx, R: Holding)
    requires Good(q, h, R) && q.dtq != []
    ensures Good(DtqPop(q), Settle(h, q.dtq[0], Discarded), Plus(R, Hold(Freeing(c, q.dtq[0], AfterReset))))
  {
    hide Partition, Carried, LoadedIn, Cargo, Past;
    ResetPopPlaces(q, R);
    CargoDiscards(h, q.pool, Carried(q, R), LoadedIn(q, R), q.dtq[0]);
  }

  lemma ResetPopPlaces(q: Que, R: Holding)
    requires WellFormed(q) && Partition(q, R) && q.dtq != []
    ensures q.dtq[0] in Carried(q, R) && q.dtq[0] !in LoadedIn(q, R)
    ensures var q' := DtqPop(q);
            var H' := Plus(R, NOTHING.(slots := 1, blank := multiset{q.dtq[0]}));
            && WellFormed(q') && Partition(q', H')
            && Carried(q', H') == Carried(q, R) - {q.dtq[0]} && LoadedIn(q', H') == LoadedIn(q, R)
  {
    var H' := Plus(R, NOTHING.(slots := 1, blank := multiset{q.dtq[0]}));
    assert H'.loaded == R.loaded && H'.transit == R.transit;
    DtqPopPlaces(q, R, H');
  }

  lemma KeepRecvCopy(q: Que, h: Hist, c: Ctx, slot: nat, R: Holding)
    requires Good(q, h, Plus(R, Hold(RecvCopy(c, slot))))
    ensures slot < |q.pool|
    ensures Good(q, Deliver(h, slot, q.pool[slot]), Plus(R, Hold(Freeing(c, slot, AfterCall))))
  {
    var H := Plus(R, Hold(RecvCopy(c, slot)));
    var H' := Plus(R, Hold(Freeing(c, slot, AfterCall)));
    HeldSlot(q, H, slot);
    OneSlotMoves(q, H, q, H', slot);
    CargoDelivers(h, q.pool, Carried(q, H), LoadedIn(q, H), slot);
    assert LoadedIn(q, H') == LoadedIn(q, H);
  }

  lemma KeepSignalling(q: Que, h: Hist, c: Ctx, next: After, R: Holding)
    requires Good(q, h, Plus(R, Hold(Signalling(c, next)))) && LocalOk(Signalling(c, next))
    ensures Kept(StepSignalling(q, h, c, next), R)
  {
    hide Good, Kept;
    var o := StepSignalling(q, h, c, next);
    KeepCounts(q, h, Signalling(c, next), o.q, o.h, o.l, R);
  }

  lemma KeepSending(q: Que, h: Hist, c: Ctx, m: Msg, forever: bool, a: Act, R: Holding)
    requires Good(q, h, Plus(R, Hold(Sending(c, m, forever))))
    ensures Kept(StepSending(q, h, c, m, forever, a), R)
  {
    hide Good, Kept;
    var o := StepSending(q, h, c, m, forever, a);
    KeepCounts(q, h, Sending(c, m, forever), o.q, o.h, o.l, R);
  }

  lemma KeepIsrPoll(q: Que, h: Hist, c: Ctx, m: Msg, R: Holding)
    requires Good(q, h, Plus(R, Hold(IsrPoll(c, m))))
    ensures Kept(StepIsrPoll(q, h, c, m), R)
  {
    hide Good, Kept;
    var o := StepIsrPoll(q, h, c, m);
    KeepCounts(q, h, IsrPoll(c, m), o.q, o.h, o.l, R);
  }

  lemma KeepSendUndo(q: Que, h: Hist, c: Ctx, R: Holding)
    requires Good(q, h, Plus(R, Hold(SendUndo(c)))) && CanPoll(c)
    ensures Kept(StepSendUndo(q, h, c), R)
  {
    hide Good, Kept;
    var o := StepSendUndo(q, h, c);
    KeepCounts(q, h, SendUndo(c), o.q, o.h, o.l, R);
  }

  lemma KeepDebtStep(q: Que, h: Hist, c: Ctx, m: Msg, isr: bool, R: Holding)
    requires Good(q, h, Plus(R, NOTHING))
    ensures Kept(StepDebt(q, h, c, m, isr), R)
  {
    hide Good;
    PlusCounts(R, NOTHING);
    if q.free != [] {
      KeepDebt(q, h, m, R);
    }
  }

  lemma KeepSendPost(q: Que, h: Hist, c: Ctx, slot: nat, R: Holding)
    requires Good(q, h, Plus(R, NOTHING.(slots := 1, loaded := multiset{slot}))) && c.mie
    ensures Kept(StepSendPost(q, h, c, slot), R)
  {
    hide Good;
    PlusCounts(R, NOTHING);
    KeepPost(q, h, slot, R);
  }

  lemma KeepParkPush(q: Que, h: Hist, slot: nat, R: Holding)
    requires Good(q, h, Plus(R, NOTHING.(slots := 1, loaded := multiset{slot})))
    ensures Kept(StepParkPush(q, h, slot), R)
  {
    hide Good;
    PlusCounts(R, NOTHING);
    KeepPark(q, h, slot, R);
  }

  lemma KeepReceivingStep(q: Que, h: Hist, c: Ctx, forever: bool, a: Act, R: Holding)
    requires Good(q, h, Plus(R, NOTHING))
    ensures Kept(StepReceiving(q, h, c, forever, a), R)
  {
    hide Good, DtqPop;
    PlusCounts(R, NOTHING);
    if q.dtq != [] {
      KeepReceiving(q, h, c, R);
    }
  }

  lemma KeepResettingStep(q: Que, h: Hist, c: Ctx, R: Holding)
    requires Good(q, h, Plus(R, NOTHING))
    ensures Kept(StepResetting(q, h, c), R)
  {
    hide Good;
    PlusCounts(R, NOTHING);
    if q.dtq != [] {
      KeepResetting(q, h, c, R);
    }
  }

  lemma KeepIdle(q: Que, h: Hist, l: Local, R: Holding)
    requires Good(q, h, Plus(R, NOTHING)) && Hold(l) == NOTHING && LocalOk(l)
    ensures Kept(Out(q, h, l), R)
  {
  }

  lemma KeepCopyStep(q: Que, h: Hist, c: Ctx, slot: nat, m: Msg, R: Holding)
    requires Good(q, h, Plus(R, Hold(SendCopy(c, slot, m)))) && CanPoll(c)
    ensures Kept(StepSendCopy(q, h, c, slot, m), R)
  {
    hide Good;
    KeepCopy(q, h, c, slot, m, R);
  }

  lemma KeepRecvCopyStep(q: Que, h: Hist, c: Ctx, slot: nat, R: Holding)
    requires Good(q, h, Plus(R, Hold(RecvCopy(c, slot)))) && CanPoll(c)
    ensures Kept(StepRecvCopy(q, h, c, slot), R)
  {
    hide Good;
    KeepRecvCopy(q, h, c, slot, R);
  }

  lemma KeepIsrPost(q: Que, h: Hist, c: Ctx, slot: nat, R: Holding)
    requires Good(q, h, Plus(R, Hold(IsrPost(c, slot))))
    ensures Kept(StepIsrPost(q, h, c, slot), R)
  {
    hide Good, StepSendPost;
    if c.mie {
      KeepSendPost(q, h, c, slot, R);
    }
  }

  /** Every step of every context keeps the invariant, whatever the others hold. */
  lemma StepKeeps(q: Que, h: Hist, l: Local, a: Act, R: Holding)
    requires Good(q, h, Plus(R, Hold(l))) && LocalOk(l)
    ensures Kept(Step(q, h, l, a), R)
  {
    hide Good, Kept, Plus, StepFlushing, StepFlushHold, StepFreeing, StepSignalling, StepSending, StepSendAlloc,
      StepSendUndo, StepSendCopy, StepSendPost, StepDebt, StepParkPush, StepIsrPoll, StepIsrPost, StepReceiving,
      StepRecvCopy, StepResetting;
    match l
    case Idle => KeepIdle(q, h, Step(q, h, l, a).l, R);
    case Flushing(c, k) => KeepFlushing(q, h, c, k, R);
    case FlushHold(c, slot, k) => KeepFlushHold(q, h, c, slot, k, R);
    case Freeing(c, slot, next) => KeepFreeing(q, h, c, slot, next, R);
    case Signalling(c, next) => KeepSignalling(q, h, c, next, R);
    case Sending(c, m, forever) => KeepSending(q, h, c, m, forever, a, R);
    case SendAlloc(c, m) => KeepSendAlloc(q, h, c, m, R);
    case SendUndo(c) => KeepSendUndo(q, h, c, R);
    case SendCopy(c, slot, m) => KeepCopyStep(q, h, c, slot, m, R);
    case SendPost(c, slot) => KeepSendPost(q, h, c, slot, R);
    case ParkAlloc(c, m) => KeepDebtStep(q, h, c, m, false, R);
    case ParkPush(c, slot) => KeepParkPush(q, h, slot, R);
    case IsrPoll(c, m) => KeepIsrPoll(q, h, c, m, R);
    case IsrDebt(c, m) => KeepDebtStep(q, h, c, m, true, R);
    case IsrPost(c, slot) => KeepIsrPost(q, h, c, slot, R);
    case Receiving(c, forever) => KeepReceivingStep(q, h, c, forever, a, R);
    case RecvCopy(c, slot) => KeepRecvCopyStep(q, h, c, slot, R);
    case Resetting(c) => KeepResettingStep(q, h, c, R);
  }
}
