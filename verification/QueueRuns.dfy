/** Whole runs of the slot queue: what holds after any number of steps of any number of contexts,
    in every interleaving. */
module QueueRuns {
  import opened Kernel
  import opened SlotQueue
  import opened QueueProtocol

  datatype Sys = Sys(q: Que, h: Hist, ts: seq<Local>)

  datatype Event = Event(who: nat, act: Act)

  function Next(s: Sys, e: Event): Sys {
    if e.who < |s.ts| then
      var o := Step(s.q, s.h, s.ts[e.who], e.act);
      Sys(o.q, o.h, s.ts[e.who := o.l])
    else s
  }

  function Run(s: Sys, es: seq<Event>): Sys {
    if es == [] then s else Next(Run(s, es[..|es| - 1]), es[|es| - 1])
  }

  /** esp_shim_queue_create clamps the requested length to the capacity of a data queue. */
  function Clamp(len: nat): (depth: nat)
    ensures depth <= 256 && (len <= 256 ==> depth == len) && (len > 256 ==> depth == 256)
  {
    if len > DTQ_CNT then DTQ_CNT else len
  }

  const NO_HIST := Hist([], [], map[], [], [], 0, false)

  /** A queue just created, with whatever its memory held before, and `n` contexts outside it. */
  function Start(ring: seq<nat>, pool: seq<Msg>, n: nat): Sys {
    Sys(Fresh(|pool|, ring, pool), NO_HIST, seq(n, _ => Idle))
  }

  /** A queue created with requested length `len` after the given events. */
  ghost predicate Reached(len: nat, s: Sys) {
    exists ring: seq<nat>, pool: seq<Msg>, n: nat, es: seq<Event> ::
      |ring| == |pool| == Clamp(len) && s == Run(Start(ring, pool, n), es)
  }

  ghost predicate Inv(s: Sys) {
    && Good(s.q, s.h, Total(s.ts))
    && forall i :: 0 <= i < |s.ts| ==> LocalOk(s.ts[i])
  }

  lemma {:induction false} HoldingNothing(ts: seq<Local>)
    requires forall i :: 0 <= i < |ts| ==> Hold(ts[i]) == NOTHING
    ensures Total(ts) == NOTHING
  {
    hide Hold, Plus;
    if ts != [] {
      HoldingNothing(ts[..|ts| - 1]);
      PlusCounts(NOTHING, NOTHING);
    }
  }

  lemma NoHistIsGood(pool: seq<Msg>)
    ensures Cargo(NO_HIST, pool, {}, {}) && Past(NO_HIST)
  {
  }

  lemma FreshIsGood(ring: seq<nat>, pool: seq<Msg>)
    requires |ring| == |pool| <= DTQ_CNT
    ensures Good(Fresh(|pool|, ring, pool), NO_HIST, NOTHING)
  {
    hide Partition, Carried, LoadedIn, AllSlots, Cargo, Past, WellFormed;
    FreshPlaces(ring, pool);
    NoHistIsGood(pool);
  }

  lemma StartIsGood(ring: seq<nat>, pool: seq<Msg>, n: nat)
    requires |ring| == |pool| <= DTQ_CNT
    ensures Inv(Start(ring, pool, n))
  {
    hide Good, Total;
    HoldingNothing(Start(ring, pool, n).ts);
    FreshIsGood(ring, pool);
  }

  lemma StepKeepsDepth(q: Que, h: Hist, l: Local, a: Act)
    ensures Step(q, h, l, a).q.depth == q.depth
  {
    hide Settle, Load, Deliver, Throw;
  }

  lemma NextKeeps(s: Sys, e: Event)
    requires Inv(s)
    ensures Inv(Next(s, e)) && Next(s, e).q.depth == s.q.depth && |Next(s, e).ts| == |s.ts|
  {
    hide Good, Total, Rest, Hold, LocalOk, Plus, Step;
    if e.who < |s.ts| {
      var l := s.ts[e.who];
      TotalSplits(s.ts, e.who, l);
      assert s.ts[e.who := l] == s.ts;
      StepKeeps(s.q, s.h, l, e.act, Rest(s.ts, e.who));
      TotalSplits(s.ts, e.who, Next(s, e).ts[e.who]);
      StepKeepsDepth(s.q, s.h, l, e.act);
    }
  }

  lemma {:induction false} RunKeeps(s: Sys, es: seq<Event>)
    requires Inv(s)
    ensures Inv(Run(s, es)) && Run(s, es).q.depth == s.q.depth
  {
    hide Inv;
    if es != [] {
      RunKeeps(s, es[..|es| - 1]);
      NextKeeps(Run(s, es[..|es| - 1]), es[|es| - 1]);
    }
  }

  lemma ReachedIsGood(len: nat, s: Sys)
    requires Reached(len, s)
    ensures Inv(s) && s.q.depth == Clamp(len)
  {
    hide Inv;
    var ring: seq<nat>, pool: seq<Msg>, n: nat, es: seq<Event> :|
      |ring| == |pool| == Clamp(len) && s == Run(Start(ring, pool, n), es);
    StartIsGood(ring, pool, n);
    RunKeeps(Start(ring, pool, n), es);
  }

  // ---------------------------------------------------------------- tokens

  /** Tokens are conserved in every interleaving: what the semaphore counts, what contexts have taken
      and what they still owe it add up to the free slots and the debt, short of the tokens that
      locked flushes lost; and each lost token goes with a message such a flush threw away. */
  lemma TokensAreConserved(len: nat, s: Sys)
    requires Reached(len, s)
    ensures s.q.sem + Total(s.ts).tokens + Total(s.ts).signals + s.h.lost == |s.q.free| + s.q.debt
    ensures s.q.debt <= Clamp(len) - |s.q.free|
    ensures s.q.sem <= Clamp(len)
    ensures s.h.lost <= |s.h.dropped|
  {
    ReachedIsGood(len, s);
  }

  /** Between calls, that is when nobody is inside one or everybody inside is waiting. */
  ghost predicate Resting(s: Sys) {
    forall i :: 0 <= i < |s.ts| ==> s.ts[i].Idle? || s.ts[i].Sending? || s.ts[i].Receiving?
  }

  /** While no token is lost, a sender that finds no token really faces a full queue: every slot is
      in the data queue or the ring.  So no wake-up of a blocked sender is ever missed. */
  lemma WaitingSendersFaceAFullQueue(len: nat, s: Sys)
    requires Reached(len, s) && Resting(s)
    requires s.h.lost == 0 && s.q.sem == 0
    ensures s.q.free == [] && s.q.debt == 0 && |s.q.dtq| + s.q.cnt == Clamp(len)
  {
    hide Partition, Cargo, Past;
    ReachedIsGood(len, s);
    HoldingNothing(s.ts);
    RestingSizes(s);
  }

  lemma RestingSizes(s: Sys)
    requires Good(s.q, s.h, NOTHING)
    ensures |s.q.free| + |s.q.dtq| + s.q.cnt == s.q.depth
  {
  }

  /** How waiting for a token or a message ends, in any state of the protocol and whoever runs in between.
      A token or message that is there is taken at the next step.  With none there a call that may not
      wait returns at the next step, having changed nothing; one with a limit returns when this expires,
      and no sooner; one without a limit does not return. */
  lemma WaitsEndRightly(s: Sys, i: nat, a: Act)
    requires i < |s.ts| && (s.ts[i].Sending? || s.ts[i].Receiving?) && CanPoll(s.ts[i].c)
    ensures var t, r := s.ts[i], Next(s, Event(i, a));
            var there := if t.Sending? then s.q.sem > 0 else s.q.dtq != [];
            var mayWait := t.c.mode.Dispatchable? && (t.forever || !a.Expire?);
            && |r.ts| == |s.ts| && r.h == s.h
            && (there && t.Sending? ==> r.ts[i] == SendAlloc(t.c, t.m) && r.q == s.q.(sem := s.q.sem - 1))
            && (there && t.Receiving? ==> r.ts[i] == RecvCopy(t.c, s.q.dtq[0]) && r.q == s.q.(dtq := s.q.dtq[1..]))
            && (!there ==> r.q == s.q && r.ts[i] == if mayWait then t else Idle)
  {
  }

  // ---------------------------------------------------------------- slots

  function SlotOf(l: Local): seq<nat> {
    match l
    case FlushHold(_, slot, _) => [slot]
    case RecvCopy(_, slot) => [slot]
    case Freeing(_, slot, _) => [slot]
    case SendCopy(_, slot, _) => [slot]
    case SendPost(_, slot) => [slot]
    case ParkPush(_, slot) => [slot]
    case IsrPost(_, slot) => [slot]
    case _ => []
  }

  function SlotsInHand(ts: seq<Local>): seq<nat> {
    if ts == [] then [] else SlotsInHand(ts[..|ts| - 1]) + SlotOf(ts[|ts| - 1])
  }

  lemma SlotOfCounts(l: Local)
    ensures |SlotOf(l)| == Hold(l).slots
    ensures forall k: nat :: multiset(SlotOf(l))[k] == Hold(l).blank[k] + Hold(l).loaded[k] + Hold(l).transit[k]
  {
  }

  lemma {:induction false} SlotsInHandCounts(ts: seq<Local>)
    ensures |SlotsInHand(ts)| == Total(ts).slots
    ensures forall k: nat ::
              multiset(SlotsInHand(ts))[k] == Total(ts).blank[k] + Total(ts).loaded[k] + Total(ts).transit[k]
  {
    hide SlotOf, Hold;
    if ts != [] {
      SlotsInHandCounts(ts[..|ts| - 1]);
      SlotOfCounts(ts[|ts| - 1]);
    }
  }

  /** All the places where a slot number is kept, one after the other. */
  ghost function Places(s: Sys): seq<nat>
    requires WellFormed(s.q)
  {
    s.q.free + s.q.dtq + Window(s.q) + SlotsInHand(s.ts)
  }

  lemma AtMostOnce(s: seq<nat>, i: nat, j: nat)
    requires i < j < |s| && multiset(s)[s[i]] <= 1
    ensures s[i] != s[j]
  {
    assert s == s[..j] + s[j..];
    assert s[i] in s[..j];
    assert s[j] in s[j..];
  }

  lemma PlacesCounts(s: Sys)
    requires Good(s.q, s.h, Total(s.ts))
    ensures |Places(s)| == s.q.depth
    ensures forall k: nat :: multiset(Places(s))[k] == if k < s.q.depth then 1 else 0
  {
    SlotsInHandCounts(s.ts);
    forall k: nat
      ensures multiset(Places(s))[k] == if k < s.q.depth then 1 else 0
    {
      assert multiset(Places(s))[k] == Tally(s.q, Total(s.ts), k);
    }
  }

  /** The slots 0..depth-1 are divided without repetition among the free stack, the data queue, the
      live window of the ring and the contexts; hence no array of the shim is ever overrun. */
  lemma SlotsStayApart(len: nat, s: Sys)
    requires Reached(len, s)
    ensures WellFormed(s.q) && |Places(s)| == Clamp(len)
    ensures forall i :: 0 <= i < |Places(s)| ==> Places(s)[i] < Clamp(len)
    ensures forall i, j :: 0 <= i < j < |Places(s)| ==> Places(s)[i] != Places(s)[j]
    ensures !s.h.fault
  {
    hide Partition, Cargo, Past, Places, Total;
    ReachedIsGood(len, s);
    PlacesCounts(s);
    var all := Places(s);
    forall i | 0 <= i < |all|
      ensures all[i] < Clamp(len)
    {
      assert multiset(all)[all[i]] > 0;
    }
    forall i, j | 0 <= i < j < |all|
      ensures all[i] != all[j]
    {
      AtMostOnce(all, i, j);
    }
  }

  lemma GoodSizes(q: Que, h: Hist, H: Holding)
    requires Good(q, h, H)
    ensures |q.free| + |q.dtq| + q.cnt + H.slots == q.depth <= DTQ_CNT
  {
  }

  /** Whoever holds a slot finds room for it in the data queue and in the ring. */
  lemma HoldersFindRoom(len: nat, s: Sys, i: nat)
    requires Reached(len, s) && i < |s.ts| && SlotOf(s.ts[i]) != []
    ensures |s.q.dtq| < Clamp(len) <= DTQ_CNT && s.q.cnt < Clamp(len) && |s.q.free| < Clamp(len)
  {
    hide Good, SlotOf, Hold, Total, Rest;
    ReachedIsGood(len, s);
    SlotOfCounts(s.ts[i]);
    TotalSplits(s.ts, i, s.ts[i]);
    assert s.ts[i := s.ts[i]] == s.ts;
    GoodSizes(s.q, s.h, Total(s.ts));
  }

  // ---------------------------------------------------------------- messages

  /** Context `l` is a send that has copied its message into `k` and not returned. */
  predicate SendsFrom(l: Local, k: nat) {
    (l.SendPost? || l.ParkPush? || l.IsrPost?) && l.slot == k
  }

  /** Context `l` has taken slot `k` out of the ring or the data queue with its message still in it. */
  predicate CarriesAway(l: Local, k: nat) {
    (l.FlushHold? || l.RecvCopy?) && l.slot == k
  }

  lemma {:induction false} WhoHolds(ts: seq<Local>, k: nat)
    ensures k in Total(ts).loaded ==> exists i :: 0 <= i < |ts| && SendsFrom(ts[i], k)
    ensures k in Total(ts).transit ==> exists i :: 0 <= i < |ts| && CarriesAway(ts[i], k)
  {
    if ts != [] {
      var us := ts[..|ts| - 1];
      WhoHolds(us, k);
      if i :| 0 <= i < |us| && SendsFrom(us[i], k) { assert SendsFrom(ts[i], k); }
      if i :| 0 <= i < |us| && CarriesAway(us[i], k) { assert CarriesAway(ts[i], k); }
      if k in Hold(ts[|ts| - 1]).loaded { assert SendsFrom(ts[|ts| - 1], k); }
      if k in Hold(ts[|ts| - 1]).transit { assert CarriesAway(ts[|ts| - 1], k); }
    }
  }

  predicate Live(f: Fate) {
    f.Held? || f.Queued?
  }

  /** Where message `id` is, told by its fate. */
  ghost predicate Accounted(s: Sys, id: nat)
    requires WellFormed(s.q) && id < |s.h.log| == |s.h.fate|
  {
    match s.h.fate[id]
    case Held(k) =>
      k < |s.q.pool| && s.q.pool[k] == s.h.log[id] && exists i :: 0 <= i < |s.ts| && SendsFrom(s.ts[i], k)
    case Queued(k) =>
      && k < |s.q.pool| && s.q.pool[k] == s.h.log[id]
      && (k in s.q.dtq || k in Window(s.q) || exists i :: 0 <= i < |s.ts| && CarriesAway(s.ts[i], k))
    case Delivered(j) => j < |s.h.deliv| && s.h.deliv[j] == Delivery(id, s.h.log[id])
    case Discarded => true
    case Dropped(j) => j < |s.h.dropped| && s.h.dropped[j].id == id && !s.h.dropped[j].c.mie
    case Refused => false
  }

  /** Exactly one thing has become of every message that a send copied in.  It is still in the hands
      of that send; or it was accepted, and then it is queued with its bytes unchanged, or was
      delivered once with its bytes unchanged, or a reset discarded it, or a flush executed on a
      locked CPU dropped it.  No copied message is refused; no two live messages share a slot, and no
      message is delivered twice. */
  lemma MessagesAreAccounted(len: nat, s: Sys)
    requires Reached(len, s)
    ensures WellFormed(s.q) && |s.h.fate| == |s.h.log|
    ensures forall id :: 0 <= id < |s.h.log| ==> Accounted(s, id)
    ensures forall a, b ::
              0 <= a < b < |s.h.fate| && Live(s.h.fate[a]) && Live(s.h.fate[b]) ==> s.h.fate[a].slot != s.h.fate[b].slot
    ensures forall j :: 0 <= j < |s.h.deliv| ==>
              s.h.deliv[j].id < |s.h.log| && s.h.fate[s.h.deliv[j].id] == Delivered(j)
    ensures forall i, j :: 0 <= i < j < |s.h.deliv| ==> s.h.deliv[i].id != s.h.deliv[j].id
  {
    ReachedIsGood(len, s);
    forall id | 0 <= id < |s.h.log|
      ensures Accounted(s, id)
    {
      OneAccounted(s, id);
    }
  }

  lemma OneAccounted(s: Sys, id: nat)
    requires Good(s.q, s.h, Total(s.ts)) && id < |s.h.log|
    ensures Accounted(s, id)
  {
    var f := s.h.fate[id];
    if f.Held? || f.Queued? {
      WhoHolds(s.ts, f.slot);
      LiveSlot(s.q, s.h, Total(s.ts), id);
    }
  }

  lemma LiveSlot(q: Que, h: Hist, H: Holding, id: nat)
    requires Good(q, h, H) && id < |h.log| && (h.fate[id].Held? || h.fate[id].Queued?)
    ensures h.fate[id].slot < |q.pool| && q.pool[h.fate[id].slot] == h.log[id]
    ensures h.fate[id].Held? ==> h.fate[id].slot in H.loaded
    ensures h.fate[id].Queued? ==>
              h.fate[id].slot in q.dtq || h.fate[id].slot in Window(q) || h.fate[id].slot in H.transit
  {
    var k := h.fate[id].slot;
    assert k in h.slotId && k in Carried(q, H) + LoadedIn(q, H);
  }

  // ---------------------------------------------------------------- locked flushes

  /** The step at which esp_shim_queue_flush_pending, on a locked CPU, finds a non-empty ring. */
  predicate LockedFlush(s: Sys, e: Event) {
    e.who < |s.ts| && s.ts[e.who].FlushHold? && !s.ts[e.who].c.mie
  }

  function LockedFlushes(s: Sys, es: seq<Event>): nat {
    if es == [] then 0
    else LockedFlushes(s, es[..|es| - 1]) + if LockedFlush(Run(s, es[..|es| - 1]), es[|es| - 1]) then 1 else 0
  }

  lemma OtherStepsDropNothing(q: Que, h: Hist, l: Local, a: Act)
    requires !l.FlushHold?
    ensures Step(q, h, l, a).h.dropped == h.dropped
  {
  }

  lemma FlushHoldDrops(q: Que, h: Hist, c: Ctx, slot: nat, k: Then, R: Holding)
    requires Good(q, h, Plus(R, Hold(FlushHold(c, slot, k))))
    ensures |StepFlushHold(q, h, c, slot, k).h.dropped| == |h.dropped| + if c.mie then 0 else 1
  {
    hide Cargo, Past, Ledger, Partition;
    HeldSlot(q, Plus(R, Hold(FlushHold(c, slot, k))), slot);
    CarriedKnown(q, h, Plus(R, Hold(FlushHold(c, slot, k))), slot);
  }

  lemma StepDrops(q: Que, h: Hist, l: Local, a: Act, R: Holding)
    requires Good(q, h, Plus(R, Hold(l))) && LocalOk(l)
    ensures |Step(q, h, l, a).h.dropped| == |h.dropped| + if l.FlushHold? && !l.c.mie then 1 else 0
  {
    hide Good, Hold, Plus, StepFlushHold;
    if l.FlushHold? {
      FlushHoldDrops(q, h, l.c, l.slot, l.k, R);
    } else {
      OtherStepsDropNothing(q, h, l, a);
    }
  }

  lemma CarriedKnown(q: Que, h: Hist, H: Holding, k: nat)
    requires Good(q, h, H) && k < q.depth && k in H.transit
    ensures k in h.slotId
  {
    assert k in Carried(q, H);
  }

  /** Along every run, messages are dropped by locked flushes and by nothing else, one each. */
  lemma {:induction false} DropsAreLockedFlushes(s: Sys, es: seq<Event>)
    requires Inv(s)
    ensures |Run(s, es).h.dropped| == |s.h.dropped| + LockedFlushes(s, es)
  {
    hide Good, Hold, Total, Rest, Step, LocalOk;
    if es != [] {
      var before, e := es[..|es| - 1], es[|es| - 1];
      var t := Run(s, before);
      DropsAreLockedFlushes(s, before);
      RunKeeps(s, before);
      if e.who < |t.ts| {
        TotalSplits(t.ts, e.who, t.ts[e.who]);
        assert t.ts[e.who := t.ts[e.who]] == t.ts;
        StepDrops(t.q, t.h, t.ts[e.who], e.act, Rest(t.ts, e.who));
      }
    }
  }

  /** So a run without a locked flush loses nothing: the token equation holds without remainder, and
      every accepted message is queued, delivered once or discarded by a reset. */
  lemma NothingIsLostWithoutLockedFlush(ring: seq<nat>, pool: seq<Msg>, n: nat, es: seq<Event>)
    requires |ring| == |pool| <= DTQ_CNT
    requires LockedFlushes(Start(ring, pool, n), es) == 0
    ensures var s := Run(Start(ring, pool, n), es);
            && s.q.sem + Total(s.ts).tokens + Total(s.ts).signals == |s.q.free| + s.q.debt
            && |s.h.fate| == |s.h.log|
            && forall id :: 0 <= id < |s.h.fate| ==> !s.h.fate[id].Dropped? && !s.h.fate[id].Refused?
  {
    StartIsGood(ring, pool, n);
    DropsAreLockedFlushes(Start(ring, pool, n), es);
    RunKeeps(Start(ring, pool, n), es);
  }

  // ---------------------------------------------------------------- lost tokens

  /** The step at which a locked flush, having thrown a message away, returns its slot and finds no debt
      to repay: the release then owes a signal that the locked CPU will refuse. */
  predicate UnpaidRound(s: Sys, e: Event) {
    && e.who < |s.ts|
    && s.ts[e.who].Freeing? && s.ts[e.who].next.AfterFlush? && !s.ts[e.who].c.mie
    && s.q.debt == 0
  }

  function UnpaidRounds(s: Sys, es: seq<Event>): nat {
    if es == [] then 0
    else UnpaidRounds(s, es[..|es| - 1]) + if UnpaidRound(Run(s, es[..|es| - 1]), es[|es| - 1]) then 1 else 0
  }

  /** The context is about to issue a signal that the locked CPU will refuse. */
  function Owes(l: Local): nat {
    if l.Signalling? && !l.c.mie then 1 else 0
  }

  function Owing(ts: seq<Local>): nat {
    if ts == [] then 0 else Owing(ts[..|ts| - 1]) + Owes(ts[|ts| - 1])
  }

  lemma {:induction false} OwingAfter(ts: seq<Local>, i: nat, l: Local)
    requires i < |ts|
    ensures Owing(ts[i := l]) + Owes(ts[i]) == Owing(ts) + Owes(l)
  {
    hide Owes;
    var us, n := ts[i := l], |ts| - 1;
    if i == n {
      assert us[..n] == ts[..n];
    } else {
      assert us[..n] == ts[..n][i := l];
      OwingAfter(ts[..n], i, l);
    }
  }

  lemma StepLoses(q: Que, h: Hist, l: Local, a: Act)
    requires LocalOk(l) && (l.Freeing? ==> |q.free| < q.depth)
    ensures var o := Step(q, h, l, a);
            o.h.lost + Owes(o.l) == h.lost + Owes(l)
              + if l.Freeing? && l.next.AfterFlush? && !l.c.mie && q.debt == 0 then 1 else 0
  {
  }

  lemma FreeingRoom(q: Que, h: Hist, l: Local, R: Holding)
    requires Good(q, h, Plus(R, Hold(l))) && l.Freeing?
    ensures |q.free| < q.depth
  {
    HeldSlot(q, Plus(R, Hold(l)), l.slot);
  }

  /** Along every run, tokens are lost by those rounds and by nothing else, one each, as soon as the
      contexts that made them have issued the signal they owe. */
  lemma {:induction false} LossesAreUnpaidRounds(s: Sys, es: seq<Event>)
    requires Inv(s)
    ensures Run(s, es).h.lost + Owing(Run(s, es).ts) == s.h.lost + Owing(s.ts) + UnpaidRounds(s, es)
  {
    hide Good, Hold, Total, Rest, Step, LocalOk, Owing;
    if es != [] {
      var before, e := es[..|es| - 1], es[|es| - 1];
      var t := Run(s, before);
      LossesAreUnpaidRounds(s, before);
      RunKeeps(s, before);
      if e.who < |t.ts| {
        var l := t.ts[e.who];
        TotalSplits(t.ts, e.who, l);
        assert t.ts[e.who := l] == t.ts;
        if l.Freeing? { FreeingRoom(t.q, t.h, l, Rest(t.ts, e.who)); }
        StepLoses(t.q, t.h, l, e.act);
        OwingAfter(t.ts, e.who, Step(t.q, t.h, l, e.act).l);
      }
    }
  }

  lemma {:induction false} NobodyOwes(ts: seq<Local>)
    requires forall i :: 0 <= i < |ts| ==> Owes(ts[i]) == 0
    ensures Owing(ts) == 0
  {
    if ts != [] {
      NobodyOwes(ts[..|ts| - 1]);
    }
  }

  /** So when nobody is about to signal, the tokens missing from a queue are exactly as many as the
      locked flush rounds that found no debt to repay. */
  lemma TokensLostExactly(ring: seq<nat>, pool: seq<Msg>, n: nat, es: seq<Event>)
    requires |ring| == |pool| <= DTQ_CNT
    requires var s := Run(Start(ring, pool, n), es); forall i :: 0 <= i < |s.ts| ==> !s.ts[i].Signalling?
    ensures var s := Run(Start(ring, pool, n), es);
            s.h.lost == UnpaidRounds(Start(ring, pool, n), es)
  {
    hide Run, UnpaidRounds, Inv;
    StartIsGood(ring, pool, n);
    LossesAreUnpaidRounds(Start(ring, pool, n), es);
    NobodyOwes(Start(ring, pool, n).ts);
    NobodyOwes(Run(Start(ring, pool, n), es).ts);
  }

  // ---------------------------------------------------------------- two runs of a single core

  /** On one core nothing else runs while a context inside a call keeps the CPU locked. */
  ghost predicate SingleCore(s: Sys, e: Event) {
    forall i :: 0 <= i < |s.ts| && i != e.who ==> s.ts[i].Idle? || s.ts[i].c.mie
  }

  ghost predicate SingleCoreRun(s: Sys, es: seq<Event>) {
    es == [] || (SingleCoreRun(s, es[..|es| - 1]) && SingleCore(Run(s, es[..|es| - 1]), es[|es| - 1]))
  }

  lemma OneMore(s: Sys, es: seq<Event>, e: Event)
    requires SingleCoreRun(s, es) && SingleCore(Run(s, es), e)
    ensures Run(s, es + [e]) == Next(Run(s, es), e) && SingleCoreRun(s, es + [e])
  {
    assert (es + [e])[..|es|] == es;
  }

  const TASK := Ctx(Dispatchable, true)
  const LOCKED := Ctx(Dispatchable, false)
  const A: Msg := [1]
  const B: Msg := [2]

  /** Two contexts and a queue of two slots. */
  const SCENE := Start([0, 0], [[], []], 2)

  /** Context 1 sends A; context 0 receives it and is preempted before it returns the slot. */
  const INTERRUPTED := Sys(
    Que(2, [0], [0, 0], 0, 0, 0, 0, [[], A], [], 1),
    Hist([A], [Delivered(0)], map[], [Delivery(0, A)], [], 0, false),
    [Freeing(TASK, 1, AfterCall), Idle])

  /** Context 1 then sends B with interrupts off, and lets them on again without a flush. */
  const PARKED := Sys(
    Que(2, [], [0, 0], 0, 1, 1, 1, [B, A], [], 1),
    Hist([A, B], [Delivered(0), Queued(0)], map[0 := 1], [Delivery(0, A)], [], 0, false),
    [Freeing(TASK, 1, AfterCall), Idle])

  /** Context 0 returns its slot, which repays the debt of B while B is still in the ring; then
      context 1 tries to receive with interrupts off. */
  const BROKEN := Sys(
    Que(2, [1, 0], [0, 0], 1, 1, 0, 0, [B, A], [], 1),
    Hist([A, B], [Delivered(0), Dropped(0)], map[], [Delivery(0, A)], [Drop(1, LOCKED)], 1, false),
    [Idle, Idle])

  function Go(who: nat): Event {
    Event(who, Act.Go)
  }

  function Five(s: Sys, a: Event, b: Event, c: Event, d: Event, e: Event): Sys {
    Next(Next(Next(Next(Next(s, a), b), c), d), e)
  }

  lemma FiveMore(s: Sys, es: seq<Event>, a: Event, b: Event, c: Event, d: Event, e: Event) returns (es': seq<Event>)
    requires SingleCoreRun(s, es)
    requires SingleCore(Run(s, es), a)
    requires SingleCore(Next(Run(s, es), a), b)
    requires SingleCore(Next(Next(Run(s, es), a), b), c)
    requires SingleCore(Next(Next(Next(Run(s, es), a), b), c), d)
    requires SingleCore(Next(Next(Next(Next(Run(s, es), a), b), c), d), e)
    ensures SingleCoreRun(s, es') && Run(s, es') == Five(Run(s, es), a, b, c, d, e)
  {
    hide Next, SingleCore;
    OneMore(s, es, a);
    OneMore(s, es + [a], b);
    OneMore(s, es + [a] + [b], c);
    OneMore(s, es + [a] + [b] + [c], d);
    OneMore(s, es + [a] + [b] + [c] + [d], e);
    es' := es + [a] + [b] + [c] + [d] + [e];
  }

  const SENDING := Sys(
    Que(2, [0], [0, 0], 0, 0, 0, 0, [[], A], [], 1),
    Hist([A], [Held(1)], map[1 := 0], [], [], 0, false),
    [Idle, SendPost(TASK, 1)])

  const THROWN := Sys(
    Que(2, [1, 0], [0, 0], 1, 1, 0, 0, [B, A], [], 1),
    Hist([A, B], [Delivered(0), Dropped(0)], map[], [Delivery(0, A)], [Drop(1, LOCKED)], 0, false),
    [Idle, Signalling(LOCKED, AfterFlush(ToRecv(false)))])

  lemma ToInterrupted() returns (es: seq<Event>)
    ensures SingleCoreRun(SCENE, es) && Run(SCENE, es) == INTERRUPTED
  {
    var s := Five(SCENE, Event(1, Begin(Send(A, false), TASK)), Go(1), Go(1), Go(1), Go(1));
    assert s.q == SENDING.q && s.h == SENDING.h && s.ts == SENDING.ts;
    es := FiveMore(SCENE, [], Event(1, Begin(Send(A, false), TASK)), Go(1), Go(1), Go(1), Go(1));
    es := FromSending(es);
  }

  lemma FromSending(es: seq<Event>) returns (es': seq<Event>)
    requires SingleCoreRun(SCENE, es) && Run(SCENE, es) == SENDING
    ensures SingleCoreRun(SCENE, es') && Run(SCENE, es') == INTERRUPTED
  {
    es' := FiveMore(SCENE, es, Go(1), Event(0, Begin(Recv(false), TASK)), Go(0), Go(0), Go(0));
  }

  lemma FromInterrupted(es: seq<Event>) returns (es': seq<Event>)
    requires SingleCoreRun(SCENE, es) && Run(SCENE, es) == INTERRUPTED
    ensures SingleCoreRun(SCENE, es') && Run(SCENE, es') == PARKED
  {
    es' := FiveMore(SCENE, es, Event(1, Begin(Send(B, false), LOCKED)), Go(1), Go(1), Go(1), Go(1));
  }

  lemma FromParked(es: seq<Event>) returns (es': seq<Event>)
    requires SingleCoreRun(SCENE, es) && Run(SCENE, es) == PARKED
    ensures SingleCoreRun(SCENE, es') && Run(SCENE, es') == THROWN
  {
    es' := FiveMore(SCENE, es, Go(0), Event(1, Begin(Recv(false), LOCKED)), Go(1), Go(1), Go(1));
  }

  lemma FromThrown(es: seq<Event>) returns (es': seq<Event>)
    requires SingleCoreRun(SCENE, es) && Run(SCENE, es) == THROWN
    ensures SingleCoreRun(SCENE, es') && Run(SCENE, es') == BROKEN
  {
    es' := FiveMore(SCENE, es, Go(1), Go(1), Go(1), Go(1), Go(1));
  }

  /** A run that one core can make, after which an accepted message and a token are gone: everyone is
      outside the queue, all its slots are free, and yet the semaphore admits one sender only. */
  lemma LockedFlushLosesAToken() returns (es: seq<Event>)
    ensures SingleCoreRun(SCENE, es)
    ensures var s := Run(SCENE, es);
            && (forall i :: 0 <= i < |s.ts| ==> s.ts[i].Idle?)
            && |s.q.free| == s.q.depth == 2 && s.q.dtq == [] && s.q.cnt == 0 && s.q.debt == 0
            && s.q.sem == 1 && s.h.lost == 1
            && |s.h.fate| == 2 && s.h.fate[1].Dropped?
  {
    es := ToInterrupted();
    es := FromInterrupted(es);
    es := FromParked(es);
    es := FromThrown(es);
  }

  const HANDLER := Ctx(Handler, false)

  /** A, then B, accepted while interrupts are off. */
  const BOTH_PARKED := Sys(
    Que(2, [], [1, 0], 0, 0, 2, 2, [B, A], [], 2),
    Hist([A, B], [Queued(1), Queued(0)], map[1 := 0, 0 := 1], [], [], 0, false),
    [Idle, Idle])

  const ONE_PARKED := Sys(
    Que(2, [0], [1, 0], 0, 1, 1, 1, [[], A], [], 2),
    Hist([A], [Queued(1)], map[1 := 0], [], [], 0, false),
    [Idle, Idle])

  lemma ParkOne() returns (es: seq<Event>)
    ensures SingleCoreRun(SCENE, es) && Run(SCENE, es) == ONE_PARKED
  {
    es := FiveMore(SCENE, [], Event(1, Begin(SendFromIsr(A), HANDLER)), Go(1), Go(1), Go(1), Go(1));
  }

  lemma ParkBoth(es: seq<Event>) returns (es': seq<Event>)
    requires SingleCoreRun(SCENE, es) && Run(SCENE, es) == ONE_PARKED
    ensures SingleCoreRun(SCENE, es') && Run(SCENE, es') == BOTH_PARKED
  {
    es' := FiveMore(SCENE, es, Event(1, Begin(SendFromIsr(B), HANDLER)), Go(1), Go(1), Go(1), Go(1));
  }

  /** Two flushes that overlap swap messages: context 0 takes A out of the ring and is preempted,
      context 1 flushes B, and only then does A reach the data queue. */
  lemma OverlappingFlushesReorder() returns (es: seq<Event>)
    ensures SingleCoreRun(SCENE, es)
    ensures Run(SCENE, es).h.log == [A, B] && Run(SCENE, es).h.dropped == []
    ensures var q := Run(SCENE, es).q;
            q.cnt == 0 && |q.dtq| == 2 && q.dtq[0] < |q.pool| && q.dtq[1] < |q.pool|
            && q.pool[q.dtq[0]] == B && q.pool[q.dtq[1]] == A
  {
    es := ParkOne();
    es := ParkBoth(es);
    es := FlushAcross(es);
  }

  lemma FlushAcross(es: seq<Event>) returns (es': seq<Event>)
    requires SingleCoreRun(SCENE, es) && Run(SCENE, es) == BOTH_PARKED
    ensures SingleCoreRun(SCENE, es')
    ensures Run(SCENE, es').q == Que(2, [], [1, 0], 0, 0, 0, 2, [B, A], [0, 1], 2)
    ensures Run(SCENE, es').h == BOTH_PARKED.h
  {
    var f := Begin(Flush, TASK);
    es' := FiveMore(SCENE, es, Event(0, f), Go(0), Event(1, f), Go(1), Go(1));
    es' := FiveMore(SCENE, es', Go(0), Go(0), Go(0), Go(0), Go(0));
  }
}
