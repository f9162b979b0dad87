/** The two families of interrupt locks, nested in each other, with the work that is deferred inside
    them and settled at the outermost exit of the counting family.  Everything runs on one core
    without preemption here. */
module ShimCritical {
  import opened Kernel
  import opened SlotQueue
  import opened QueueProtocol
  import opened QueueCalls
  import opened ShimQueuePool
  import Sems = ShimSems
  import Wakeups = ShimWakeups

  /** mstatus.MIE, the nesting count and the saved flag; the queues; the semaphores; the wake-ups. */
  datatype Shim = Shim(
    mie: bool,
    nest: nat,
    saved: bool,
    qs: seq<Que>,
    sems: seq<Sems.Sem>,
    wakes: Wakeups.Wakes)

  /** What code inside or outside a bracket may do. */
  datatype Act =
    | QueueOp(i: nat, op: Op)
    | Give(i: nat)
    | Take(i: nat, forever: bool)
    | WakeUp(id: nat)

  /** A well-bracketed piece of code. */
  datatype Code = Done | Then(first: Item, rest: Code)
  datatype Item = Do(a: Act) | Masked(body: Code) | Critical(body: Code)

  /** The fixed part of the setting: where the code runs and the largest semaphore count. */
  datatype Env = Env(mode: Mode, max: nat)

  function Here(s: Shim, e: Env): Ctx {
    Ctx(e.mode, s.mie)
  }

  function PerformAct(s: Shim, a: Act, e: Env): Shim {
    match a
    case QueueOp(i, op) =>
      if i >= |s.qs| then s
      else if op.SendFromIsr? then s.(qs := s.qs[i := Perform(s.qs[i], op, Here(s, e))])
      else s.(qs := Flushed(s.qs, Here(s, e))[i := Perform(s.qs[i], op, Here(s, e))])
    case Give(i) =>
      if i < |s.sems| then s.(sems := s.sems[i := Sems.GiveCall(s.sems[i], Here(s, e), e.max)]) else s
    case Take(i, forever) =>
      if i < |s.sems| then s.(sems := s.sems[i := Sems.TakeCall(s.sems[i], Here(s, e), forever).0]) else s
    case WakeUp(id) => s.(wakes := Wakeups.SignalCall(s.wakes, id, Here(s, e)))
  }

  /** esp_shim_int_disable; it returns the old flag to its caller. */
  function IntDisable(s: Shim): Shim {
    s.(mie := false)
  }

  /** esp_shim_int_restore */
  function IntRestore(s: Shim, state: bool): Shim {
    if state then s.(mie := true) else s
  }

  /** esp_shim_enter_critical */
  function EnterCritical(s: Shim): Shim {
    s.(mie := false, nest := s.nest + 1, saved := if s.nest == 0 then s.mie else s.saved)
  }

  /** Everything that was deferred is settled. */
  function SettleAll(s: Shim, e: Env): Shim {
    s.(qs := Flushed(s.qs, Here(s, e)), sems := Sems.Settled(s.sems, Here(s, e), e.max),
       wakes := Wakeups.WakeAll(s.wakes, Here(s, e)))
  }

  /** esp_shim_exit_critical */
  function ExitCritical(s: Shim, e: Env): Shim {
    if s.nest == 0 then s
    else
      var t := s.(nest := s.nest - 1);
      if t.nest == 0 && t.saved then SettleAll(t.(mie := true), e) else t
  }

  function Run(s: Shim, w: Code, e: Env): Shim
    decreases w
  {
    match w
    case Done => s
    case Then(first, rest) => Run(RunItem(s, first, e), rest, e)
  }

  function RunItem(s: Shim, it: Item, e: Env): Shim
    decreases it
  {
    match it
    case Do(a) => PerformAct(s, a, e)
    case Masked(body) => IntRestore(Run(IntDisable(s), body, e), s.mie)
    case Critical(body) => ExitCritical(Run(EnterCritical(s), body, e), e)
  }

  // ---------------------------------------------------------------- masking

  /** Interrupts are off at every point of the code, brackets inside it included. */
  ghost predicate OffThroughout(s: Shim, w: Code, e: Env)
    decreases w
  {
    && !s.mie
    && match w
       case Done => true
       case Then(first, rest) => BodiesOffItem(s, first, e) && OffThroughout(RunItem(s, first, e), rest, e)
  }

  /** Interrupts are off at every point inside every bracket of the code. */
  ghost predicate BodiesOff(s: Shim, w: Code, e: Env)
    decreases w
  {
    match w
    case Done => true
    case Then(first, rest) => BodiesOffItem(s, first, e) && BodiesOff(RunItem(s, first, e), rest, e)
  }

  ghost predicate BodiesOffItem(s: Shim, it: Item, e: Env)
    decreases it
  {
    match it
    case Do(_) => true
    case Masked(body) => OffThroughout(IntDisable(s), body, e)
    case Critical(body) => OffThroughout(EnterCritical(s), body, e)
  }

  /** Inside a critical section interrupts are off. */
  predicate Sane(s: Shim) {
    s.nest > 0 ==> !s.mie
  }

  /** Whatever brackets of the two families are nested in each other, interrupts are off at every
      point inside a bracket, and code leaves the flag and the nesting count as it found them. */
  lemma {:induction false} CodeRestoresMasking(s: Shim, w: Code, e: Env)
    requires Sane(s)
    ensures BodiesOff(s, w, e) && (!s.mie ==> OffThroughout(s, w, e))
    ensures Run(s, w, e).mie == s.mie && Run(s, w, e).nest == s.nest
    ensures s.nest > 0 ==> Run(s, w, e).saved == s.saved
    decreases w
  {
    if w.Then? {
      ItemRestoresMasking(s, w.first, e);
      CodeRestoresMasking(RunItem(s, w.first, e), w.rest, e);
    }
  }

  lemma {:induction false} ItemRestoresMasking(s: Shim, it: Item, e: Env)
    requires Sane(s)
    ensures BodiesOffItem(s, it, e)
    ensures RunItem(s, it, e).mie == s.mie && RunItem(s, it, e).nest == s.nest
    ensures s.nest > 0 ==> RunItem(s, it, e).saved == s.saved
    decreases it
  {
    match it
    case Do(a) =>
    case Masked(body) => CodeRestoresMasking(IntDisable(s), body, e);
    case Critical(body) => CodeRestoresMasking(EnterCritical(s), body, e);
  }

  /** The hypothesis is needed: a critical section, whatever it contains, ends with the flag as it found
      it exactly if it was not entered with interrupts on while another one was open. */
  lemma UnsoundNestingLeavesInterruptsOff(s: Shim, body: Code, e: Env)
    ensures RunItem(s, Critical(body), e).mie == s.mie <==> Sane(s)
  {
    CodeRestoresMasking(EnterCritical(s), body, e);
  }

  // ---------------------------------------------------------------- settling

  ghost predicate QueuesSettled(qs: seq<Que>) {
    forall j :: 0 <= j < |qs| ==> Settled(qs[j])
  }

  ghost predicate Sound(s: Shim, e: Env, ids: set<nat>) {
    && QueuesSettled(s.qs)
    && (forall i :: 0 <= i < |s.sems| ==> Sems.Sound(s.sems[i], e.max))
    && Wakeups.Sound(s.wakes, ids)
  }

  /** Nothing is deferred. */
  ghost predicate NothingDeferred(s: Shim) {
    && (forall i :: 0 <= i < |s.qs| ==> s.qs[i].cnt == 0)
    && (forall i :: 0 <= i < |s.sems| ==> s.sems[i].pend == 0)
    && s.wakes.pend == []
  }

  lemma SettlingSettles(s: Shim, e: Env, ids: set<nat>)
    requires Sound(s, e, ids)
    ensures Sound(SettleAll(s, e), e, ids) && NothingDeferred(SettleAll(s, e))
  {
    var c := Here(s, e);
    FlushedIsSettled(s.qs, c);
    forall i | 0 <= i < |s.qs|
      ensures Flushed(s.qs, c)[i].cnt == 0
    {
      FlushedIsEmpty(s.qs[i], c);
    }
    forall i | 0 <= i < |s.sems|
      ensures Sems.Sound(Sems.Settled(s.sems, c, e.max)[i], e.max) && Sems.Settled(s.sems, c, e.max)[i].pend == 0
    {
      Sems.SettleGivesSettles(s.sems[i], c, e.max);
    }
    Wakeups.WakeAllRaises(s.wakes, c);
  }

  lemma QueueOpKeepsSettled(qs: seq<Que>, i: nat, op: Op, c: Ctx)
    requires QueuesSettled(qs) && i < |qs|
    ensures QueuesSettled(qs[i := Perform(qs[i], op, c)])
    ensures |Flushed(qs, c)| == |qs| && QueuesSettled(Flushed(qs, c)[i := Perform(qs[i], op, c)])
  {
    hide Settled, Perform, FlushCall;
    PerformKeepsSettled(qs[i], op, c);
    FlushedIsSettled(qs, c);
  }

  lemma ActKeepsSound(s: Shim, a: Act, e: Env, ids: set<nat>)
    requires Sound(s, e, ids) && (a.WakeUp? ==> a.id in ids)
    ensures Sound(PerformAct(s, a, e), e, ids)
  {
    hide QueuesSettled, Perform, Flushed, Sems.Sound, Sems.GiveCall, Sems.TakeCall;
    match a
    case QueueOp(i, op) => if i < |s.qs| { QueueOpKeepsSettled(s.qs, i, op, Here(s, e)); }
    case Give(i) => if i < |s.sems| { Sems.GivesAreConserved(s.sems[i], Here(s, e), e.max, 0, false); }
    case Take(i, forever) => if i < |s.sems| { Sems.GivesAreConserved(s.sems[i], Here(s, e), e.max, 0, forever); }
    case WakeUp(id) =>
  }

  /** Only these identifiers are ever signalled. */
  ghost predicate Wakes(w: Code, ids: set<nat>)
    decreases w
  {
    w.Done? || (WakesItem(w.first, ids) && Wakes(w.rest, ids))
  }

  ghost predicate WakesItem(it: Item, ids: set<nat>)
    decreases it
  {
    match it
    case Do(a) => a.WakeUp? ==> a.id in ids
    case Masked(body) => Wakes(body, ids)
    case Critical(body) => Wakes(body, ids)
  }

  lemma {:induction false} CodeKeepsSound(s: Shim, w: Code, e: Env, ids: set<nat>)
    requires Sound(s, e, ids) && Wakes(w, ids)
    ensures Sound(Run(s, w, e), e, ids)
    decreases w
  {
    hide Sound;
    if w.Then? {
      ItemKeepsSound(s, w.first, e, ids);
      CodeKeepsSound(RunItem(s, w.first, e), w.rest, e, ids);
    }
  }

  lemma SoundWithoutMask(s: Shim, t: Shim, e: Env, ids: set<nat>)
    requires Sound(s, e, ids) && t == s.(mie := t.mie, nest := t.nest, saved := t.saved)
    ensures Sound(t, e, ids)
  {
  }

  lemma {:induction false} ItemKeepsSound(s: Shim, it: Item, e: Env, ids: set<nat>)
    requires Sound(s, e, ids) && WakesItem(it, ids)
    ensures Sound(RunItem(s, it, e), e, ids)
    decreases it
  {
    hide Sound;
    match it
    case Do(a) => ActKeepsSound(s, a, e, ids);
    case Masked(body) =>
      SoundWithoutMask(s, IntDisable(s), e, ids);
      CodeKeepsSound(IntDisable(s), body, e, ids);
      SoundWithoutMask(Run(IntDisable(s), body, e), RunItem(s, it, e), e, ids);
    case Critical(body) =>
      SoundWithoutMask(s, EnterCritical(s), e, ids);
      CodeKeepsSound(EnterCritical(s), body, e, ids);
      ExitKeepsSound(Run(EnterCritical(s), body, e), e, ids);
  }

  lemma ExitKeepsSound(s: Shim, e: Env, ids: set<nat>)
    requires Sound(s, e, ids)
    ensures Sound(ExitCritical(s, e), e, ids)
    ensures s.nest == 1 && s.saved ==> NothingDeferred(ExitCritical(s, e))
  {
    hide Sound;
    if s.nest > 0 {
      var t := s.(nest := s.nest - 1);
      SoundWithoutMask(s, t, e, ids);
      SoundWithoutMask(s, t.(mie := true), e, ids);
      SettlingSettles(t.(mie := true), e, ids);
    }
  }

  /** An outermost critical section entered with interrupts on leaves nothing deferred, whatever was
      done inside it and whatever had been parked before: no slot in any ring, no parked give, no
      parked wake-up; and interrupts are on again. */
  lemma OutermostExitSettlesAll(s: Shim, body: Code, e: Env, ids: set<nat>)
    requires Sound(s, e, ids) && Wakes(body, ids)
    requires s.mie && s.nest == 0
    ensures var t := RunItem(s, Critical(body), e);
            NothingDeferred(t) && Sound(t, e, ids) && t.mie && t.nest == 0
  {
    hide Sound, NothingDeferred;
    CodeRestoresMasking(EnterCritical(s), body, e);
    SoundWithoutMask(s, EnterCritical(s), e, ids);
    CodeKeepsSound(EnterCritical(s), body, e, ids);
    ExitKeepsSound(Run(EnterCritical(s), body, e), e, ids);
    ItemRestoresMasking(s, Critical(body), e);
  }

  // ---------------------------------------------------------------- what the acts do

  lemma OthersFlushed(qs: seq<Que>, c: Ctx, j: nat)
    requires QueuesSettled(qs) && j < |qs| && c.mie
    ensures WellFormed(qs[j]) && WellFormed(Flushed(qs, c)[j]) && Contents(Flushed(qs, c)[j]) == Contents(qs[j])
    ensures Flushed(qs, c)[j].cnt == 0 && Flushed(qs, c)[j].dtq == qs[j].dtq + Window(qs[j])
  {
    UnlockedFlushIsQuiet(qs[j], c, 0);
  }

  /** The exit of an outermost section carries every parked message over, behind those in the data queue:
      it loses none. */
  lemma ExitKeepsMessages(s: Shim, e: Env, ids: set<nat>, j: nat)
    requires Sound(s, e, ids) && s.nest == 1 && s.saved && j < |s.qs|
    ensures var t := ExitCritical(s, e);
            && |t.qs| == |s.qs| && WellFormed(s.qs[j]) && WellFormed(t.qs[j])
            && Contents(t.qs[j]) == Contents(s.qs[j]) && t.qs[j].dtq == s.qs[j].dtq + Window(s.qs[j])
  {
    OthersFlushed(s.qs, Ctx(e.mode, true), j);
  }

  /** What `op` makes of a queue in a task that has not locked the CPU, nothing being parked. */
  function Expected(m: seq<Msg>, depth: nat, op: Op): seq<Msg> {
    match op
    case Send(x, _) => if |m| < depth then m + [x] else m
    case SendFromIsr(x) => if |m| < depth then m + [x] else m
    case Recv(_) => if m == [] then [] else m[1..]
    case Reset => []
    case Flush => m
  }

  /** With interrupts on, in a task and with nothing deferred, a queue call does to its queue what it is for,
      and leaves what the others hold alone. */
  lemma QueueActs(s: Shim, i: nat, op: Op, e: Env, ids: set<nat>, j: nat)
    requires Sound(s, e, ids) && NothingDeferred(s) && s.mie && !e.mode.Handler? && i < |s.qs| && j < |s.qs|
    ensures var t := PerformAct(s, QueueOp(i, op), e);
            && |t.qs| == |s.qs| && WellFormed(s.qs[j]) && WellFormed(t.qs[j]) && t.sems == s.sems && t.wakes == s.wakes
            && Contents(t.qs[j]) == if j == i then Expected(Contents(s.qs[i]), s.qs[i].depth, op) else Contents(s.qs[j])
  {
    hide Partition, TokenSend, FlushCall, SendCall, RecvCall, SendFromIsrCall, ResetCall;
    var c, q := Here(s, e), s.qs[i];
    Fits(q, 0);
    OthersFlushed(s.qs, c, j);
    match op
    case Send(m, forever) => SendIsFifo(q, c, m, forever);
    case SendFromIsr(m) => SendFromIsrIsFifo(q, c, m);
    case Recv(forever) => RecvIsFifo(q, c, forever);
    case Reset =>
      ResetRestores(q, c, 0);
      assert Contents(ResetCall(q, c)) == [];
    case Flush => UnlockedFlushIsQuiet(q, c, 0);
  }

  /** A message sent inside an outermost critical section is in its queue when this is over, as if it had
      been sent outside. */
  lemma CriticalSendArrives(s: Shim, i: nat, m: Msg, forever: bool, e: Env, ids: set<nat>)
    requires Sound(s, e, ids) && NothingDeferred(s) && s.mie && s.nest == 0 && i < |s.qs|
    ensures var t := RunItem(s, Critical(Then(Do(QueueOp(i, Send(m, forever))), Done)), e);
            && |t.qs| == |s.qs| && WellFormed(s.qs[i]) && WellFormed(t.qs[i]) && NothingDeferred(t)
            && Contents(t.qs[i]) == Expected(Contents(s.qs[i]), s.qs[i].depth, Send(m, forever))
  {
    hide NothingDeferred, Settled, FlushCall, SendCall, Enqueues;
    var l, a := EnterCritical(s), QueueOp(i, Send(m, forever));
    var p := PerformAct(l, a, e);
    assert Run(l, Then(Do(a), Done), e) == Run(RunItem(l, Do(a), e), Done, e) == p;
    OutermostExitSettlesAll(s, Then(Do(a), Done), e, ids);
    assert Sound(l, e, ids) by { SoundWithoutMask(s, l, e, ids); }
    ActKeepsSound(l, a, e, ids);
    ExitKeepsMessages(p, e, ids, i);
    LockedSendEnqueues(s.qs[i], Here(l, e), m, forever) by { NothingParked(s, i); SettledSays(s, e, ids, i); }
    assert p.qs[i] == SendCall(s.qs[i], Here(l, e), m, forever).0;
  }

  lemma NothingParked(s: Shim, i: nat)
    requires NothingDeferred(s) && i < |s.qs|
    ensures s.qs[i].cnt == 0
  {
  }

  lemma SettledSays(s: Shim, e: Env, ids: set<nat>, i: nat)
    requires Sound(s, e, ids) && i < |s.qs|
    ensures Quiet(s.qs[i], 0)
  {
  }

  lemma LockedSendEnqueues(q: Que, c: Ctx, m: Msg, forever: bool)
    requires Quiet(q, 0) && q.cnt == 0
    ensures var p := SendCall(q, c, m, forever).0;
            WellFormed(q) && WellFormed(p) && Contents(p) == Expected(Contents(q), q.depth, Send(m, forever))
  {
    SendIsFifo(q, c, m, forever);
  }

  /** With interrupts on, a give raises its semaphore unless this is at its maximum, a take by a task that
      may wait lowers it if it can, and a wake-up raises its semaphore and no other. */
  lemma SignalActs(s: Shim, i: nat, id: nat, forever: bool, e: Env)
    requires s.mie && i < |s.sems| && s.sems[i].cnt <= e.max
    ensures PerformAct(s, Give(i), e).sems[i].cnt == if s.sems[i].cnt < e.max then s.sems[i].cnt + 1 else e.max
    ensures e.mode.Dispatchable? ==>
              PerformAct(s, Take(i, forever), e).sems[i].cnt == if s.sems[i].cnt > 0 then s.sems[i].cnt - 1 else 0
    ensures PerformAct(s, WakeUp(id), e).wakes.up == s.wakes.up + {id}
  {
  }

  /** The other family settles nothing: a give made between esp_shim_int_disable and
      esp_shim_int_restore is still parked when interrupts are on again. */
  lemma MaskedGiveStaysParked(s: Shim, i: nat, e: Env)
    requires s.mie && i < |s.sems|
    ensures var t := RunItem(s, Masked(Then(Do(Give(i)), Done)), e);
            t.mie && |t.sems| == |s.sems| && t.sems[i].pend == s.sems[i].pend + 1 && t.sems[i].cnt == s.sems[i].cnt
  {
    var d := IntDisable(s);
    var g := PerformAct(d, Give(i), e);
    assert Run(d, Then(Do(Give(i)), Done), e) == Run(RunItem(d, Do(Give(i)), e), Done, e) == g;
  }

  // ---------------------------------------------------------------- deferral is invisible in the end

  /** Straight code that only gives and wakes. */
  ghost predicate OnlySignals(w: Code)
    decreases w
  {
    w.Done? || (w.first.Do? && (w.first.a.Give? || w.first.a.WakeUp?) && OnlySignals(w.rest))
  }

  /** Settling what `l` has deferred gives what `o` has. */
  ghost predicate Owes(l: Shim, o: Shim, e: Env) {
    && !l.mie && o.mie && |l.sems| == |o.sems| && l.qs == o.qs
    && (forall i :: 0 <= i < |l.sems| ==> o.sems[i] == Sems.SettleGives(l.sems[i], Ctx(e.mode, true), e.max))
    && o.wakes.pend == [] && o.wakes.up == l.wakes.up + Wakeups.Elements(l.wakes.pend)
  }

  lemma ActOwes(l: Shim, o: Shim, a: Act, e: Env, ids: set<nat>)
    requires Owes(l, o, e) && (a.Give? || (a.WakeUp? && a.id in ids))
    requires Wakeups.Sound(l.wakes, ids) && |ids| <= Wakeups.WAKEUP_MAX
    ensures Owes(PerformAct(l, a, e), PerformAct(o, a, e), e)
    ensures Wakeups.Sound(PerformAct(l, a, e).wakes, ids)
  {
    if a.Give? {
      if a.i < |l.sems| {
        Sems.ParkingOnlyDelays(l.sems[a.i], Here(l, e), Here(o, e), e.max);
      }
    } else {
      Wakeups.WakeUpIsKept(l.wakes, a.id, Here(l, e), ids);
      var w := Wakeups.SignalCall(l.wakes, a.id, Here(l, e));
      assert Wakeups.Elements(w.pend) == Wakeups.Elements(l.wakes.pend) + {a.id};
    }
  }

  lemma {:induction false} CodeOwes(l: Shim, o: Shim, w: Code, e: Env, ids: set<nat>)
    requires Owes(l, o, e) && OnlySignals(w) && Wakes(w, ids)
    requires Wakeups.Sound(l.wakes, ids) && |ids| <= Wakeups.WAKEUP_MAX
    ensures Owes(Run(l, w, e), Run(o, w, e), e)
    ensures Run(l, w, e).nest == l.nest && Run(l, w, e).saved == l.saved
    ensures Run(o, w, e).nest == o.nest
    decreases w
  {
    if w.Then? {
      ActOwes(l, o, w.first.a, e, ids);
      CodeOwes(RunItem(l, w.first, e), RunItem(o, w.first, e), w.rest, e, ids);
    }
  }

  /** Putting gives and wake-ups into an outermost critical section changes nothing in the end: when
      it is over, every semaphore, its account of gives and every wake-up are as if interrupts had
      been on all the time. */
  lemma CriticalSectionOnlyDelays(s: Shim, w: Code, e: Env, ids: set<nat>)
    requires s.mie && s.nest == 0 && NothingDeferred(s)
    requires OnlySignals(w) && Wakes(w, ids) && |ids| <= Wakeups.WAKEUP_MAX
    ensures var t, u := RunItem(s, Critical(w), e), Run(s, w, e);
            t.sems == u.sems && t.wakes == u.wakes && t.qs == u.qs && t.mie == u.mie && t.nest == u.nest
  {
    var l, c := EnterCritical(s), Ctx(e.mode, true);
    assert Wakeups.Elements(s.wakes.pend) == {};
    assert Owes(l, s, e);
    CodeOwes(l, s, w, e, ids);
    var l', o' := Run(l, w, e), Run(s, w, e);
    Wakeups.WakeAllRaises(l'.wakes, c);
    assert Sems.Settled(l'.sems, c, e.max) == o'.sems;
    OnlySignalsKeepsQueues(s, w, e);
    assert Flushed(l'.qs, c) == l'.qs;
  }

  lemma {:induction false} OnlySignalsKeepsQueues(s: Shim, w: Code, e: Env)
    requires OnlySignals(w)
    ensures Run(s, w, e).qs == s.qs
    decreases w
  {
    if w.Then? {
      OnlySignalsKeepsQueues(RunItem(s, w.first, e), w.rest, e);
    }
  }
}
