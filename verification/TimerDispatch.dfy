/** The timer task and the contexts that arm timers, step by step and in every interleaving.  A step is
    what runs under one SHIM_LOCK, or one kernel call. */
module TimerDispatch {
  import opened Kernel
  import opened ShimWakeups
  import opened TimerSpec

  /** SHIM_TIMER_SEM, a binary semaphore. */
  const TIMER_SEM: nat := 0

  /** When a wait ends by itself. */
  datatype Until = Forever | At(clock: int)

  /** Where esp_shim_timer_task is. */
  datatype Task =
    | Top                                 // about to read the clock
    | Scanning(now: int)                  // about to scan the list
    | Calling(fn: Fn, arg: nat)           // inside a timer function
    | Deciding(now: int, next: int)       // about to wait for its semaphore
    | Blocked(now: int, begun: int, next: int, until: Until)    // waiting since `begun`

  /** Where a context is that uses timers, signals another semaphore or leaves its outermost critical
      section. */
  datatype Client =
    | Out
    | Looking(key: nat, job: Job, c: Ctx)   // found no timer; about to allocate one and look again
    | Found(key: nat, job: Job, c: Ctx)     // about to change the timer
    | Signalling(id: nat, c: Ctx)           // about to issue sig_sem
    | Parking(id: nat, c: Ctx)              // sig_sem gave E_CTX; about to keep the identifier
    | InHand(id: nat)                       // took an identifier kept; about to issue sig_sem

  datatype Sys = Sys(l: seq<Timer>, w: Wakes, clock: int, task: Task, cs: seq<Client>, ids: set<nat>,
                     dead: bool)

  datatype Act =
    | Find(key: nat, job: Job, c: Ctx) | Create(room: bool) | Change | Remove(key: nat)
    | Other(id: nat, c: Ctx) | Signal | Keep | Flush

  datatype Event = Client(who: nat, act: Act) | TaskStep | Tick(dt: nat)

  /** A signal reaches the timer task at once if it waits. */
  function Deliver(s: Sys): Sys {
    if s.task.Blocked? && TIMER_SEM in s.w.up
    then s.(task := Top, w := s.w.(up := s.w.up - {TIMER_SEM}))
    else s
  }

  function Place(s: Sys, i: nat, cl: Client): Sys
    requires i < |s.cs|
  {
    s.(cs := s.cs[i := cl])
  }

  /** How long the task waits: TMO_FEVR, or from one millisecond to TMAX_RELTIM. */
  function Wait(clock: int, now: int, next: int): Until {
    if next == 0 then Forever
    else
      var wait := next - now;
      Until.At(clock + if wait < 1000 then 1000 else if wait > TMAX_RELTIM then TMAX_RELTIM else wait)
  }

  /** One step of context `i`. */
  function ClientStep(s: Sys, i: nat, a: Act): Sys
    requires i < |s.cs|
  {
    match s.cs[i]
    case Out => (
      match a
      case Find(key, job, c) =>
        if Has(s.l, key) then Place(s, i, Found(key, job, c))
        else if job.Disarm? then s
        else Place(s, i, Looking(key, job, c))
      case Remove(key) => s.(l := Done(s.l, key))
      case Other(id, c) => if id in s.ids then Place(s, i, Signalling(id, c)) else s
      case Flush =>
        if s.w.pend == [] then s
        else
          var n := |s.w.pend| - 1;
          Place(s, i, InHand(s.w.pend[n])).(w := s.w.(pend := s.w.pend[..n]))
      case _ => s)
    case Looking(key, job, c) =>
      if !a.Create? then s
      else if !a.room then Place(s, i, Out)
      else Place(s, i, Found(key, job, c)).(l := Insert(s.l, key))
    case Found(key, job, c) =>
      Place(s, i, if job.Arm? then Signalling(TIMER_SEM, c) else Out).(l := Write(s.l, key, job, s.clock))
    case Signalling(id, c) =>
      if CanSignal(c) then Deliver(Place(s, i, Out).(w := SignalCall(s.w, id, c))) else Place(s, i, Parking(id, c))
    case Parking(id, c) => Place(s, i, Out).(w := SignalCall(s.w, id, c))
    case InHand(id) => Deliver(Place(s, i, Out).(w := s.w.(up := s.w.up + {id})))
  }

  /** One step of the timer task.  `dead` records that a due timer without a function was taken. */
  function TaskNext(s: Sys): Sys {
    match s.task
    case Top => s.(task := Scanning(s.clock))
    case Scanning(now) =>
      var r := Scan(s.l, now);
      s.(l := r.l, task := if r.fn.Fn? then Calling(r.fn, r.arg) else Deciding(now, r.next),
         dead := s.dead || (r.due && r.fn.NoFn?))
    case Calling(_, _) => s.(task := Top)
    case Deciding(now, next) =>
      if TIMER_SEM in s.w.up then s.(task := Top, w := s.w.(up := s.w.up - {TIMER_SEM}))
      else s.(task := Blocked(now, s.clock, next, Wait(s.clock, now, next)))
    case Blocked(_, _, _, until) => if until.At? && s.clock >= until.clock then s.(task := Top) else s
  }

  function Next(s: Sys, e: Event): Sys {
    match e
    case Client(who, act) => if who < |s.cs| then ClientStep(s, who, act) else s
    case TaskStep => TaskNext(s)
    case Tick(dt) => s.(clock := s.clock + dt)
  }

  function Run(s: Sys, es: seq<Event>): Sys {
    if es == [] then s else Next(Run(s, es[..|es| - 1]), es[|es| - 1])
  }

  /** After start-up: no timers, no signals; `n` contexts; the semaphores that will ever be signalled. */
  function Start(clock: int, n: nat, ids: set<nat>): Sys {
    Sys([], Wakes([], {}), clock, Top, seq(n, _ => Out), ids, false)
  }

  // ---------------------------------------------------------------- the invariant

  /** The context is about to signal the timer task. */
  predicate Carrying(cl: Client) {
    (cl.Signalling? || cl.Parking? || cl.InHand?) && cl.id == TIMER_SEM
  }

  /** A wake-up is on its way to the timer task. */
  ghost predicate InFlight(s: Sys) {
    || TIMER_SEM in s.w.up
    || TIMER_SEM in s.w.pend
    || exists i :: 0 <= i < |s.cs| && Carrying(s.cs[i])
  }

  /** The timer task knows of every armed timer, or is about to be told. */
  ghost predicate Informed(s: Sys, next: int) {
    InFlight(s) || Heard(s.l, next)
  }

  predicate ClientOk(cl: Client, ids: set<nat>) {
    && (cl.Signalling? || cl.Parking? || cl.InHand? ==> cl.id in ids)
    && (cl.Parking? ==> !CanSignal(cl.c))
  }

  /** What holds in every state. */
  ghost predicate Inv(s: Sys) {
    && Distinct(s.l)
    && Sound(s.w, s.ids) && TIMER_SEM in s.ids && |s.ids| <= WAKEUP_MAX
    && (forall i :: 0 <= i < |s.cs| ==> ClientOk(s.cs[i], s.ids))
    && (s.task.Blocked? ==> TIMER_SEM !in s.w.up)
    && (!s.dead && (s.task.Deciding? || s.task.Blocked?) ==> Informed(s, s.task.next))
  }

  // ---------------------------------------------------------------- every step keeps it

  /** A change of the list by which no deadline appears or comes nearer. */
  ghost predicate NoSooner(l: seq<Timer>, r: seq<Timer>) {
    forall next :: Heard(l, next) ==> Heard(r, next)
  }

  lemma InsertNoSooner(l: seq<Timer>, key: nat)
    ensures NoSooner(l, Insert(l, key))
  {
    forall next | Heard(l, next)
      ensures Heard(Insert(l, key), next)
    {
      var r := Insert(l, key);
      forall i | 0 <= i < |r| && Armed(r[i])
        ensures next != 0 && next <= r[i].deadline
      {
        if r != l { assert r[i] == l[i - 1]; }
      }
    }
  }

  lemma DoneNoSooner(l: seq<Timer>, key: nat)
    ensures NoSooner(l, Done(l, key))
  {
    var n := IndexOf(l, key);
    var r := Done(l, key);
    forall next | Heard(l, next)
      ensures Heard(r, next)
    {
      forall i | 0 <= i < |r| && Armed(r[i])
        ensures next != 0 && next <= r[i].deadline
      {
        if n < |l| { assert r[i] == l[if i < n then i else i + 1]; }
      }
    }
  }

  lemma QuietWriteNoSooner(l: seq<Timer>, key: nat, job: Job, clock: int)
    requires !job.Arm?
    ensures NoSooner(l, Write(l, key, job, clock))
  {
  }

  /** A step of context `i` that carries no wake-up and leaves the signals alone. */
  lemma QuietStep(s: Sys, i: nat, cl: Client, l: seq<Timer>)
    requires Inv(s) && i < |s.cs| && !Carrying(s.cs[i]) && ClientOk(cl, s.ids)
    requires Distinct(l) && (NoSooner(s.l, l) || Carrying(cl))
    ensures Inv(Place(s, i, cl).(l := l))
  {
    hide Distinct, Heard, Sound, NoSooner, Carrying, ClientOk;
    var t := Place(s, i, cl).(l := l);
    if InFlight(s) {
      CarrierStays(s, t, i);
    }
    if Carrying(cl) {
      assert Carrying(t.cs[i]);
    } else if !s.dead && (s.task.Deciding? || s.task.Blocked?) && !InFlight(s) {
      StillHeard(s.l, l, s.task.next);
    }
  }

  lemma StillHeard(l: seq<Timer>, r: seq<Timer>, next: int)
    requires NoSooner(l, r) && Heard(l, next)
    ensures Heard(r, next)
  {
  }

  /** The other contexts go on carrying what they carried. */
  lemma CarrierStays(s: Sys, t: Sys, i: nat)
    requires i < |s.cs| == |t.cs| && (forall k :: 0 <= k < |s.cs| && k != i ==> t.cs[k] == s.cs[k])
    ensures (exists k :: 0 <= k < |s.cs| && k != i && Carrying(s.cs[k])) ==>
              (exists k :: 0 <= k < |t.cs| && Carrying(t.cs[k]))
    ensures (exists k :: 0 <= k < |s.cs| && Carrying(s.cs[k])) && !Carrying(s.cs[i]) ==>
              (exists k :: 0 <= k < |t.cs| && Carrying(t.cs[k]))
  {
    if k :| 0 <= k < |s.cs| && k != i && Carrying(s.cs[k]) {
      assert Carrying(t.cs[k]);
    }
  }

  /** A step of context `i` that passes a wake-up on: none is lost on the way. */
  lemma PassingStep(s: Sys, i: nat, cl: Client, w: Wakes)
    requires Inv(s) && i < |s.cs| && ClientOk(cl, s.ids) && Sound(w, s.ids) && s.w.up <= w.up
    requires TIMER_SEM in s.w.pend || Carrying(s.cs[i]) ==> TIMER_SEM in w.up || TIMER_SEM in w.pend || Carrying(cl)
    ensures Inv(Deliver(Place(s, i, cl).(w := w)))
  {
    hide Distinct, Heard, Sound, Carrying, ClientOk;
    var t := Place(s, i, cl).(w := w);
    CarrierStays(s, t, i);
    if Carrying(cl) {
      assert Carrying(t.cs[i]);
    }
    assert Sound(Deliver(t).w, s.ids) by { LowerIsSound(w, s.ids); }
  }

  lemma LowerIsSound(w: Wakes, ids: set<nat>)
    requires Sound(w, ids)
    ensures forall up: set<nat> :: Sound(w.(up := up), ids)
  {
  }

  lemma ClientKeeps(s: Sys, i: nat, a: Act)
    requires Inv(s) && i < |s.cs|
    ensures Inv(ClientStep(s, i, a))
  {
    hide Distinct, Heard, Sound, NoSooner, Insert, Done, Write, Has, Inv, SignalCall;
    InvSays(s, i);
    NoSoonerItself(s.l);
    match s.cs[i]
    case Out => OutKeeps(s, i, a);
    case Looking(key, job, c) =>
      InsertNoSooner(s.l, key);
      InsertKeepsDistinct(s.l, key);
      QuietStep(s, i, Found(key, job, c), Insert(s.l, key));
      QuietStep(s, i, Out, s.l);
    case Found(key, job, c) =>
      if !job.Arm? { QuietWriteNoSooner(s.l, key, job, s.clock); }
      WriteKeepsKeys(s.l, key, job, s.clock);
      QuietStep(s, i, if job.Arm? then Signalling(TIMER_SEM, c) else Out, Write(s.l, key, job, s.clock));
    case Signalling(id, c) =>
      WakeUpIsKept(s.w, id, c, s.ids);
      if CanSignal(c) {
        SignalKeepsPend(s.w, id, c);
        PassingStep(s, i, Out, SignalCall(s.w, id, c));
      } else {
        PassingStep(s, i, Parking(id, c), s.w);
        NothingToDeliver(s, i, Parking(id, c), s.w);
      }
    case Parking(id, c) =>
      WakeUpIsKept(s.w, id, c, s.ids);
      SignalKeepsPend(s.w, id, c);
      PassingStep(s, i, Out, SignalCall(s.w, id, c));
      NothingToDeliver(s, i, Out, SignalCall(s.w, id, c));
    case InHand(id) =>
      LowerIsSound(s.w, s.ids);
      PassingStep(s, i, Out, s.w.(up := s.w.up + {id}));
  }

  lemma InvSays(s: Sys, i: nat)
    requires Inv(s) && i < |s.cs|
    ensures Distinct(s.l) && Sound(s.w, s.ids) && TIMER_SEM in s.ids && |s.ids| <= WAKEUP_MAX
    ensures ClientOk(s.cs[i], s.ids)
  {
  }

  lemma NoSoonerItself(l: seq<Timer>)
    ensures NoSooner(l, l)
  {
  }

  lemma SignalKeepsPend(w: Wakes, id: nat, c: Ctx)
    ensures TIMER_SEM in w.pend ==> TIMER_SEM in SignalCall(w, id, c).pend
    ensures !CanSignal(c) ==> SignalCall(w, id, c).up == w.up
  {
  }

  lemma NothingToDeliver(s: Sys, i: nat, cl: Client, w: Wakes)
    requires Inv(s) && i < |s.cs| && w.up == s.w.up
    ensures Deliver(Place(s, i, cl).(w := w)) == Place(s, i, cl).(w := w)
  {
  }

  lemma OutKeeps(s: Sys, i: nat, a: Act)
    requires Inv(s) && i < |s.cs| && s.cs[i].Out?
    ensures Inv(ClientStep(s, i, a))
  {
    hide Distinct, Heard, Sound, NoSooner, Insert, Done, Write, Has, Inv, SignalCall;
    InvSays(s, i);
    NoSoonerItself(s.l);
    match a
    case Find(key, job, c) =>
      QuietStep(s, i, Found(key, job, c), s.l);
      QuietStep(s, i, Looking(key, job, c), s.l);
    case Remove(key) =>
      DoneNoSooner(s.l, key);
      DoneKeepsDistinct(s.l, key);
      QuietStep(s, i, Out, Done(s.l, key));
      assert Place(s, i, Out) == s;
    case Other(id, c) =>
      if id in s.ids { QuietStep(s, i, Signalling(id, c), s.l); }
    case Flush =>
      if s.w.pend != [] {
        var n := |s.w.pend| - 1;
        var w := s.w.(pend := s.w.pend[..n]);
        PopIsSound(s.w, s.ids);
        assert TIMER_SEM in s.w.pend ==> TIMER_SEM in w.pend || s.w.pend[n] == TIMER_SEM;
        PassingStep(s, i, InHand(s.w.pend[n]), w);
        NothingToDeliver(s, i, InHand(s.w.pend[n]), w);
      }
    case _ =>
  }

  lemma PopIsSound(w: Wakes, ids: set<nat>)
    requires Sound(w, ids) && w.pend != []
    ensures Sound(w.(pend := w.pend[..|w.pend| - 1]), ids) && w.pend[|w.pend| - 1] in ids
  {
  }

  lemma TaskKeeps(s: Sys)
    requires Inv(s)
    ensures Inv(TaskNext(s))
  {
    hide Distinct, Heard, Sound, Carrying, ClientOk, Scan;
    match s.task
    case Scanning(now) =>
      ScanKeepsDistinct(s.l, now);
      ScanIsHeard(s.l, now);
    case Deciding(now, next) =>
      LowerIsSound(s.w, s.ids);
    case _ =>
  }

  lemma ScanKeepsDistinct(l: seq<Timer>, now: int)
    requires Distinct(l)
    ensures Distinct(Scan(l, now).l)
  {
    ScanMeans(l, now);
  }

  lemma ScanIsHeard(l: seq<Timer>, now: int)
    ensures var r := Scan(l, now); !r.due ==> Heard(r.l, r.next)
  {
    ScanMeans(l, now);
    if !Scan(l, now).due {
      SleepIsRight(l, now);
    }
  }

  lemma {:induction false} RunKeeps(s: Sys, es: seq<Event>)
    requires Inv(s)
    ensures Inv(Run(s, es)) && Run(s, es).ids == s.ids
  {
    if es != [] {
      var r := Run(s, es[..|es| - 1]);
      RunKeeps(s, es[..|es| - 1]);
      NextKeeps(r, es[|es| - 1]);
    }
  }

  lemma NextKeeps(s: Sys, e: Event)
    requires Inv(s)
    ensures Inv(Next(s, e)) && Next(s, e).ids == s.ids
  {
    if e.Client? && e.who < |s.cs| {
      ClientKeeps(s, e.who, e.act);
    } else if e.TaskStep? {
      TaskKeeps(s);
    }
  }

  // ---------------------------------------------------------------- what follows for whole runs

  lemma NextKeepsDistinct(s: Sys, e: Event)
    requires Distinct(s.l)
    ensures Distinct(Next(s, e).l)
  {
    hide Distinct, Insert, Done, Write, Scan, Has;
    if e.TaskStep? {
      if s.task.Scanning? { ScanKeepsDistinct(s.l, s.task.now); }
    } else if e.Client? && e.who < |s.cs| {
      match s.cs[e.who]
      case Out => if e.act.Remove? { DoneKeepsDistinct(s.l, e.act.key); }
      case Looking(key, _, _) => InsertKeepsDistinct(s.l, key);
      case Found(key, job, _) => WriteKeepsKeys(s.l, key, job, s.clock);
      case _ =>
    }
  }

  /** The timer list never holds two timers with one key, although contexts race to create them. */
  lemma {:induction false} KeysStayDistinct(clock: int, n: nat, ids: set<nat>, es: seq<Event>)
    ensures Distinct(Run(Start(clock, n, ids), es).l)
  {
    if es != [] {
      KeysStayDistinct(clock, n, ids, es[..|es| - 1]);
      hide Distinct, Next;
      NextKeepsDistinct(Run(Start(clock, n, ids), es[..|es| - 1]), es[|es| - 1]);
    }
  }

  /** The times the timer task works with are past, and its wait is the one it computed. */
  ghost predicate Timed(s: Sys) {
    match s.task
    case Scanning(now) => now <= s.clock
    case Deciding(now, _) => now <= s.clock
    case Blocked(now, begun, next, until) => now <= begun <= s.clock && until == Wait(begun, now, next)
    case _ => true
  }

  lemma NextKeepsTimed(s: Sys, e: Event)
    requires Timed(s)
    ensures Timed(Next(s, e)) && s.clock <= Next(s, e).clock
  {
    hide Insert, Done, Write, Scan, Has, SignalCall;
  }

  lemma {:induction false} RunIsTimed(clock: int, n: nat, ids: set<nat>, es: seq<Event>)
    ensures Timed(Run(Start(clock, n, ids), es))
  {
    if es != [] {
      RunIsTimed(clock, n, ids, es[..|es| - 1]);
      hide Timed, Next;
      NextKeepsTimed(Run(Start(clock, n, ids), es[..|es| - 1]), es[|es| - 1]);
    }
  }

  /** The timer task waits, knows nothing of some armed timer and nobody is about to tell it. */
  ghost predicate Loses(s: Sys) {
    && !s.dead && s.task.Blocked? && !Heard(s.l, s.task.next)
    && TIMER_SEM !in s.w.pend && forall i :: 0 <= i < |s.cs| ==> !Carrying(s.cs[i])
  }

  /** The time limit of a wait for what is `away` microseconds off: that time, but a millisecond at least
      and no more than the kernel takes. */
  predicate LimitIs(us: int, away: int) {
    && 1000 <= us <= TMAX_RELTIM
    && (us == away || (us == 1000 && away < 1000) || (us == TMAX_RELTIM && away > TMAX_RELTIM))
  }

  /** No wake-up is lost: while the timer task waits, every armed timer is due no sooner than the
      deadline its wait was computed from, or else its semaphore is kept for later or a context is about
      to signal it.  This on runs where no due timer without a function was taken, with no more
      semaphores in use than the wake-up array has places.  The task waits forever exactly when its scan
      found no deadline, and otherwise as long as it saw this to be away. */
  lemma NoWakeUpIsLost(clock: int, n: nat, ids: set<nat>, es: seq<Event>)
    requires TIMER_SEM in ids && |ids| <= WAKEUP_MAX
    ensures var s := Run(Start(clock, n, ids), es);
            s.task.Blocked? ==>
              && (s.task.until.Forever? <==> s.task.next == 0)
              && (s.task.until.At? ==> LimitIs(s.task.until.clock - s.task.begun, s.task.next - s.task.now))
              && (|| s.dead
                  || Heard(s.l, s.task.next)
                  || TIMER_SEM in s.w.pend
                  || exists i :: 0 <= i < |s.cs| && Carrying(s.cs[i]))
  {
    hide Run, Heard, Carrying;
    RunKeeps(Start(clock, n, ids), es);
    RunIsTimed(clock, n, ids, es);
  }

  /** The wait ends in time for every armed timer.  When it is computed the time is not read again, so it
      is late by what has passed since the scan; and it is a millisecond at least. */
  ghost predicate EndsBy(l: seq<Timer>, end: int, begun: int, now: int) {
    forall i :: 0 <= i < |l| && Armed(l[i]) ==>
      end <= if l[i].deadline - now < 1000 then begun + 1000 else l[i].deadline + (begun - now)
  }

  lemma WaitEndsBy(l: seq<Timer>, next: int, begun: int, now: int)
    requires Heard(l, next) && Wait(begun, now, next).At?
    ensures EndsBy(l, Wait(begun, now, next).clock, begun, now)
  {
  }

  /** So once all contexts are outside and nothing is kept, a task that waits forever leaves no timer
      armed, and one that waits with a limit is back for each armed timer. */
  lemma AtRestAllIsHeard(clock: int, n: nat, ids: set<nat>, es: seq<Event>)
    requires TIMER_SEM in ids && |ids| <= WAKEUP_MAX
    ensures var s := Run(Start(clock, n, ids), es);
            !s.dead && s.task.Blocked? && s.w.pend == [] && (forall i :: 0 <= i < |s.cs| ==> s.cs[i].Out?) ==>
              && Heard(s.l, s.task.next)
              && (s.task.until.Forever? ==> forall i :: 0 <= i < |s.l| ==> !Armed(s.l[i]))
              && s.task.now <= s.task.begun <= s.clock
              && (s.task.until.At? ==> EndsBy(s.l, s.task.until.clock, s.task.begun, s.task.now))
  {
    hide Run;
    NoWakeUpIsLost(clock, n, ids, es);
    RunIsTimed(clock, n, ids, es);
    var s := Run(Start(clock, n, ids), es);
    if !s.dead && s.task.Blocked? && Heard(s.l, s.task.next) && s.task.until.At? {
      WaitEndsBy(s.l, s.task.next, s.task.begun, s.task.now);
    }
  }

  function TaskSteps(s: Sys, n: nat): Sys {
    if n == 0 then s else TaskNext(TaskSteps(s, n - 1))
  }

  /** And once the time has come for an armed timer, that is its deadline and by how much the wait was late,
      the task's next three steps end the wait, read the clock and call the first due timer. */
  lemma DueTimerIsServed(clock: int, n: nat, ids: set<nat>, es: seq<Event>, i: nat)
    requires TIMER_SEM in ids && |ids| <= WAKEUP_MAX
    requires var s := Run(Start(clock, n, ids), es);
             && !s.dead && s.task.Blocked? && s.w.pend == [] && (forall k :: 0 <= k < |s.cs| ==> s.cs[k].Out?)
             && Wired(s.l) && i < |s.l| && s.l[i].deadline != 0
             && s.clock >= if s.l[i].deadline - s.task.now < 1000 then s.task.begun + 1000
                           else s.l[i].deadline + (s.task.begun - s.task.now)
    ensures var s := Run(Start(clock, n, ids), es);
            var d := FirstDue(s.l, s.clock);
            && d < |s.l| && TaskSteps(s, 3).task == Calling(s.l[d].fn, s.l[d].arg)
            && TaskSteps(s, 3).l == s.l[d := Taken(s.l[d], s.clock)]
  {
    hide Run;
    AtRestAllIsHeard(clock, n, ids, es);
    NoWakeUpIsLost(clock, n, ids, es);
    var s := Run(Start(clock, n, ids), es);
    assert Due(s.l[i], s.clock);
    ScanMeans(s.l, s.clock);
    assert TaskSteps(s, 1) == TaskNext(TaskSteps(s, 0)) == s.(task := Top);
    assert TaskSteps(s, 2) == s.(task := Scanning(s.clock));
  }

  /** A signal wakes the task if it waits, and else saves it its next wait; either way it is used up. */
  lemma SignalIsUsedUp(s: Sys, i: nat, c: Ctx)
    requires i < |s.cs| && s.cs[i] == Signalling(TIMER_SEM, c) && c.mie
    ensures var r := ClientStep(s, i, Act.Signal);
            && r.cs[i].Out? && r.l == s.l
            && (s.task.Blocked? ==> r.task.Top? && TIMER_SEM !in r.w.up)
            && (s.task.Deciding? ==> TaskNext(r).task.Top? && TIMER_SEM !in TaskNext(r).w.up)
            && (!s.task.Blocked? ==> r.task == s.task && TIMER_SEM in r.w.up)
  {
  }

  /** A timer given up is out of the list, and every other is left in it. */
  lemma RemoveTakesOut(s: Sys, i: nat, key: nat)
    requires i < |s.cs| && s.cs[i].Out? && Distinct(s.l)
    ensures ClientStep(s, i, Remove(key)) == s.(l := Without(s.l, key)) && !Has(Without(s.l, key), key)
  {
    DoneIsWithout(s.l, key);
    DoneKeepsDistinct(s.l, key);
  }

  lemma {:induction false} RunJoins(s: Sys, a: seq<Event>, b: seq<Event>)
    ensures Run(Run(s, a), b) == Run(s, a + b)
    decreases |b|
  {
    if b == [] {
      assert a + b == a;
    } else {
      hide Next;
      RunJoins(s, a, b[..|b| - 1]);
      assert (a + b)[..|a + b| - 1] == a + b[..|b| - 1];
    }
  }

  lemma TwoEvents(s: Sys, e: Event, f: Event)
    ensures Run(s, [e, f]) == Next(Next(s, e), f)
  {
    assert [e, f][..1] == [e] && [e][..0] == [];
    assert Run(s, [e]) == Next(s, e);
  }

  /** A kept wake-up reaches the waiting task: a flush by one context, nobody interfering, wakes it. */
  lemma {:induction false} FlushWakes(s: Sys, i: nat) returns (es: seq<Event>)
    requires i < |s.cs| && s.cs[i].Out? && s.task.Blocked? && TIMER_SEM in s.w.pend && TIMER_SEM !in s.w.up
    ensures var r := Run(s, es); r.task.Top? && r.l == s.l && r.clock == s.clock
    decreases |s.w.pend|
  {
    var n := |s.w.pend| - 1;
    var e, f := Client(i, Act.Flush), Client(i, Act.Signal);
    es := [e, f];
    TwoEvents(s, e, f);
    var t := Next(Next(s, e), f);
    var id := s.w.pend[n];
    var held := Place(s, i, InHand(id)).(w := s.w.(pend := s.w.pend[..n]));
    assert Next(s, e) == held;
    assert held.cs[i := Out] == s.cs;
    if id != TIMER_SEM {
      assert t == s.(w := Wakes(s.w.pend[..n], s.w.up + {id}));
      assert TIMER_SEM in s.w.pend[..n];
      hide Run, Next;
      var more := FlushWakes(t, i);
      RunJoins(s, es, more);
      es := es + more;
    }
  }

  /** A context arms only timers that have a function. */
  ghost predicate WellArmed(s: Sys, e: Event) {
    e.Client? && e.who < |s.cs| && s.cs[e.who].Found? ==>
      var cl := s.cs[e.who];
      cl.job.Arm? && Has(s.l, cl.key) ==> s.l[IndexOf(s.l, cl.key)].fn.Fn?
  }

  ghost predicate WellArmedRun(s: Sys, es: seq<Event>) {
    es == [] || (WellArmedRun(s, es[..|es| - 1]) && WellArmed(Run(s, es[..|es| - 1]), es[|es| - 1]))
  }

  lemma WiredStays(s: Sys, e: Event)
    requires Wired(s.l) && !s.dead && WellArmed(s, e)
    ensures Wired(Next(s, e).l) && !Next(s, e).dead
  {
    if e.TaskStep? {
      if s.task.Scanning? { WiredScanIsRight(s.l, s.task.now); }
    } else if e.Client? && e.who < |s.cs| {
      var cl := s.cs[e.who];
      match cl
      case Out => if e.act.Remove? { WiredAfterDone(s.l, e.act.key); }
      case Looking(key, _, _) => WiredAfterInsert(s.l, key);
      case Found(key, job, _) =>
      case _ =>
    }
  }

  lemma WiredAfterDone(l: seq<Timer>, key: nat)
    requires Wired(l)
    ensures Wired(Done(l, key))
  {
    var n := IndexOf(l, key);
    var r := Done(l, key);
    forall i | 0 <= i < |r| && Armed(r[i])
      ensures r[i].fn.Fn?
    {
      if n < |l| { assert r[i] == l[if i < n then i else i + 1]; }
    }
  }

  lemma WiredAfterInsert(l: seq<Timer>, key: nat)
    requires Wired(l)
    ensures Wired(Insert(l, key))
  {
    var r := Insert(l, key);
    forall i | 0 <= i < |r| && Armed(r[i])
      ensures r[i].fn.Fn?
    {
      if r != l { assert r[i] == l[i - 1]; }
    }
  }

  /** If only timers with a function are ever armed, the condition of the theorems above is met. */
  lemma {:induction false} WellArmedRunsStayAlive(clock: int, n: nat, ids: set<nat>, es: seq<Event>)
    requires WellArmedRun(Start(clock, n, ids), es)
    ensures var s := Run(Start(clock, n, ids), es); !s.dead && Wired(s.l)
  {
    if es != [] {
      var before := es[..|es| - 1];
      WellArmedRunsStayAlive(clock, n, ids, before);
      WiredStays(Run(Start(clock, n, ids), before), es[|es| - 1]);
    }
  }

  // ---------------------------------------------------------------- a repeating timer in a run

  /** The scan at `now` takes the timer of the key. */
  predicate RingsNow(l: seq<Timer>, now: int, key: nat) {
    FirstDue(l, now) == IndexOf(l, key) < |l|
  }

  predicate RingsAt(s: Sys, e: Event, key: nat) {
    e.TaskStep? && s.task.Scanning? && RingsNow(s.l, s.task.now, key)
  }

  /** The times for which the timer of the key was called in a run. */
  function RingsOf(s: Sys, es: seq<Event>, key: nat): seq<int> {
    if es == [] then []
    else
      var before, e := es[..|es| - 1], es[|es| - 1];
      var r := Run(s, before);
      RingsOf(s, before, key) + if RingsAt(r, e, key) then [r.task.now] else []
  }

  /** The event does not change or remove the timer of the key by a call. */
  predicate LeavesAlone(s: Sys, e: Event, key: nat) {
    e.Client? && e.who < |s.cs| ==>
      && !(s.cs[e.who].Found? && s.cs[e.who].key == key)
      && !(s.cs[e.who].Out? && e.act.Remove? && e.act.key == key)
  }

  predicate LeftAlone(s: Sys, es: seq<Event>, key: nat) {
    es == [] || (LeftAlone(s, es[..|es| - 1], key) && LeavesAlone(Run(s, es[..|es| - 1]), es[|es| - 1], key))
  }

  function TimerOf(l: seq<Timer>, key: nat): Timer
    requires Has(l, key)
  {
    l[IndexOf(l, key)]
  }

  lemma DoneLeaves(l: seq<Timer>, other: nat, key: nat)
    requires Has(l, key) && other != key
    ensures Has(Done(l, other), key) && TimerOf(Done(l, other), key) == TimerOf(l, key)
  {
    var n, i, r := IndexOf(l, other), IndexOf(l, key), Done(l, other);
    if n < |l| {
      var j := if i < n then i else i - 1;
      assert r[j] == l[i];
      assert forall k :: 0 <= k < j ==> r[k] == l[if k < n then k else k + 1];
    }
  }

  lemma InsertLeaves(l: seq<Timer>, other: nat, key: nat)
    requires Has(l, key)
    ensures Has(Insert(l, other), key) && TimerOf(Insert(l, other), key) == TimerOf(l, key)
  {
    var i, r := IndexOf(l, key), Insert(l, other);
    if !Has(l, other) {
      assert r[1..] == l && IndexOf(r, key) == 1 + i;
    }
  }

  lemma WriteLeaves(l: seq<Timer>, other: nat, key: nat, job: Job, clock: int)
    requires Has(l, key) && other != key
    ensures Has(Write(l, other, job, clock), key) && TimerOf(Write(l, other, job, clock), key) == TimerOf(l, key)
  {
    WriteKeepsKeys(l, other, job, clock);
  }

  lemma ScanLeaves(l: seq<Timer>, now: int, key: nat)
    requires Has(l, key)
    ensures var r := Scan(l, now).l;
            && Has(r, key)
            && TimerOf(r, key) == if RingsNow(l, now, key) then Taken(TimerOf(l, key), now) else TimerOf(l, key)
    ensures RingsNow(l, now, key) ==>
              && TimerOf(l, key).deadline != 0 && TimerOf(l, key).deadline <= now
              && Scan(l, now).fn == TimerOf(l, key).fn && Scan(l, now).arg == TimerOf(l, key).arg
  {
    ScanMeans(l, now);
    var r := Scan(l, now).l;
    assert forall k :: 0 <= k < |l| ==> r[k].key == l[k].key;
    assert IndexOf(r, key) == IndexOf(l, key);
  }

  lemma NextLeaves(s: Sys, e: Event, key: nat)
    requires Has(s.l, key) && LeavesAlone(s, e, key)
    ensures Has(Next(s, e).l, key)
    ensures var t, u := TimerOf(s.l, key), TimerOf(Next(s, e).l, key);
            if RingsAt(s, e, key) then u == Taken(t, s.task.now) && t.deadline <= s.task.now else u == t
  {
    hide Has, IndexOf, TimerOf, Insert, Done, Write, Scan, RingsNow;
    if e.TaskStep? {
      if s.task.Scanning? { ScanLeaves(s.l, s.task.now, key); }
    } else if e.Client? && e.who < |s.cs| {
      match s.cs[e.who]
      case Out => if e.act.Remove? { DoneLeaves(s.l, e.act.key, key); }
      case Looking(k, _, _) => InsertLeaves(s.l, k, key);
      case Found(k, job, _) => WriteLeaves(s.l, k, key, job, s.clock);
      case _ =>
    }
  }

  predicate Clocked(s: Sys) {
    s.clock >= 0 && (s.task.Scanning? ==> s.task.now >= 0)
  }

  /** Timer `t`, called for these times, is in the list as it was but for its deadline. */
  ghost predicate RungIn(l: seq<Timer>, key: nat, t: Timer, rings: seq<int>) {
    Has(l, key) && Rung(TimerOf(l, key), t, rings)
  }

  lemma RingsAgain(l: seq<Timer>, r: seq<Timer>, key: nat, t: Timer, rings: seq<int>, now: int)
    requires RungIn(l, key, t, rings) && t.period > 0 && now >= 0 && TimerOf(l, key).deadline <= now
    requires Has(r, key) && TimerOf(r, key) == Taken(TimerOf(l, key), now)
    ensures RungIn(r, key, t, rings + [now])
  {
    hide Has, IndexOf, TimerOf, Spaced, DueNext;
    RungAgain(TimerOf(l, key), TimerOf(r, key), t, rings, now);
  }

  lemma NextClocked(s: Sys, e: Event)
    requires Clocked(s)
    ensures Clocked(Next(s, e))
  {
    hide Has, Insert, Done, Write, Scan, SignalCall;
  }

  lemma NextRung(s: Sys, e: Event, key: nat, t: Timer, rings: seq<int>)
    requires Clocked(s) && LeavesAlone(s, e, key) && RungIn(s.l, key, t, rings) && t.period > 0
    ensures RungIn(Next(s, e).l, key, t, rings + if RingsAt(s, e, key) then [s.task.now] else [])
  {
    hide Next, Has, IndexOf, TimerOf, Taken, RingsNow, LeavesAlone, Spaced, DueNext;
    NextLeaves(s, e, key);
    if RingsAt(s, e, key) {
      hide RungIn;
      RungHas(s.l, key, t, rings);
      RingsAgain(s.l, Next(s, e).l, key, t, rings, s.task.now);
    } else {
      assert rings + [] == rings;
    }
  }

  lemma RungHas(l: seq<Timer>, key: nat, t: Timer, rings: seq<int>)
    requires RungIn(l, key, t, rings)
    ensures Has(l, key)
  {
  }

  /** Each time its function is what the task goes on to call, with its argument. */
  lemma RingIsACall(s: Sys, e: Event, key: nat)
    requires RingsAt(s, e, key) && TimerOf(s.l, key).fn.Fn?
    ensures Next(s, e).task == Calling(TimerOf(s.l, key).fn, TimerOf(s.l, key).arg)
  {
    ScanLeaves(s.l, s.task.now, key);
  }

  /** In every interleaving, an armed timer that repeats, as long as no call changes or removes it, is
      called first when its deadline has come and then no sooner than a period after the last time, for
      which it is due again exactly; it keeps its function, argument and period. */
  lemma {:induction false} TimerKeepsRinging(s: Sys, es: seq<Event>, key: nat)
    requires Has(s.l, key) && TimerOf(s.l, key).period > 0 && TimerOf(s.l, key).deadline != 0
    requires Clocked(s) && LeftAlone(s, es, key)
    ensures Clocked(Run(s, es)) && RungIn(Run(s, es).l, key, TimerOf(s.l, key), RingsOf(s, es, key))
    decreases |es|
  {
    if es == [] {
      assert RingsOf(s, es, key) == [];
    } else {
      hide Next, Has, TimerOf, RungIn, Clocked, LeavesAlone, RingsAt;
      var before, e := es[..|es| - 1], es[|es| - 1];
      TimerKeepsRinging(s, before, key);
      NextClocked(Run(s, before), e);
      NextRung(Run(s, before), e, key, TimerOf(s.l, key), RingsOf(s, before, key));
    }
  }

  // ---------------------------------------------------------------- a call that nobody disturbs

  /** The whole of a call by context `i` that nobody disturbs; `room` tells whether calloc succeeds. */
  function Alone(s: Sys, i: nat, a: Act, room: bool, steps: nat): Sys
    requires i < |s.cs|
    decreases steps
  {
    if steps == 0 then s
    else
      StepShape(s, i, a);
      var r := ClientStep(s, i, a);
      if r.cs[i].Out? then r else Alone(r, i, Create(room), room, steps - 1)
  }

  lemma StepShape(s: Sys, i: nat, a: Act)
    requires i < |s.cs|
    ensures |ClientStep(s, i, a).cs| == |s.cs|
  {
  }

  lemma AloneGoesOn(s: Sys, i: nat, a: Act, r: Sys, room: bool, steps: nat)
    requires i < |s.cs| && steps > 0 && ClientStep(s, i, a) == r
    ensures |r.cs| == |s.cs|
    ensures Alone(s, i, a, room, steps) == if r.cs[i].Out? then r else Alone(r, i, Create(room), room, steps - 1)
  {
    StepShape(s, i, a);
  }

  /** What setfn, arm and disarm come to; without room for a new timer, to nothing. */
  function JobCall(s: Sys, key: nat, job: Job, c: Ctx, room: bool): Sys {
    if job.Disarm? || (!room && !Has(s.l, key)) then s.(l := Write(s.l, key, job, s.clock))
    else
      var t := s.(l := Write(Insert(s.l, key), key, job, s.clock));
      if job.Arm? then Deliver(t.(w := SignalCall(s.w, TIMER_SEM, c))) else t
  }

  /** Undisturbed, the steps of setfn, arm and disarm change the timer of the key, created if need be,
      and an arm signals the timer task, at once or by way of the wake-up array. */
  lemma JobAlone(s: Sys, i: nat, key: nat, job: Job, c: Ctx, room: bool)
    requires i < |s.cs| && s.cs[i].Out? && (s.task.Blocked? ==> TIMER_SEM !in s.w.up)
    ensures Alone(s, i, Find(key, job, c), room, 5) == JobCall(s, key, job, c, room)
  {
    hide Alone, JobCall, ClientStep;
    if Has(s.l, key) {
      FoundAlone(s, i, key, job, c, room);
    } else if job.Disarm? {
      DisarmAlone(s, i, key, c, room);
    } else {
      CreateAlone(s, i, key, job, c, room);
    }
  }

  lemma FoundAlone(s: Sys, i: nat, key: nat, job: Job, c: Ctx, room: bool)
    requires i < |s.cs| && s.cs[i].Out? && (s.task.Blocked? ==> TIMER_SEM !in s.w.up) && Has(s.l, key)
    ensures Alone(s, i, Find(key, job, c), room, 5) == JobCall(s, key, job, c, room)
  {
    InsertNothing(s.l, key);
    hide Alone, Insert, Write, SignalCall, Has, Deliver;
    AloneGoesOn(s, i, Find(key, job, c), Place(s, i, Found(key, job, c)), room, 5);
    ChangeAlone(s, i, key, job, c, room, 4);
  }

  lemma DisarmAlone(s: Sys, i: nat, key: nat, c: Ctx, room: bool)
    requires i < |s.cs| && s.cs[i].Out? && !Has(s.l, key)
    ensures Alone(s, i, Find(key, Disarm, c), room, 5) == JobCall(s, key, Disarm, c, room)
  {
    WriteNothing(s.l, key, Disarm, s.clock);
    hide Alone, Insert, Write, Has;
    AloneGoesOn(s, i, Find(key, Disarm, c), s, room, 5);
  }

  lemma CreateAlone(s: Sys, i: nat, key: nat, job: Job, c: Ctx, room: bool)
    requires i < |s.cs| && s.cs[i].Out? && (s.task.Blocked? ==> TIMER_SEM !in s.w.up)
    requires !Has(s.l, key) && !job.Disarm?
    ensures Alone(s, i, Find(key, job, c), room, 5) == JobCall(s, key, job, c, room)
  {
    WriteNothing(s.l, key, job, s.clock);
    hide Alone, Insert, Write, SignalCall, Has, Deliver;
    var looking := Place(s, i, Looking(key, job, c));
    var t := s.(l := Insert(s.l, key));
    AloneGoesOn(s, i, Find(key, job, c), looking, room, 5);
    if room {
      AloneGoesOn(looking, i, Create(room), Place(t, i, Found(key, job, c)), room, 4);
      ChangeAlone(t, i, key, job, c, room, 3);
    } else {
      AloneGoesOn(looking, i, Create(room), Place(s, i, Out), room, 4);
    }
  }

  lemma InsertNothing(l: seq<Timer>, key: nat)
    requires Has(l, key)
    ensures Insert(l, key) == l
  {
  }

  lemma WriteNothing(l: seq<Timer>, key: nat, job: Job, clock: int)
    requires !Has(l, key)
    ensures Write(l, key, job, clock) == l
  {
  }

  lemma ChangeAlone(s: Sys, i: nat, key: nat, job: Job, c: Ctx, room: bool, steps: nat)
    requires i < |s.cs| && s.cs[i].Out? && (s.task.Blocked? ==> TIMER_SEM !in s.w.up) && steps >= 3
    ensures var t := s.(l := Write(s.l, key, job, s.clock));
            (Alone(Place(s, i, Found(key, job, c)), i, Create(room), room, steps)
             == if job.Arm? then Deliver(t.(w := SignalCall(s.w, TIMER_SEM, c))) else t)
  {
    hide Alone, Write;
    var t := s.(l := Write(s.l, key, job, s.clock));
    assert Place(t, i, Out) == t;
    var s1 := Place(s, i, Found(key, job, c));
    if job.Arm? {
      var t1 := Place(t, i, Signalling(TIMER_SEM, c));
      AloneGoesOn(s1, i, Create(room), t1, room, steps);
      var done := Deliver(t.(w := SignalCall(s.w, TIMER_SEM, c)));
      if CanSignal(c) {
        AloneGoesOn(t1, i, Create(room), done, room, steps - 1);
      } else {
        var t2 := Place(t, i, Parking(TIMER_SEM, c));
        AloneGoesOn(t1, i, Create(room), t2, room, steps - 1);
        AloneGoesOn(t2, i, Create(room), done, room, steps - 2);
      }
    } else {
      AloneGoesOn(s1, i, Create(room), t, room, steps);
    }
  }

  // ---------------------------------------------------------------- five semaphores are too many

  lemma More(ids: set<nat>, es: seq<Event>, e: Event) returns (r: seq<Event>)
    ensures Run(Start(1, 1, ids), r) == Next(Run(Start(1, 1, ids), es), e)
  {
    r := es + [e];
    assert r[..|es|] == es;
  }

  const LOCKED := Ctx(Dispatchable, false)

  /** The timer task sleeps; one context, inside a critical section, has signalled other semaphores. */
  function Asleep(ids: set<nat>, pend: seq<nat>, l: seq<Timer>, cl: Client): Sys {
    Sys(l, Wakes(pend, {}), 1, Blocked(1, 1, 0, Forever), [cl], ids, false)
  }

  lemma FallsAsleep(ids: set<nat>) returns (es: seq<Event>)
    ensures Run(Start(1, 1, ids), es) == Asleep(ids, [], [], Out)
  {
    assert Run(Start(1, 1, ids), []) == Sys([], Wakes([], {}), 1, Top, [Out], ids, false);
    hide Run;
    es := More(ids, [], TaskStep);
    es := More(ids, es, TaskStep);
    es := More(ids, es, TaskStep);
  }

  lemma OtherKept(ids: set<nat>, es: seq<Event>, pend: seq<nat>, id: nat) returns (r: seq<Event>)
    requires id in ids && id != TIMER_SEM && id !in pend && |pend| < WAKEUP_MAX
    requires Run(Start(1, 1, ids), es) == Asleep(ids, pend, [], Out)
    ensures Run(Start(1, 1, ids), r) == Asleep(ids, pend + [id], [], Out)
  {
    hide Run;
    var s := Start(1, 1, ids);
    r := More(ids, es, Client(0, Other(id, LOCKED)));
    assert Run(s, r) == Asleep(ids, pend, [], Signalling(id, LOCKED));
    r := More(ids, r, Client(0, Act.Signal));
    assert Run(s, r) == Asleep(ids, pend, [], Parking(id, LOCKED));
    r := More(ids, r, Client(0, Keep));
  }

  /** Any other semaphores fill the array. */
  lemma {:induction false} OthersKept(ids: set<nat>, k: nat) returns (es: seq<Event>, pend: seq<nat>)
    requires |ids - {TIMER_SEM}| >= k && k <= WAKEUP_MAX
    ensures |pend| == k && TIMER_SEM !in pend && Run(Start(1, 1, ids), es) == Asleep(ids, pend, [], Out)
  {
    hide Run;
    if k == 0 {
      es := FallsAsleep(ids);
      pend := [];
    } else {
      es, pend := OthersKept(ids, k - 1);
      var id := OneMore(ids - {TIMER_SEM}, pend);
      es := OtherKept(ids, es, pend, id);
      pend := pend + [id];
    }
  }

  lemma {:induction false} OneMore(ids: set<nat>, s: seq<nat>) returns (id: nat)
    requires |s| < |ids|
    ensures id in ids && id !in s
  {
    if s == [] {
      id :| id in ids;
    } else {
      var n := |s| - 1;
      var rest := ids - {s[n]};
      assert s[n] in ids ==> ids == rest + {s[n]};
      assert s[n] !in ids ==> ids == rest;
      id := OneMore(rest, s[..n]);
    }
  }

  const READY := Timer(9, Fn(7), 0, 0, 0)
  const ARMED := Timer(9, Fn(7), 0, 6, 0)

  lemma GivesFunction(ids: set<nat>, es: seq<Event>, pend: seq<nat>) returns (r: seq<Event>)
    requires Run(Start(1, 1, ids), es) == Asleep(ids, pend, [], Out)
    ensures Run(Start(1, 1, ids), r) == Asleep(ids, pend, [READY], Out)
  {
    hide Run;
    var s, job := Start(1, 1, ids), SetFn(Fn(7), 0);
    assert Insert([], 9) == [Blank(9)] && Write([Blank(9)], 9, job, 1) == [READY];
    r := More(ids, es, Client(0, Find(9, job, LOCKED)));
    assert Run(s, r) == Asleep(ids, pend, [], Looking(9, job, LOCKED));
    r := More(ids, r, Client(0, Create(true)));
    assert Run(s, r) == Asleep(ids, pend, [Blank(9)], Found(9, job, LOCKED));
    r := More(ids, r, Client(0, Change));
  }

  lemma ArmsInVain(ids: set<nat>, es: seq<Event>, pend: seq<nat>) returns (r: seq<Event>)
    requires |pend| == WAKEUP_MAX && Run(Start(1, 1, ids), es) == Asleep(ids, pend, [READY], Out)
    ensures Run(Start(1, 1, ids), r) == Asleep(ids, pend, [ARMED], Out)
  {
    hide Run;
    var s, job := Start(1, 1, ids), Arm(5, false);
    assert Has([READY], 9) && Write([READY], 9, job, 1) == [ARMED];
    r := More(ids, es, Client(0, Find(9, job, LOCKED)));
    assert Run(s, r) == Asleep(ids, pend, [READY], Found(9, job, LOCKED));
    r := More(ids, r, Client(0, Change));
    assert Run(s, r) == Asleep(ids, pend, [ARMED], Signalling(0, LOCKED));
    r := More(ids, r, Client(0, Act.Signal));
    assert Run(s, r) == Asleep(ids, pend, [ARMED], Parking(0, LOCKED));
    r := More(ids, r, Client(0, Keep));
  }

  /** With a fifth semaphore in use the bound matters: a run of one context after which the timer task
      sleeps for good, nobody is about to wake it, and a timer is armed. */
  lemma FifthSemaphoreLosesWakeUp(ids: set<nat>) returns (es: seq<Event>)
    requires TIMER_SEM in ids && |ids| > WAKEUP_MAX
    ensures var s := Run(Start(1, 1, ids), es);
            && s.task == Blocked(1, 1, 0, Forever) && !InFlight(s) && !s.dead
            && s.l == [Timer(9, Fn(7), 0, 6, 0)]
  {
    hide Run;
    assert ids == (ids - {TIMER_SEM}) + {TIMER_SEM};
    var pend;
    es, pend := OthersKept(ids, WAKEUP_MAX);
    es := GivesFunction(ids, es, pend);
    es := ArmsInVain(ids, es, pend);
  }

  /** Whatever semaphores are in use, no run loses a wake-up of the timer task if and only if they are no
      more than the array has places. */
  lemma WakeUpsAreSafeExactly(ids: set<nat>)
    requires TIMER_SEM in ids
    ensures (forall clock, n: nat, es :: !Loses(Run(Start(clock, n, ids), es))) <==> |ids| <= 4
  {
    hide Run;
    if |ids| <= WAKEUP_MAX {
      forall clock, n: nat, es
        ensures !Loses(Run(Start(clock, n, ids), es))
      {
        NoWakeUpIsLost(clock, n, ids, es);
      }
    } else {
      var es := FifthSemaphoreLosesWakeUp(ids);
      var s := Run(Start(1, 1, ids), es);
      assert Armed(s.l[0]);
      assert Loses(s);
    }
  }
}
