/** The recursive mutex, an owner and a counter around a kernel mutex, in every interleaving.  A step is
    one access to the shared fields or one kernel call. */
module RecMutex {

  /** Where a task is.  The task with index `i` has the identifier `i + 1`. */
  datatype Place =
    | Out         // outside the calls
    | Asking      // lock: about to compare the owner
    | Raising     // lock: about to add one to the count
    | Locking     // lock: in loc_mtx
    | Owning      // lock: about to set the owner
    | Counting    // lock: about to set the count to 1
    | Testing     // unlock: about to look at the count
    | Lowering    // unlock: about to take one from the count
    | Disowning   // unlock: about to clear the owner
    | Zeroing     // unlock: about to clear the count
    | Freeing     // unlock: about to issue unl_mtx

  /** `depth` is how many more locks of this task have succeeded than unlocks have ended. */
  datatype Task = Task(at: Place, depth: nat)

  /** The fields of SHIM_MTX, the task that holds the kernel mutex (0 for none), and the tasks. */
  datatype Sys = Sys(recursive: bool, owner: nat, count: int, holder: nat, ts: seq<Task>)

  datatype Act = Lock | Unlock | Go | Refuse

  datatype Event = Event(who: nat, act: Act)

  function Put(s: Sys, i: nat, at: Place): Sys
    requires i < |s.ts|
  {
    s.(ts := s.ts[i := s.ts[i].(at := at)])
  }

  /** The call of task `i` ends, and its depth is now `depth`. */
  function End(s: Sys, i: nat, depth: nat): Sys
    requires i < |s.ts|
  {
    s.(ts := s.ts[i := Task(Out, depth)])
  }

  function Less(n: nat): nat {
    if n > 0 then n - 1 else 0
  }

  /** One step of task `i`. */
  function Step(s: Sys, i: nat, a: Act): Sys
    requires i < |s.ts|
  {
    var id, d := i + 1, s.ts[i].depth;
    match s.ts[i].at
    case Out => if a.Lock? then Put(s, i, Asking) else if a.Unlock? then Put(s, i, Testing) else s
    case Asking => Put(s, i, if s.recursive && s.owner == id then Raising else Locking)
    case Raising => End(s, i, d + 1).(count := s.count + 1)
    case Locking =>
      if a.Refuse? || s.holder == id then End(s, i, d)
      else if s.holder == 0 then Put(s, i, Owning).(holder := id)
      else s
    case Owning => Put(s, i, Counting).(owner := id)
    case Counting => End(s, i, d + 1).(count := 1)
    case Testing => Put(s, i, if s.recursive && s.count > 1 then Lowering else Disowning)
    case Lowering => End(s, i, Less(d)).(count := s.count - 1)
    case Disowning => Put(s, i, Zeroing).(owner := 0)
    case Zeroing => Put(s, i, Freeing).(count := 0)
    case Freeing => End(s, i, Less(d)).(holder := if s.holder == id then 0 else s.holder)
  }

  function Next(s: Sys, e: Event): Sys {
    if e.who < |s.ts| then Step(s, e.who, e.act) else s
  }

  function Run(s: Sys, es: seq<Event>): Sys {
    if es == [] then s else Next(Run(s, es[..|es| - 1]), es[|es| - 1])
  }

  /** esp_shim_mutex_create, and `n` tasks. */
  function Start(recursive: bool, n: nat): Sys {
    Sys(recursive, 0, 0, 0, seq(n, _ => Task(Out, 0)))
  }

  /** Only a task that has locked the mutex unlocks it. */
  predicate Polite(s: Sys, e: Event) {
    e.who < |s.ts| && s.ts[e.who].at.Out? && e.act.Unlock? ==> s.ts[e.who].depth >= 1
  }

  predicate PoliteRun(s: Sys, es: seq<Event>) {
    es == [] || (PoliteRun(s, es[..|es| - 1]) && Polite(Run(s, es[..|es| - 1]), es[|es| - 1]))
  }

  // ---------------------------------------------------------------- the invariant

  /** What the fields say while the task with identifier `id`, at `t`, holds the kernel mutex. */
  predicate HolderOk(recursive: bool, owner: nat, count: int, id: nat, t: Task) {
    match t.at
    case Owning => owner == 0 && t.depth == 0
    case Counting => owner == id && t.depth == 0
    case Disowning => owner == id && t.depth == 1
    case Zeroing => owner == 0 && t.depth == 1
    case Freeing => owner == 0 && t.depth == 1
    case _ =>
      && owner == id && count == t.depth >= 1
      && (!recursive ==> t.depth == 1)
      && (t.at.Raising? ==> recursive)
      && (t.at.Lowering? ==> t.depth >= 2)
  }

  predicate TaskOk(s: Sys, i: nat)
    requires i < |s.ts|
  {
    var t := s.ts[i];
    if s.holder == i + 1 then HolderOk(s.recursive, s.owner, s.count, i + 1, t)
    else t.depth == 0 && (t.at.Out? || t.at.Asking? || t.at.Locking?)
  }

  ghost predicate Inv(s: Sys) {
    && s.holder <= |s.ts|
    && (s.owner == 0 || s.owner == s.holder)
    && forall i: nat :: i < |s.ts| ==> TaskOk(s, i)
  }

  lemma StepShape(s: Sys, i: nat, a: Act)
    requires i < |s.ts|
    ensures |Step(s, i, a).ts| == |s.ts| && Step(s, i, a).recursive == s.recursive
  {
  }

  lemma StepKeeps(s: Sys, i: nat, a: Act)
    requires Inv(s) && i < |s.ts| && Polite(s, Event(i, a))
    ensures Inv(Step(s, i, a))
  {
    hide HolderOk;
    var r := Step(s, i, a);
    assert TaskOk(s, i);
    MineIsOk(s, i, a);
    forall j: nat | j < |r.ts|
      ensures TaskOk(r, j)
    {
      if j != i {
        assert TaskOk(s, j) && r.ts[j] == s.ts[j];
        OthersAreOk(s, i, a, j);
      }
    }
  }

  lemma MineIsOk(s: Sys, i: nat, a: Act)
    requires i < |s.ts| && TaskOk(s, i) && Polite(s, Event(i, a)) && (s.owner == 0 || s.owner == s.holder)
    ensures var r := Step(s, i, a);
            && TaskOk(r, i) && |r.ts| == |s.ts| && (r.owner == 0 || r.owner == r.holder)
            && (r.holder == s.holder || r.holder == 0 || r.holder == i + 1)
  {
  }

  /** A step of one task leaves the fields alone unless that task holds the kernel mutex or takes it. */
  lemma OthersAreOk(s: Sys, i: nat, a: Act, j: nat)
    requires i < |s.ts| && j < |s.ts| && i != j && TaskOk(s, i) && TaskOk(s, j)
    requires Polite(s, Event(i, a)) && (s.owner == 0 || s.owner == s.holder)
    ensures TaskOk(Step(s, i, a), j)
  {
  }

  lemma {:induction false} RunKeeps(s: Sys, es: seq<Event>)
    requires Inv(s) && PoliteRun(s, es)
    ensures Inv(Run(s, es)) && |Run(s, es).ts| == |s.ts| && Run(s, es).recursive == s.recursive
  {
    if es != [] {
      var r := Run(s, es[..|es| - 1]);
      hide Inv;
      RunKeeps(s, es[..|es| - 1]);
      var e := es[|es| - 1];
      if e.who < |r.ts| {
        hide TaskOk, Step;
        StepKeeps(r, e.who, e.act);
        StepShape(r, e.who, e.act);
      }
    }
  }

  /** A state that `n` tasks can reach, each unlocking only what it has locked. */
  ghost predicate Reached(recursive: bool, n: nat, s: Sys) {
    exists es: seq<Event> :: PoliteRun(Start(recursive, n), es) && s == Run(Start(recursive, n), es)
  }

  lemma ReachedIsGood(recursive: bool, n: nat, s: Sys)
    requires Reached(recursive, n, s)
    ensures Inv(s) && |s.ts| == n && s.recursive == recursive
  {
    var es: seq<Event> :| PoliteRun(Start(recursive, n), es) && s == Run(Start(recursive, n), es);
    hide Run, PoliteRun;
    RunKeeps(Start(recursive, n), es);
  }

  /** At most one task is between a successful lock and its unlock, and it is the one that holds the
      kernel mutex; an owner on record is the holder, too. */
  lemma MutualExclusion(recursive: bool, n: nat, s: Sys)
    requires Reached(recursive, n, s)
    ensures |s.ts| == n && (s.owner != 0 ==> s.owner == s.holder)
    ensures forall i: nat :: i < n && s.ts[i].depth >= 1 ==> s.holder == i + 1
    ensures forall i, j :: 0 <= i < j < n ==> s.ts[i].depth == 0 || s.ts[j].depth == 0
  {
    ReachedIsGood(recursive, n, s);
    forall i: nat | i < n && s.ts[i].depth >= 1
      ensures s.holder == i + 1
    {
      assert TaskOk(s, i);
    }
  }

  /** A task outside the calls holds the mutex exactly if it has locked it more often than unlocked: a
      lock taken `d` times is released by the `d`-th unlock and by no earlier one.  Only a recursive
      mutex is ever taken more than once. */
  lemma ReleasedByTheLastUnlock(recursive: bool, n: nat, s: Sys, i: nat)
    requires Reached(recursive, n, s) && i < n
    ensures |s.ts| == n
    ensures s.ts[i].at.Out? ==> (s.holder == i + 1 <==> s.ts[i].depth >= 1)
    ensures s.ts[i].at.Out? && s.ts[i].depth >= 1 ==> s.count == s.ts[i].depth
    ensures s.ts[i].depth >= 2 ==> recursive
  {
    ReachedIsGood(recursive, n, s);
    assert TaskOk(s, i);
  }

  // ---------------------------------------------------------------- a call that nobody disturbs

  /** The whole of a call by a task that nobody disturbs. */
  function Alone(s: Sys, i: nat, a: Act, steps: nat): Sys
    requires i < |s.ts|
    decreases steps
  {
    if steps == 0 then s
    else
      var r := Step(s, i, a);
      if r.ts[i].at.Out? then r else Alone(r, i, Go, steps - 1)
  }

  lemma AloneGoesOn(s: Sys, i: nat, a: Act, r: Sys, steps: nat)
    requires i < |s.ts| && steps > 0 && Step(s, i, a) == r
    ensures |r.ts| == |s.ts| && Alone(s, i, a, steps) == if r.ts[i].at.Out? then r else Alone(r, i, Go, steps - 1)
  {
    hide Step;
    StepShape(s, i, a);
  }

  /** The fields as the call leaves them. */
  datatype Fields = Fields(owner: nat, count: int, holder: nat)

  /** What a lock comes to: it succeeds, it fails, or it waits in loc_mtx. */
  datatype Locked = Got | Refused | Waits

  /** esp_shim_mutex_lock, called by `self`. */
  function LockCall(recursive: bool, f: Fields, self: nat): (Fields, Locked) {
    if recursive && f.owner == self then (f.(count := f.count + 1), Got)
    else if f.holder == self then (f, Refused)
    else if f.holder != 0 then (f, Waits)
    else (Fields(self, 1, self), Got)
  }

  /** esp_shim_mutex_unlock */
  function UnlockCall(recursive: bool, f: Fields, self: nat): (Fields, bool) {
    if recursive && f.count > 1 then (f.(count := f.count - 1), true)
    else (Fields(0, 0, if f.holder == self then 0 else f.holder), f.holder == self)
  }

  function With(s: Sys, f: Fields, i: nat, t: Task): Sys
    requires i < |s.ts|
  {
    Sys(s.recursive, f.owner, f.count, f.holder, s.ts[i := t])
  }

  function FieldsOf(s: Sys): Fields {
    Fields(s.owner, s.count, s.holder)
  }

  /** Undisturbed, the steps of a lock come to LockCall: it waits while another task holds the mutex, and
      otherwise succeeds unless the mutex is one's own and not recursive. */
  lemma LockAlone(s: Sys, i: nat)
    requires i < |s.ts| && s.ts[i].at.Out? && TaskOk(s, i)
    requires s.owner == 0 || s.owner == s.holder
    ensures var d := s.ts[i].depth;
            var (f, r) := LockCall(s.recursive, FieldsOf(s), i + 1);
            && Alone(s, i, Lock, 5)
            == With(s, f, i, Task(if r.Waits? then Locking else Out, if r.Got? then d + 1 else d))
            && (r.Waits? <==> s.holder != 0 && s.holder != i + 1)
            && (r.Got? <==> s.holder == 0 || (s.holder == i + 1 && s.recursive))
  {
    hide Alone;
    var d := s.ts[i].depth;
    var s1 := Put(s, i, Asking);
    AloneGoesOn(s, i, Lock, s1, 5);
    if d >= 1 && s.recursive {
      var s2 := Put(s, i, Raising);
      AloneGoesOn(s1, i, Go, s2, 4);
      AloneGoesOn(s2, i, Go, With(s, FieldsOf(s).(count := s.count + 1), i, Task(Out, d + 1)), 3);
    } else {
      var s2 := Put(s, i, Locking);
      AloneGoesOn(s1, i, Go, s2, 4);
      if d >= 1 {
        AloneGoesOn(s2, i, Go, s, 3);
      } else if s.holder == 0 {
        LockFresh(s, i);
      } else {
        WaitsOn(s2, i, 3);
      }
    }
  }

  lemma {:induction false} WaitsOn(s: Sys, i: nat, steps: nat)
    requires i < |s.ts| && s.ts[i].at.Locking? && s.holder != 0 && s.holder != i + 1
    ensures Alone(s, i, Go, steps) == s
  {
    if steps > 0 {
      WaitsOn(s, i, steps - 1);
    }
  }

  lemma LockFresh(s: Sys, i: nat)
    requires i < |s.ts| && s.ts[i] == Task(Out, 0) && s.holder == 0
    ensures Alone(Put(s, i, Locking), i, Go, 3) == With(s, Fields(i + 1, 1, i + 1), i, Task(Out, 1))
  {
    hide Alone;
    var s3 := With(s, FieldsOf(s).(holder := i + 1), i, Task(Owning, 0));
    AloneGoesOn(Put(s, i, Locking), i, Go, s3, 3);
    var s4 := With(s, Fields(i + 1, s.count, i + 1), i, Task(Counting, 0));
    AloneGoesOn(s3, i, Go, s4, 2);
    AloneGoesOn(s4, i, Go, With(s, Fields(i + 1, 1, i + 1), i, Task(Out, 1)), 1);
  }

  /** Undisturbed, the steps of an unlock by the holder come to UnlockCall: one less, and free if that was
      the last. */
  lemma UnlockAlone(s: Sys, i: nat)
    requires i < |s.ts| && s.ts[i].at.Out? && TaskOk(s, i) && s.ts[i].depth >= 1
    ensures var d := s.ts[i].depth - 1;
            var (f, ok) := UnlockCall(s.recursive, FieldsOf(s), i + 1);
            && Alone(s, i, Unlock, 5) == With(s, f, i, Task(Out, d))
            && ok && f.count == d && f.owner == f.holder == if d == 0 then 0 else i + 1
  {
    hide Alone;
    var d := s.ts[i].depth;
    var s1 := Put(s, i, Testing);
    AloneGoesOn(s, i, Unlock, s1, 5);
    if s.recursive && s.count > 1 {
      var s2 := Put(s, i, Lowering);
      AloneGoesOn(s1, i, Go, s2, 4);
      AloneGoesOn(s2, i, Go, With(s, FieldsOf(s).(count := s.count - 1), i, Task(Out, d - 1)), 3);
    } else {
      var s2 := Put(s, i, Disowning);
      AloneGoesOn(s1, i, Go, s2, 4);
      UnlockLast(s, i);
    }
  }

  lemma UnlockLast(s: Sys, i: nat)
    requires i < |s.ts| && s.ts[i].depth == 1 && s.holder == i + 1
    ensures Alone(Put(s, i, Disowning), i, Go, 3) == With(s, Fields(0, 0, 0), i, Task(Out, 0))
  {
    hide Alone;
    var s3 := With(s, FieldsOf(s).(owner := 0), i, Task(Zeroing, 1));
    AloneGoesOn(Put(s, i, Disowning), i, Go, s3, 3);
    var s4 := With(s, Fields(0, 0, s.holder), i, Task(Freeing, 1));
    AloneGoesOn(s3, i, Go, s4, 2);
    AloneGoesOn(s4, i, Go, With(s, Fields(0, 0, 0), i, Task(Out, 0)), 1);
  }

  /** And of an unlock by any task: while a recursive mutex is held more than once the count goes down by
      one, whoever asks; otherwise owner and count are cleared, and the mutex is free exactly if it was
      the caller's, which is what the answer says. */
  lemma UnlockByAnyone(s: Sys, i: nat)
    requires i < |s.ts| && s.ts[i].at.Out?
    ensures var (f, ok) := UnlockCall(s.recursive, FieldsOf(s), i + 1);
            var down := s.recursive && s.count > 1;
            && Alone(s, i, Unlock, 5) == With(s, f, i, Task(Out, Less(s.ts[i].depth)))
            && (ok <==> down || s.holder == i + 1)
            && (down ==> f == Fields(s.owner, s.count - 1, s.holder))
            && (!down ==> f == Fields(0, 0, if s.holder == i + 1 then 0 else s.holder))
  {
    hide Alone;
    var d := s.ts[i].depth;
    var s1 := Put(s, i, Testing);
    AloneGoesOn(s, i, Unlock, s1, 5);
    if s.recursive && s.count > 1 {
      var s2 := Put(s, i, Lowering);
      AloneGoesOn(s1, i, Go, s2, 4);
      AloneGoesOn(s2, i, Go, With(s, FieldsOf(s).(count := s.count - 1), i, Task(Out, Less(d))), 3);
    } else {
      var s2 := Put(s, i, Disowning);
      AloneGoesOn(s1, i, Go, s2, 4);
      ClearsAlone(s, i);
    }
  }

  lemma ClearsAlone(s: Sys, i: nat)
    requires i < |s.ts| && s.ts[i].at.Out?
    ensures var f := Fields(0, 0, if s.holder == i + 1 then 0 else s.holder);
            Alone(Put(s, i, Disowning), i, Go, 3) == With(s, f, i, Task(Out, Less(s.ts[i].depth)))
  {
    hide Alone;
    var d, h := s.ts[i].depth, if s.holder == i + 1 then 0 else s.holder;
    var s3 := With(s, FieldsOf(s).(owner := 0), i, Task(Zeroing, d));
    AloneGoesOn(Put(s, i, Disowning), i, Go, s3, 3);
    var s4 := With(s, Fields(0, 0, s.holder), i, Task(Freeing, d));
    AloneGoesOn(s3, i, Go, s4, 2);
    AloneGoesOn(s4, i, Go, With(s, Fields(0, 0, h), i, Task(Out, Less(d))), 1);
  }

  /** SHIM_MTX in place; `holder` is the task that holds the kernel mutex. */
  class Mutex {
    const recursive: bool
    var owner: nat
    var count: int
    var holder: nat

    ghost function Abs(): Fields
      reads this
    {
      Fields(owner, count, holder)
    }

    /** esp_shim_mutex_create */
    constructor (recursive: bool)
      ensures this.recursive == recursive && Abs() == Fields(0, 0, 0)
    {
      this.recursive := recursive;
      owner, count, holder := 0, 0, 0;
    }

    /** esp_shim_mutex_lock by task `self`. */
    method Lock(self: nat) returns (r: Locked)
      requires self != 0
      modifies this
      ensures (Abs(), r) == LockCall(recursive, old(Abs()), self)
    {
      if recursive && owner == self {
        count := count + 1;
        return Got;
      }
      if holder == self {
        return Refused;
      }
      if holder != 0 {
        return Waits;
      }
      holder := self;
      owner := self;
      count := 1;
      return Got;
    }

    /** esp_shim_mutex_unlock by task `self`, whether or not it holds the mutex. */
    method Unlock(self: nat) returns (ok: bool)
      requires self != 0
      modifies this
      ensures (Abs(), ok) == UnlockCall(recursive, old(Abs()), self)
    {
      if recursive && count > 1 {
        count := count - 1;
        return true;
      }
      owner := 0;
      count := 0;
      ok := holder == self;
      if ok {
        holder := 0;
      }
    }
  }

  // ---------------------------------------------------------------- when another task unlocks

  /** At most one task is between a successful lock and its unlock. */
  predicate Exclusive(s: Sys) {
    forall i, j :: 0 <= i < j < |s.ts| ==> s.ts[i].depth == 0 || s.ts[j].depth == 0
  }

  /** What every run keeps of a mutex that is not recursive, whoever unlocks it: being inside and holding
      the kernel mutex are the same, because unl_mtx refuses everybody else. */
  predicate PlainOk(s: Sys, i: nat)
    requires i < |s.ts|
  {
    var t := s.ts[i];
    && (s.holder == i + 1 <==> t.depth == 1 || t.at.Owning? || t.at.Counting?)
    && t.depth <= 1 && !t.at.Raising? && !t.at.Lowering?
    && (t.at.Owning? || t.at.Counting? ==> t.depth == 0)
  }

  lemma PlainStep(s: Sys, i: nat, a: Act)
    requires !s.recursive && i < |s.ts| && forall k: nat :: k < |s.ts| ==> PlainOk(s, k)
    ensures var r := Step(s, i, a);
            !r.recursive && |r.ts| == |s.ts| && forall k: nat :: k < |r.ts| ==> PlainOk(r, k)
  {
    var r := Step(s, i, a);
    StepShape(s, i, a);
    forall k: nat | k < |r.ts|
      ensures PlainOk(r, k)
    {
      assert PlainOk(s, k) && PlainOk(s, i);
    }
  }

  lemma {:induction false} PlainRun(n: nat, es: seq<Event>)
    ensures var s := Run(Start(false, n), es);
            !s.recursive && |s.ts| == n && forall k: nat :: k < n ==> PlainOk(s, k)
  {
    if es != [] {
      var before, e := es[..|es| - 1], es[|es| - 1];
      PlainRun(n, before);
      hide PlainOk, Step;
      var s := Run(Start(false, n), before);
      if e.who < |s.ts| { PlainStep(s, e.who, e.act); }
    }
  }

  /** A mutex that is not recursive excludes on every run, even if tasks unlock what they have not
      locked. */
  lemma PlainMutexAlwaysExcludes(n: nat, es: seq<Event>)
    ensures Exclusive(Run(Start(false, n), es))
  {
    PlainRun(n, es);
    var s := Run(Start(false, n), es);
    forall i, j | 0 <= i < j < |s.ts|
      ensures s.ts[i].depth == 0 || s.ts[j].depth == 0
    {
      assert PlainOk(s, i) && PlainOk(s, j);
    }
  }

  /** Two tasks and a recursive mutex.  The first locks it twice. */
  const TWO := Start(true, 2)

  const TWICE_LOCKED := Sys(true, 1, 2, 1, [Task(Out, 2), Task(Out, 0)])

  lemma More(es: seq<Event>, e: Event) returns (r: seq<Event>)
    ensures Run(TWO, r) == Next(Run(TWO, es), e)
    ensures PoliteRun(TWO, es) && Polite(Run(TWO, es), e) ==> PoliteRun(TWO, r)
  {
    r := es + [e];
    assert r[..|es|] == es;
  }

  lemma LocksOnce() returns (es: seq<Event>)
    ensures PoliteRun(TWO, es) && Run(TWO, es) == Sys(true, 1, 1, 1, [Task(Out, 1), Task(Out, 0)])
  {
    assert Run(TWO, []) == Sys(true, 0, 0, 0, [Task(Out, 0), Task(Out, 0)]) && PoliteRun(TWO, []);
    hide Run, PoliteRun;
    es := More([], Event(0, Lock));
    assert Run(TWO, es) == Sys(true, 0, 0, 0, [Task(Asking, 0), Task(Out, 0)]);
    es := More(es, Event(0, Go));
    assert Run(TWO, es) == Sys(true, 0, 0, 0, [Task(Locking, 0), Task(Out, 0)]);
    es := More(es, Event(0, Go));
    assert Run(TWO, es) == Sys(true, 0, 0, 1, [Task(Owning, 0), Task(Out, 0)]);
    es := More(es, Event(0, Go));
    assert Run(TWO, es) == Sys(true, 1, 0, 1, [Task(Counting, 0), Task(Out, 0)]);
    es := More(es, Event(0, Go));
  }

  lemma LocksTwice(es: seq<Event>) returns (r: seq<Event>)
    requires PoliteRun(TWO, es) && Run(TWO, es) == Sys(true, 1, 1, 1, [Task(Out, 1), Task(Out, 0)])
    ensures PoliteRun(TWO, r) && Run(TWO, r) == TWICE_LOCKED
  {
    hide Run, PoliteRun;
    r := More(es, Event(0, Lock));
    r := More(r, Event(0, Go));
    r := More(r, Event(0, Go));
  }

  /** So far every unlock was by a task that had locked. */
  lemma TwiceLockedIsReached()
    ensures Reached(true, 2, TWICE_LOCKED)
  {
    hide Run, PoliteRun;
    var es := LocksOnce();
    es := LocksTwice(es);
  }

  lemma Foreign(es: seq<Event>) returns (r: seq<Event>)
    requires Run(TWO, es) == TWICE_LOCKED
    ensures Run(TWO, r) == Sys(true, 1, 1, 1, [Task(Out, 2), Task(Out, 0)])
  {
    hide Run, PoliteRun;
    r := More(es, Event(1, Unlock));
    r := More(r, Event(1, Go));
    r := More(r, Event(1, Go));
  }

  lemma HolderUnlocks(es: seq<Event>) returns (r: seq<Event>)
    requires Run(TWO, es) == Sys(true, 1, 1, 1, [Task(Out, 2), Task(Out, 0)])
    ensures Run(TWO, r) == Sys(true, 0, 0, 0, [Task(Out, 1), Task(Out, 0)])
  {
    hide Run, PoliteRun;
    r := More(es, Event(0, Unlock));
    r := More(r, Event(0, Go));
    r := More(r, Event(0, Go));
    assert Run(TWO, r) == Sys(true, 0, 1, 1, [Task(Zeroing, 2), Task(Out, 0)]);
    r := More(r, Event(0, Go));
    r := More(r, Event(0, Go));
  }

  lemma SecondLocks(es: seq<Event>) returns (r: seq<Event>)
    requires Run(TWO, es) == Sys(true, 0, 0, 0, [Task(Out, 1), Task(Out, 0)])
    ensures Run(TWO, r) == Sys(true, 2, 1, 2, [Task(Out, 1), Task(Out, 1)])
  {
    hide Run, PoliteRun;
    r := More(es, Event(1, Lock));
    r := More(r, Event(1, Go));
    r := More(r, Event(1, Go));
    assert Run(TWO, r) == Sys(true, 0, 0, 2, [Task(Out, 1), Task(Owning, 0)]);
    r := More(r, Event(1, Go));
    r := More(r, Event(1, Go));
  }

  lemma TwoTasksBreakIt() returns (es: seq<Event>)
    ensures Run(TWO, es) == Sys(true, 2, 1, 2, [Task(Out, 1), Task(Out, 1)])
  {
    hide Run, PoliteRun;
    es := LocksOnce();
    es := LocksTwice(es);
    es := Foreign(es);
    es := HolderUnlocks(es);
    es := SecondLocks(es);
  }

  /** The same with `more` tasks that stay outside. */
  function Joined(s: Sys, more: nat): Sys {
    s.(ts := s.ts + seq(more, _ => Task(Out, 0)))
  }

  lemma JoinedStep(s: Sys, i: nat, a: Act, more: nat)
    requires i < |s.ts|
    ensures Step(Joined(s, more), i, a) == Joined(Step(s, i, a), more)
  {
    var j := Joined(s, more);
    StepShape(s, i, a);
    StepShape(j, i, a);
    StepTouches(s, i, a);
    StepTouches(j, i, a);
    StepReads(s, j, i, a);
    StepReadsFields(s, j, i, a);
    hide Step;
    var t := Step(s, i, a).ts[i];
    assert j.ts[i := t] == s.ts[i := t] + seq(more, _ => Task(Out, 0));
  }

  lemma StepTouches(s: Sys, i: nat, a: Act)
    requires i < |s.ts| == |Step(s, i, a).ts|
    ensures Step(s, i, a).ts == s.ts[i := Step(s, i, a).ts[i]]
  {
  }

  lemma StepReadsFields(s: Sys, u: Sys, i: nat, a: Act)
    requires i < |s.ts| && i < |u.ts| && s.ts[i] == u.ts[i] && SameFields(s, u)
    ensures SameFields(Step(s, i, a), Step(u, i, a))
  {
  }

  predicate SameFields(s: Sys, u: Sys) {
    s.recursive == u.recursive && s.owner == u.owner && s.count == u.count && s.holder == u.holder
  }

  lemma StepReads(s: Sys, u: Sys, i: nat, a: Act)
    requires i < |s.ts| == |Step(s, i, a).ts| && i < |u.ts| == |Step(u, i, a).ts|
    requires s.ts[i] == u.ts[i] && SameFields(s, u)
    ensures Step(s, i, a).ts[i] == Step(u, i, a).ts[i]
  {
  }

  /** Whatever two tasks can do, they can do with more tasks standing by. */
  lemma {:induction false} OthersStandBy(es: seq<Event>, more: nat) returns (r: seq<Event>)
    ensures Run(Start(true, 2 + more), r) == Joined(Run(TWO, es), more)
  {
    if es == [] {
      r := [];
      assert Start(true, 2 + more) == Joined(TWO, more);
    } else {
      var before, e := es[..|es| - 1], es[|es| - 1];
      hide Step, Joined;
      r := OthersStandBy(before, more);
      var s := Run(TWO, before);
      if e.who < |s.ts| {
        JoinedStep(s, e.who, e.act, more);
        JoinedTasks(s, more);
        r := r + [e];
        assert r[..|r| - 1] + [e] == r;
      }
    }
  }

  lemma JoinedTasks(s: Sys, more: nat)
    ensures |Joined(s, more).ts| == |s.ts| + more
  {
  }

  /** If a task that does not hold a recursive mutex unlocks it, the first of the holder's two unlocks
      releases it, and the second task gets in: both are inside. */
  lemma ForeignUnlockBreaksIt(n: nat) returns (es: seq<Event>)
    requires n >= 2
    ensures !Exclusive(Run(Start(true, n), es))
  {
    hide Run;
    es := TwoTasksBreakIt();
    es := OthersStandBy(es, n - 2);
    var s := Run(Start(true, n), es);
    assert s.ts[0].depth == 1 && s.ts[1].depth == 1;
  }

  lemma {:induction false} RunShape(s: Sys, es: seq<Event>)
    ensures |Run(s, es).ts| == |s.ts|
  {
    if es != [] {
      hide Step;
      RunShape(s, es[..|es| - 1]);
      var t, e := Run(s, es[..|es| - 1]), es[|es| - 1];
      if e.who < |t.ts| { StepShape(t, e.who, e.act); }
    }
  }

  /** So whether any number of tasks are kept apart on every run, whoever unlocks, depends on the kind of
      mutex alone.  (MutualExclusion says on which runs a recursive one does.) */
  lemma ExclusiveExactly(recursive: bool, n: nat)
    ensures (forall es: seq<Event> :: Exclusive(Run(Start(recursive, n), es))) <==> !recursive || n < 2
  {
    hide Run;
    if recursive && n >= 2 {
      var es := ForeignUnlockBreaksIt(n);
    } else {
      forall es: seq<Event>
        ensures Exclusive(Run(Start(recursive, n), es))
      {
        if recursive { RunShape(Start(recursive, n), es); } else { PlainMutexAlwaysExcludes(n, es); }
      }
    }
  }
}
