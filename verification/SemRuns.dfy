/** The semaphore pool under preemption.  Any number of contexts give, take, create, delete and flush; a
    step is what runs under one SHIM_LOCK, or one kernel call, or one unlocked look at a counter. */
module SemRuns {
  import opened Kernel
  import opened ShimSems

  /** Where a context stands.  `Out` is outside every call. */
  datatype Client =
    | Out
    | Giving(i: nat, c: Ctx)                 // about to issue sig_sem
    | Refused(i: nat)                        // sig_sem gave E_CTX; about to park the give
    | Draining(i: nat, init: nat, c: Ctx)    // has claimed the entry; about to issue pol_sem
    | Raising(i: nat, left: nat, c: Ctx)     // about to issue sig_sem, `left` times
    | Looking(i: nat, c: Ctx)                // flushing; about to look at entry `i`
    | Popping(i: nat, c: Ctx)                // has seen a parked give there
    | InHand(i: nat, c: Ctx, owner: nat)     // has taken out a give made to `owner`; about to issue sig_sem

  /** How often an entry has been claimed and given up; the gives to earlier owners that were in the hands
      of flushes at the last claim, and how many of these have been signalled since; and since that claim
      the takes answered Took and the polls of the draining that found something. */
  datatype Tenure = Tenure(owner: nat, released: nat, awaited: nat, arrived: nat, served: nat, drained: nat)

  datatype Sys = Sys(ss: seq<Sem>, own: seq<Tenure>, total: int, cs: seq<Client>)

  datatype Act =
    | Give(i: nat, c: Ctx) | Take(i: nat, c: Ctx, forever: bool)
    | Create(init: nat, c: Ctx) | Delete(i: nat) | Flush(c: Ctx) | Go

  datatype Event = Event(who: nat, act: Act)

  /** How many gives to earlier owners of entry `i` than `owner` are in the hands of flushes. */
  function Stale(cs: seq<Client>, i: nat, owner: nat): nat {
    if cs == [] then 0 else Stale(cs[..|cs| - 1], i, owner) + IsStale(cs[|cs| - 1], i, owner)
  }

  function IsStale(cl: Client, i: nat, owner: nat): nat {
    if cl.InHand? && cl.i == i && cl.owner != owner then 1 else 0
  }

  /** How many gives to entry `i` are in the hands of contexts: refused and not yet parked, or popped and
      not yet signalled. */
  function Carried(cs: seq<Client>, i: nat): nat {
    if cs == [] then 0 else Carried(cs[..|cs| - 1], i) + Carries(cs[|cs| - 1], i)
  }

  function Carries(cl: Client, i: nat): nat {
    if (cl.Refused? || cl.InHand?) && cl.i == i then 1 else 0
  }

  function Placed(s: Sys, k: nat, cl: Client): Sys
    requires k < |s.cs|
  {
    s.(cs := s.cs[k := cl])
  }

  function Booked(s: Sem): Sem {
    s.(book := s.book.(given := s.book.given + 1))
  }

  /** The locked section of esp_shim_sem_create; what the kernel semaphore still holds is the new owner's. */
  function Claimed(s: Sem): Sem {
    Disown(s).(used := true, born := s.cnt, raised := 0, taken := 0)
  }

  const NO_TENURE := Tenure(0, 0, 0, 0, 0, 0)

  function Start(n: nat, m: nat): Sys {
    Sys(seq(n, _ => Sem(false, 0, 0, 0, 0, 0, Book(0, 0, 0, 0, 0))), seq(n, _ => NO_TENURE), 0, seq(m, _ => Out))
  }

  function Answered(t: Tenure, r: Taken): Tenure {
    t.(served := t.served + if r == Took then 1 else 0)
  }

  function Successor(t: Tenure, awaited: nat): Tenure {
    Tenure(t.owner + 1, t.released, awaited, 0, 0, 0)
  }

  function GivenUp(t: Tenure, used: bool): Tenure {
    t.(released := t.released + if used then 1 else 0)
  }

  /** The first step of a call. */
  function Begin(s: Sys, k: nat, a: Act): Sys
    requires k < |s.cs| && |s.own| == |s.ss|
  {
    match a
    case Give(i, c) => if i < |s.ss| then Placed(s, k, Giving(i, c)) else s
    case Take(i, c, forever) =>
      if i < |s.ss| then
        var (e, r) := TakeCall(s.ss[i], c, forever);
        s.(ss := s.ss[i := e], own := s.own[i := Answered(s.own[i], r)])
      else s
    case Create(init, c) =>
      var i := FirstFree(s.ss, 0);
      if i < |s.ss| then
        Placed(s, k, Draining(i, init, c)).(
          ss := s.ss[i := Claimed(s.ss[i])],
          own := s.own[i := Successor(s.own[i], Stale(s.cs, i, s.own[i].owner + 1))],
          total := s.total - s.ss[i].pend)
      else s
    case Delete(i) =>
      if i < |s.ss| then
        s.(ss := s.ss[i := DeleteCall(s.ss[i])], own := s.own[i := GivenUp(s.own[i], s.ss[i].used)],
           total := s.total - s.ss[i].pend)
      else s
    case Flush(c) => if s.total == 0 then s else Placed(s, k, Looking(0, c))
    case Go => s
  }

  function Step(s: Sys, k: nat, a: Act, max: nat): Sys
    requires k < |s.cs| && |s.own| == |s.ss|
  {
    var cl := s.cs[k];
    if cl.Out? then Begin(s, k, a)
    else if cl.i >= |s.ss| then Placed(s, k, Out)
    else
      var i, e := cl.i, s.ss[cl.i];
      match cl
      case Giving(_, c) =>
        if CanSignal(c) then Placed(s, k, Out).(ss := s.ss[i := Signal(Booked(e), c, max)])
        else Placed(s, k, Refused(i)).(ss := s.ss[i := Booked(e)])
      case Refused(_) => Placed(s, k, Out).(ss := s.ss[i := e.(pend := e.pend + 1)], total := s.total + 1)
      case Draining(_, init, c) =>
        if CanPoll(c) && e.cnt > 0 then
          s.(ss := s.ss[i := e.(cnt := e.cnt - 1, taken := e.taken + 1)],
             own := s.own[i := s.own[i].(drained := s.own[i].drained + 1)])
        else Placed(s, k, Raising(i, init, c))
      case Raising(_, left, c) =>
        if left == 0 then Placed(s, k, Out)
        else if CanSignal(c) && e.cnt < max then
          Placed(s, k, Raising(i, left - 1, c)).(ss := s.ss[i := e.(cnt := e.cnt + 1, raised := e.raised + 1)])
        else Placed(s, k, Raising(i, left - 1, c))
      case Looking(_, c) => Placed(s, k, if e.pend > 0 then Popping(i, c) else Looking(i + 1, c))
      case Popping(_, c) =>
        if e.pend == 0 then Placed(s, k, Looking(i + 1, c))
        else
          Placed(s, k, InHand(i, c, s.own[i].owner)).(ss := s.ss[i := e.(pend := e.pend - 1)], total := s.total - 1)
      case InHand(_, c, owner) =>
        Placed(s, k, Looking(i, c)).(
          ss := s.ss[i := Signal(e, c, max)],
          own := s.own[i := s.own[i].(arrived := s.own[i].arrived + if owner != s.own[i].owner then 1 else 0)])
  }

  function Next(s: Sys, e: Event, max: nat): Sys {
    if e.who < |s.cs| && |s.own| == |s.ss| then Step(s, e.who, e.act, max) else s
  }

  function Run(s: Sys, es: seq<Event>, max: nat): Sys {
    if es == [] then s else Next(Run(s, es[..|es| - 1], max), es[|es| - 1], max)
  }

  // ---------------------------------------------------------------- the invariant

  /** The account of an entry, with `carried` gives in the hands of contexts. */
  ghost predicate Balanced(s: Sem, carried: nat, max: nat) {
    && s.book.given == s.book.took + s.book.saturated + s.pend + s.book.discarded + s.book.lost + carried
    && s.cnt + s.taken == s.born + s.raised
    && s.cnt <= max
  }

  /** The entry has an owner or none, and never two: it has been claimed as often as given up, or once
      more if it is in use.  And the takes that were answered Took are those that took. */
  ghost predicate Held(s: Sem, t: Tenure) {
    t.owner == t.released + (if s.used then 1 else 0) && s.taken == t.served + t.drained
  }

  ghost predicate Inv(s: Sys, max: nat) {
    && |s.own| == |s.ss| && s.total == PendSum(s.ss)
    && (forall i :: 0 <= i < |s.ss| ==> Balanced(s.ss[i], Carried(s.cs, i), max))
    && (forall i :: 0 <= i < |s.ss| ==> s.own[i].arrived + Stale(s.cs, i, s.own[i].owner) == s.own[i].awaited)
    && (forall i :: 0 <= i < |s.ss| ==> Held(s.ss[i], s.own[i]))
  }

  lemma {:induction false} CarriedAfter(cs: seq<Client>, k: nat, cl: Client, i: nat)
    requires k < |cs|
    ensures Carried(cs[k := cl], i) + Carries(cs[k], i) == Carried(cs, i) + Carries(cl, i)
  {
    var n := |cs| - 1;
    if k == n {
      assert cs[k := cl][..n] == cs[..n];
    } else {
      assert cs[k := cl][..n] == cs[..n][k := cl];
      CarriedAfter(cs[..n], k, cl, i);
    }
  }

  lemma {:induction false} StaleAfter(cs: seq<Client>, k: nat, cl: Client, i: nat, owner: nat)
    requires k < |cs|
    ensures Stale(cs[k := cl], i, owner) + IsStale(cs[k], i, owner) == Stale(cs, i, owner) + IsStale(cl, i, owner)
  {
    var n := |cs| - 1;
    if k == n {
      assert cs[k := cl][..n] == cs[..n];
    } else {
      assert cs[k := cl][..n] == cs[..n][k := cl];
      StaleAfter(cs[..n], k, cl, i, owner);
    }
  }

  lemma {:induction false} NobodyInside(cs: seq<Client>, i: nat, owner: nat)
    requires forall k :: 0 <= k < |cs| ==> cs[k].Out?
    ensures Carried(cs, i) == 0 && Stale(cs, i, owner) == 0
  {
    if cs != [] {
      NobodyInside(cs[..|cs| - 1], i, owner);
    }
  }

  /** One context moves, and entry `i` and its tenure change. */
  lemma Moves(s: Sys, k: nat, cl: Client, i: nat, e: Sem, t: Tenure, max: nat) returns (r: Sys)
    requires Inv(s, max) && k < |s.cs| && i < |s.ss|
    requires forall j :: j != i ==> Carries(cl, j) == Carries(s.cs[k], j)
    requires forall j, owner :: j != i ==> IsStale(cl, j, owner) == IsStale(s.cs[k], j, owner)
    requires Carried(s.cs, i) + Carries(cl, i) >= Carries(s.cs[k], i)
    requires Balanced(e, Carried(s.cs, i) + Carries(cl, i) - Carries(s.cs[k], i), max)
    requires t.arrived + Stale(s.cs, i, t.owner) + IsStale(cl, i, t.owner) == t.awaited + IsStale(s.cs[k], i, t.owner)
    requires Held(e, t)
    ensures r == Sys(s.ss[i := e], s.own[i := t], s.total + e.pend - s.ss[i].pend, s.cs[k := cl]) && Inv(r, max)
  {
    hide Balanced, Carries, IsStale, Held;
    r := Sys(s.ss[i := e], s.own[i := t], s.total + e.pend - s.ss[i].pend, s.cs[k := cl]);
    PendSumAfter(s.ss, i, e);
    forall j | 0 <= j < |r.ss|
      ensures Balanced(r.ss[j], Carried(r.cs, j), max)
      ensures r.own[j].arrived + Stale(r.cs, j, r.own[j].owner) == r.own[j].awaited
    {
      CarriedAfter(s.cs, k, cl, j);
      StaleAfter(s.cs, k, cl, j, r.own[j].owner);
    }
  }

  lemma EntrySays(s: Sys, k: nat, i: nat, max: nat)
    requires Inv(s, max) && k < |s.cs| && i < |s.ss|
    ensures Balanced(s.ss[i], Carried(s.cs, i), max) && Carried(s.cs, i) >= Carries(s.cs[k], i)
    ensures s.own[i].arrived + Stale(s.cs, i, s.own[i].owner) == s.own[i].awaited
    ensures Held(s.ss[i], s.own[i])
  {
    CarriedAfter(s.cs, k, Out, i);
  }

  lemma BeginKeeps(s: Sys, k: nat, a: Act, max: nat)
    requires Inv(s, max) && k < |s.cs| && s.cs[k].Out?
    ensures Inv(Begin(s, k, a), max)
  {
    hide Inv, Stale, Carried, FirstFree;
    assert |s.own| == |s.ss| by { InvShape(s, max); }
    var i := match a case Give(i, _) => i case Take(i, _, _) => i case Delete(i) => i case _ => FirstFree(s.ss, 0);
    assert Placed(s, k, Out) == s;
    if i < |s.ss| {
      EntrySays(s, k, i, max);
      match a
      case Give(_, c) => var r := Moves(s, k, Giving(i, c), i, s.ss[i], s.own[i], max); Untouched(s, i);
      case Take(_, c, forever) =>
        var (e, r) := TakeCall(s.ss[i], c, forever);
        var t := Moves(s, k, Out, i, e, Answered(s.own[i], r), max);
      case Create(init, c) =>
        var t := Successor(s.own[i], Stale(s.cs, i, s.own[i].owner + 1));
        var r := Moves(s, k, Draining(i, init, c), i, Claimed(s.ss[i]), t, max);
      case Delete(_) =>
        var r := Moves(s, k, Out, i, DeleteCall(s.ss[i]), GivenUp(s.own[i], s.ss[i].used), max);
      case Flush(c) => var r := Moves(s, k, Looking(0, c), i, s.ss[i], s.own[i], max); Untouched(s, i);
      case Go =>
    } else if a.Flush? {
      QuietMove(s, k, Looking(0, a.c), max);
    }
  }

  lemma InvShape(s: Sys, max: nat)
    requires Inv(s, max)
    ensures |s.own| == |s.ss|
  {
  }

  lemma Untouched(s: Sys, i: nat)
    requires i < |s.ss| == |s.own|
    ensures s.ss[i := s.ss[i]] == s.ss && s.own[i := s.own[i]] == s.own
  {
  }

  /** A step by which a context takes up or puts down no give and no entry changes. */
  lemma QuietMove(s: Sys, k: nat, cl: Client, max: nat)
    requires Inv(s, max) && k < |s.cs|
    requires forall j: nat :: j < |s.ss| ==> Carries(cl, j) == Carries(s.cs[k], j)
    requires forall j: nat, owner :: j < |s.ss| ==> IsStale(cl, j, owner) == IsStale(s.cs[k], j, owner)
    ensures Inv(Placed(s, k, cl), max)
  {
    hide Balanced, Carries, IsStale, Held;
    var r := Placed(s, k, cl);
    forall j | 0 <= j < |r.ss|
      ensures Balanced(r.ss[j], Carried(r.cs, j), max)
      ensures r.own[j].arrived + Stale(r.cs, j, r.own[j].owner) == r.own[j].awaited
    {
      CarriedAfter(s.cs, k, cl, j);
      StaleAfter(s.cs, k, cl, j, r.own[j].owner);
    }
  }

  /** A step inside a call changes its own context, one entry and the tenure of this. */
  lemma StepTouches(s: Sys, k: nat, a: Act, max: nat)
    requires k < |s.cs| && |s.own| == |s.ss| && !s.cs[k].Out? && s.cs[k].i < |s.ss|
    ensures var i, r := s.cs[k].i, Step(s, k, a, max);
            && |r.cs| == |s.cs| && |r.ss| == |r.own| == |s.ss|
            && r == Sys(s.ss[i := r.ss[i]], s.own[i := r.own[i]], s.total + r.ss[i].pend - s.ss[i].pend,
                        s.cs[k := r.cs[k]])
            && (forall j :: j != i ==> Carries(r.cs[k], j) == Carries(s.cs[k], j))
            && (forall j, owner :: j != i ==> IsStale(r.cs[k], j, owner) == IsStale(s.cs[k], j, owner))
  {
    Untouched(s, s.cs[k].i);
    assert s.cs[k := s.cs[k]] == s.cs;
  }

  lemma StepBalances(s: Sys, k: nat, a: Act, carried: nat, stale: nat, max: nat)
    requires k < |s.cs| && |s.own| == |s.ss| && !s.cs[k].Out? && s.cs[k].i < |s.ss|
    requires |Step(s, k, a, max).cs| == |s.cs| && |Step(s, k, a, max).ss| == |Step(s, k, a, max).own| == |s.ss|
    requires Balanced(s.ss[s.cs[k].i], carried, max) && carried >= Carries(s.cs[k], s.cs[k].i)
    requires s.own[s.cs[k].i].arrived + stale == s.own[s.cs[k].i].awaited && Held(s.ss[s.cs[k].i], s.own[s.cs[k].i])
    ensures var i, r := s.cs[k].i, Step(s, k, a, max);
            && carried + Carries(r.cs[k], i) - Carries(s.cs[k], i) >= 0
            && Balanced(r.ss[i], carried + Carries(r.cs[k], i) - Carries(s.cs[k], i), max)
            && r.own[i].owner == s.own[i].owner && Held(r.ss[i], r.own[i])
            && (r.own[i].arrived + stale + IsStale(r.cs[k], i, r.own[i].owner)
                == r.own[i].awaited + IsStale(s.cs[k], i, r.own[i].owner))
  {
    hide Begin, Stale, Carried, FirstFree, PendSum;
  }

  lemma StepKeeps(s: Sys, k: nat, a: Act, max: nat)
    requires Inv(s, max) && k < |s.cs|
    ensures Inv(s, max) && |s.own| == |s.ss| && Inv(Step(s, k, a, max), max)
  {
    hide Inv, Stale, Carried, FirstFree, Begin;
    InvShape(s, max);
    var cl := s.cs[k];
    if cl.Out? {
      BeginKeeps(s, k, a, max);
    } else if cl.i >= |s.ss| {
      QuietMove(s, k, Out, max);
    } else {
      hide Step, Balanced, Carries, IsStale, Held;
      var i, r := cl.i, Step(s, k, a, max);
      EntrySays(s, k, i, max);
      StepTouches(s, k, a, max);
      StepBalances(s, k, a, Carried(s.cs, i), Stale(s.cs, i, s.own[i].owner), max);
      var t := Moves(s, k, r.cs[k], i, r.ss[i], r.own[i], max);
    }
  }

  lemma {:induction false} StartIsBalanced(n: nat, m: nat, max: nat)
    ensures Inv(Start(n, m), max)
  {
    var s := Start(n, m);
    NoPend(s.ss);
    forall i | 0 <= i < n
      ensures Carried(s.cs, i) == 0 && Stale(s.cs, i, 0) == 0
    {
      NobodyInside(s.cs, i, 0);
    }
  }

  // ---------------------------------------------------------------- what holds in every interleaving

  /** Gives are conserved in every interleaving: those entered in the book of an entry were raised, found
      the count at its maximum, are parked, were discarded with their owner, were lost by a locked flush,
      or are in the hands of a context; the count is what it was at the claim plus what was raised less
      what was taken; and the total is the sum of the parked gives, so its unlocked test against zero is
      sound. */
  lemma {:induction false} GivesAreConservedAlways(n: nat, m: nat, es: seq<Event>, max: nat)
    ensures Inv(Run(Start(n, m), es, max), max)
    decreases |es|
  {
    if es == [] {
      StartIsBalanced(n, m, max);
    } else {
      hide Inv, Step, Start;
      GivesAreConservedAlways(n, m, es[..|es| - 1], max);
      var s, e := Run(Start(n, m), es[..|es| - 1], max), es[|es| - 1];
      if e.who < |s.cs| {
        StepKeeps(s, e.who, e.act, max);
      }
    }
  }

  /** With nobody inside a call nothing is in between, and the gives to earlier owners that the present
      owner of an entry has received are exactly those that flushes had popped and not yet signalled when
      it came. */
  lemma AtRestGivesAreSettled(n: nat, m: nat, es: seq<Event>, max: nat)
    ensures var s := Run(Start(n, m), es, max);
            (forall k :: 0 <= k < |s.cs| ==> s.cs[k].Out?) ==>
              && |s.own| == |s.ss|
              && (forall i :: 0 <= i < |s.ss| ==> Sound(s.ss[i], max) && s.own[i].arrived == s.own[i].awaited)
  {
    hide Run, Start;
    GivesAreConservedAlways(n, m, es, max);
    var s := Run(Start(n, m), es, max);
    if forall k :: 0 <= k < |s.cs| ==> s.cs[k].Out? {
      forall i | 0 <= i < |s.ss|
        ensures Carried(s.cs, i) == 0 && Stale(s.cs, i, s.own[i].owner) == 0
      {
        NobodyInside(s.cs, i, s.own[i].owner);
      }
    }
  }

  /** In every interleaving no entry has two owners: it has been claimed as often as given up by an owner,
      and once more exactly if it is in use.  And what has been taken of a semaphore since its claim is
      what takes were told they had and what its own draining found. */
  lemma OneOwnerAndHonestTakes(n: nat, m: nat, es: seq<Event>, max: nat)
    ensures var s := Run(Start(n, m), es, max);
            && |s.own| == |s.ss|
            && (forall i :: 0 <= i < |s.ss| ==> s.own[i].owner == s.own[i].released + if s.ss[i].used then 1 else 0)
            && (forall i :: 0 <= i < |s.ss| ==> s.ss[i].taken == s.own[i].served + s.own[i].drained)
  {
    hide Run, Start;
    GivesAreConservedAlways(n, m, es, max);
  }

  /** Nothing is lost and every flush runs unlocked. */
  ghost predicate LossFree(s: Sys) {
    && (forall i :: 0 <= i < |s.ss| ==> s.ss[i].book.lost == 0)
    && (forall k :: 0 <= k < |s.cs| && (s.cs[k].Looking? || s.cs[k].Popping? || s.cs[k].InHand?) ==> s.cs[k].c.mie)
  }

  lemma StepLosesNothing(s: Sys, k: nat, a: Act, max: nat)
    requires LossFree(s) && k < |s.cs| && |s.own| == |s.ss| && (a.Flush? ==> a.c.mie)
    ensures LossFree(Step(s, k, a, max))
  {
    hide Stale, FirstFree;
  }

  /** In every interleaving without a flush on a locked CPU no give is lost. */
  lemma {:induction false} UnlockedFlushesLoseNothing(n: nat, m: nat, es: seq<Event>, max: nat)
    requires forall j :: 0 <= j < |es| && es[j].act.Flush? ==> es[j].act.c.mie
    ensures LossFree(Run(Start(n, m), es, max))
    decreases |es|
  {
    if es != [] {
      hide LossFree, Step, Start;
      UnlockedFlushesLoseNothing(n, m, es[..|es| - 1], max);
      var s, e := Run(Start(n, m), es[..|es| - 1], max), es[|es| - 1];
      if e.who < |s.cs| && |s.own| == |s.ss| {
        StepLosesNothing(s, e.who, e.act, max);
      }
    }
  }

  // ---------------------------------------------------------------- a give that finds another owner

  lemma More(es: seq<Event>, e: Event) returns (r: seq<Event>)
    ensures Run(Start(1, 2), r, 1) == Next(Run(Start(1, 2), es, 1), e, 1)
  {
    r := es + [e];
    assert r[..|es|] == es;
  }

  const TASK := Ctx(Dispatchable, true)
  const LOCKED := Ctx(Dispatchable, false)

  const NO_BOOK := Book(0, 0, 0, 0, 0)

  /** One semaphore with count 0 after `given` gives of which nothing has come, and a second context. */
  function Scene(given: nat, t: Tenure, cl: Client): Sys {
    Sys([Sem(true, 0, 0, 0, 0, 0, NO_BOOK.(given := given))], [t], 0, [Out, cl])
  }

  lemma Creates() returns (es: seq<Event>)
    ensures Run(Start(1, 2), es, 1) == Scene(0, Tenure(1, 0, 0, 0, 0, 0), Out)
  {
    assert Run(Start(1, 2), [], 1) == Sys([Sem(false, 0, 0, 0, 0, 0, NO_BOOK)], [NO_TENURE], 0, [Out, Out]);
    var s := Start(1, 2);
    assert Stale([Out, Out], 0, 1) == 0 by { NobodyInside([Out, Out], 0, 1); }
    assert FirstFree(s.ss, 0) == 0;
    hide Run, Stale, FirstFree;
    es := More([], Event(0, Create(0, TASK)));
    assert Run(s, es, 1) == Creating(Draining(0, 0, TASK)) by { Claims(s); }
    hide Step;
    CreationGoesOn();
    es := More(es, Event(0, Go));
    es := More(es, Event(0, Go));
  }

  lemma CreationGoesOn()
    ensures Step(Creating(Draining(0, 0, TASK)), 0, Go, 1) == Creating(Raising(0, 0, TASK))
    ensures Step(Creating(Raising(0, 0, TASK)), 0, Go, 1) == Creating(Out) == Scene(0, Tenure(1, 0, 0, 0, 0, 0), Out)
  {
  }

  function Creating(cl: Client): Sys {
    Sys([Sem(true, 0, 0, 0, 0, 0, NO_BOOK)], [Tenure(1, 0, 0, 0, 0, 0)], 0, [cl, Out])
  }

  lemma Claims(s: Sys)
    requires s == Sys([Sem(false, 0, 0, 0, 0, 0, NO_BOOK)], [NO_TENURE], 0, [Out, Out])
    requires Stale(s.cs, 0, 1) == 0 && FirstFree(s.ss, 0) == 0
    ensures Begin(s, 0, Create(0, TASK)) == Creating(Draining(0, 0, TASK))
  {
  }

  lemma ParksAndPops() returns (es: seq<Event>)
    ensures Run(Start(1, 2), es, 1) == Scene(1, Tenure(1, 0, 0, 0, 0, 0), InHand(0, TASK, 1))
  {
    hide Run;
    es := Creates();
    es := More(es, Event(0, Give(0, LOCKED)));
    es := More(es, Event(0, Go));
    es := More(es, Event(0, Go));
    es := More(es, Event(1, Flush(TASK)));
    es := More(es, Event(1, Go));
    es := More(es, Event(1, Go));
  }

  lemma ChangesOwner() returns (es: seq<Event>)
    ensures Run(Start(1, 2), es, 1) == Scene(1, Tenure(2, 1, 1, 0, 0, 0), InHand(0, TASK, 1))
  {
    hide Run;
    es := ParksAndPops();
    es := More(es, Event(0, Delete(0)));
    assert Stale([Out, InHand(0, TASK, 1)], 0, 2) == 1 by { assert [Out, InHand(0, TASK, 1)][..1] == [Out]; }
    es := More(es, Event(0, Create(0, TASK)));
    es := More(es, Event(0, Go));
    es := More(es, Event(0, Go));
  }

  /** esp_shim_sem_delete and esp_shim_sem_create throw parked gives away, so that no give reaches a later
      owner.  One that a flush has popped and not yet signalled reaches it all the same: a run one core
      can make in which a semaphore created with 0 has count 1 although nobody gave. */
  lemma GiveReachesNextOwner() returns (es: seq<Event>)
    ensures var s := Run(Start(1, 2), es, 1);
            && (forall k :: 0 <= k < |s.cs| ==> s.cs[k].Out?)
            && s.own == [Tenure(2, 1, 1, 1, 0, 0)] && s.ss == [Sem(true, 1, 0, 0, 1, 0, Book(1, 1, 0, 0, 0))]
  {
    hide Run;
    es := ChangesOwner();
    es := More(es, Event(1, Go));
    es := More(es, Event(1, Go));
    es := More(es, Event(1, Go));
  }

  // ---------------------------------------------------------------- calls that nobody disturbs

  /** `steps` steps of context `k`, which nobody disturbs. */
  function Alone(s: Sys, k: nat, a: Act, steps: nat, max: nat): Sys
    requires k < |s.cs| && |s.own| == |s.ss|
    decreases steps
  {
    if steps == 0 then s
    else
      StepShape(s, k, a, max);
      Alone(Step(s, k, a, max), k, Go, steps - 1, max)
  }

  lemma StepShape(s: Sys, k: nat, a: Act, max: nat)
    requires k < |s.cs| && |s.own| == |s.ss|
    ensures var r := Step(s, k, a, max); |r.cs| == |s.cs| && |r.ss| == |s.ss| && |r.own| == |r.ss|
  {
    hide Stale, FirstFree, Signal;
  }

  /** Undisturbed, the steps of a give come to the give call. */
  lemma GiveAlone(s: Sys, k: nat, i: nat, c: Ctx, max: nat)
    requires k < |s.cs| && |s.own| == |s.ss| && i < |s.ss| && s.cs[k].Out?
    ensures Alone(s, k, Give(i, c), 3, max)
         == s.(ss := s.ss[i := GiveCall(s.ss[i], c, max)],
               total := s.total + GiveCall(s.ss[i], c, max).pend - s.ss[i].pend)
  {
    assert s.cs[k := Out] == s.cs;
    var s1 := Placed(s, k, Giving(i, c));
    assert Step(s, k, Give(i, c), max) == s1;
    if CanSignal(c) {
      var s2 := s.(ss := s.ss[i := Signal(Booked(s.ss[i]), c, max)]);
      assert Step(s1, k, Go, max) == s2 == Step(s2, k, Go, max);
    } else {
      var s2 := Placed(s, k, Refused(i)).(ss := s.ss[i := Booked(s.ss[i])]);
      assert Step(s1, k, Go, max) == s2;
    }
  }

  /** The entries from `j` on are settled. */
  function SettledFrom(ss: seq<Sem>, j: nat, c: Ctx, max: nat): seq<Sem> {
    seq(|ss|, i requires 0 <= i < |ss| => if i < j then ss[i] else SettleGives(ss[i], c, max))
  }

  /** Undisturbed, the rounds of a flush settle one entry after the other. */
  lemma {:induction false} FlushGoesOn(s: Sys, k: nat, j: nat, c: Ctx, max: nat) returns (n: nat)
    requires k < |s.cs| && |s.own| == |s.ss| && j <= |s.ss| && s.cs[k] == Looking(j, c)
    ensures var r := Alone(s, k, Go, n, max);
            && r.ss == SettledFrom(s.ss, j, c, max) && r.own == s.own && r.cs == s.cs[k := Out]
            && r.total - PendSum(r.ss) == s.total - PendSum(s.ss)
    decreases |s.ss| - j, if j < |s.ss| then s.ss[j].pend else 0
  {
    hide Step, Signal, PendSum;
    if j == |s.ss| {
      n := 1;
      PassOver(s, k, j, c, max);
      assert SettledFrom(s.ss, j, c, max) == s.ss;
      assert Alone(s, k, Go, 1, max) == Step(s, k, Go, max);
    } else if s.ss[j].pend == 0 {
      var t := Placed(s, k, Looking(j + 1, c));
      PassOver(s, k, j, c, max);
      n := FlushGoesOn(t, k, j + 1, c, max);
      assert SettledFrom(t.ss, j + 1, c, max) == SettledFrom(s.ss, j, c, max);
      n := n + 1;
    } else {
      var t := OneRound(s, k, j, c, max);
      n := FlushGoesOn(t, k, j, c, max);
      assert SettledFrom(t.ss, j, c, max) == SettledFrom(s.ss, j, c, max);
      ThreeMore(s, k, n, max);
      n := n + 3;
    }
  }

  lemma PassOver(s: Sys, k: nat, j: nat, c: Ctx, max: nat)
    requires k < |s.cs| && |s.own| == |s.ss| && s.cs[k] == Looking(j, c) && (j < |s.ss| ==> s.ss[j].pend == 0)
    ensures Step(s, k, Go, max) == Placed(s, k, if j < |s.ss| then Looking(j + 1, c) else Out)
  {
  }

  lemma ThreeMore(s: Sys, k: nat, n: nat, max: nat)
    requires k < |s.cs| && |s.own| == |s.ss|
    ensures var t := Alone(s, k, Go, 3, max);
            |t.cs| == |s.cs| && |t.own| == |t.ss| && Alone(t, k, Go, n, max) == Alone(s, k, Go, n + 3, max)
  {
    hide Step;
    StepShape(s, k, Go, max);
    var a := Step(s, k, Go, max);
    StepShape(a, k, Go, max);
    var b := Step(a, k, Go, max);
    StepShape(b, k, Go, max);
    var t := Step(b, k, Go, max);
    assert Alone(b, k, Go, 1, max) == t;
    assert Alone(a, k, Go, 2, max) == t;
    assert Alone(s, k, Go, 3, max) == t;
    assert Alone(b, k, Go, n + 1, max) == Alone(t, k, Go, n, max);
    assert Alone(a, k, Go, n + 2, max) == Alone(t, k, Go, n, max);
  }

  lemma OneRound(s: Sys, k: nat, j: nat, c: Ctx, max: nat) returns (t: Sys)
    requires k < |s.cs| && |s.own| == |s.ss| && j < |s.ss| && s.cs[k] == Looking(j, c) && s.ss[j].pend > 0
    ensures t == s.(ss := s.ss[j := Signal(s.ss[j].(pend := s.ss[j].pend - 1), c, max)], total := s.total - 1)
    ensures t == Alone(s, k, Go, 3, max) && t.ss[j].pend == s.ss[j].pend - 1
    ensures t.total - PendSum(t.ss) == s.total - PendSum(s.ss)
  {
    var e := s.ss[j].(pend := s.ss[j].pend - 1);
    t := s.(ss := s.ss[j := Signal(e, c, max)], total := s.total - 1);
    PendSumAfter(s.ss, j, Signal(e, c, max));
    hide Signal, PendSum;
    var a := Placed(s, k, Popping(j, c));
    var b := Placed(s, k, InHand(j, c, s.own[j].owner)).(ss := s.ss[j := e], total := s.total - 1);
    assert Step(s, k, Go, max) == a;
    assert Step(a, k, Go, max) == b;
    assert s.own[j := s.own[j]] == s.own && s.cs[k := Looking(j, c)] == s.cs;
    assert Step(b, k, Go, max) == t;
    assert Alone(b, k, Go, 1, max) == t;
    assert Alone(a, k, Go, 2, max) == t;
  }

  /** Undisturbed, the steps of a flush come to the settlement of all entries. */
  lemma FlushAlone(s: Sys, k: nat, c: Ctx, max: nat) returns (n: nat)
    requires k < |s.cs| && |s.own| == |s.ss| && s.cs[k].Out? && s.total == PendSum(s.ss)
    ensures var r := Alone(s, k, Flush(c), n, max);
            r.ss == Settled(s.ss, c, max) && r.own == s.own && r.cs == s.cs && r.total == PendSum(r.ss)
  {
    NoPend(s.ss);
    if s.total == 0 {
      n := 1;
      assert Settled(s.ss, c, max) == s.ss;
      assert Alone(s, k, Flush(c), 1, max) == Step(s, k, Flush(c), max);
    } else {
      var t := Placed(s, k, Looking(0, c));
      assert Step(s, k, Flush(c), max) == t;
      n := FlushGoesOn(t, k, 0, c, max);
      assert SettledFrom(s.ss, 0, c, max) == Settled(s.ss, c, max);
      assert t.cs[k := Out] == s.cs;
      n := n + 1;
    }
  }

  lemma {:induction false} AloneJoins(s: Sys, k: nat, a: Act, m: nat, n: nat, max: nat)
    requires k < |s.cs| && |s.own| == |s.ss| && m > 0
    ensures var t := Alone(s, k, a, m, max);
            |t.cs| == |s.cs| && |t.ss| == |t.own| == |s.ss| && Alone(t, k, Go, n, max) == Alone(s, k, a, m + n, max)
    decreases m
  {
    hide Step;
    StepShape(s, k, a, max);
    var t := Step(s, k, a, max);
    if m == 1 {
      assert Alone(s, k, a, 1, max) == Alone(t, k, Go, 0, max) == t;
    } else {
      AloneJoins(t, k, Go, m - 1, n, max);
    }
  }

  /** Entry `i` has this count after the steps, and is otherwise as far along as before. */
  ghost predicate Counts(s: Sys, r: Sys, k: nat, i: nat, cnt: nat, cl: Client) {
    && |r.ss| == |s.ss| == |r.own| == |s.own| && k < |s.cs| && i < |s.ss|
    && r.cs == s.cs[k := cl] && r.total == s.total
    && (forall j :: 0 <= j < |s.ss| && j != i ==> r.ss[j] == s.ss[j])
    && r.ss[i] == s.ss[i].(cnt := cnt, taken := r.ss[i].taken, raised := r.ss[i].raised)
  }

  lemma CountsOn(s: Sys, t: Sys, r: Sys, k: nat, i: nat, x: nat, y: nat, cl: Client, dl: Client)
    requires Counts(s, t, k, i, x, cl) && Counts(t, r, k, i, y, dl)
    ensures Counts(s, r, k, i, y, dl)
  {
  }

  lemma DrainStep(s: Sys, k: nat, i: nat, init: nat, c: Ctx, max: nat) returns (t: Sys)
    requires k < |s.cs| && |s.own| == |s.ss| && i < |s.ss| && s.cs[k] == Draining(i, init, c)
    ensures t == Step(s, k, Go, max)
    ensures if CanPoll(c) && s.ss[i].cnt > 0 then Counts(s, t, k, i, s.ss[i].cnt - 1, Draining(i, init, c))
            else Counts(s, t, k, i, s.ss[i].cnt, Raising(i, init, c))
  {
    t := Step(s, k, Go, max);
    assert s.cs[k := Draining(i, init, c)] == s.cs;
  }

  /** The drain takes all there is, in a task that has not locked the CPU. */
  lemma {:induction false} DrainGoesOn(s: Sys, k: nat, i: nat, init: nat, c: Ctx, max: nat) returns (n: nat)
    requires k < |s.cs| && |s.own| == |s.ss| && i < |s.ss| && s.cs[k] == Draining(i, init, c)
    ensures n > 0
    ensures Counts(s, Alone(s, k, Go, n, max), k, i, if CanPoll(c) then 0 else s.ss[i].cnt, Raising(i, init, c))
    decreases s.ss[i].cnt
  {
    var t := DrainStep(s, k, i, init, c, max);
    hide Step, Counts;
    n := 1;
    assert Alone(s, k, Go, 1, max) == t;
    if CanPoll(c) && s.ss[i].cnt > 0 {
      CountsSays(s, t, k, i, s.ss[i].cnt - 1, Draining(i, init, c));
      n := DrainGoesOn(t, k, i, init, c, max);
      CountsOn(s, t, Alone(t, k, Go, n, max), k, i, s.ss[i].cnt - 1, 0, Draining(i, init, c), Raising(i, init, c));
      n := n + 1;
    }
  }

  lemma CountsSays(s: Sys, r: Sys, k: nat, i: nat, cnt: nat, cl: Client)
    requires Counts(s, r, k, i, cnt, cl)
    ensures k < |s.cs| == |r.cs| && i < |r.ss| == |r.own| == |s.ss| && r.cs[k] == cl && r.ss[i].cnt == cnt
  {
  }

  lemma RaiseStep(s: Sys, k: nat, i: nat, left: nat, c: Ctx, max: nat) returns (t: Sys)
    requires k < |s.cs| && |s.own| == |s.ss| && i < |s.ss| && s.cs[k] == Raising(i, left, c)
    ensures t == Step(s, k, Go, max)
    ensures left == 0 ==> Counts(s, t, k, i, s.ss[i].cnt, Out)
    ensures left > 0 ==>
              var more := if CanSignal(c) && s.ss[i].cnt < max then 1 else 0;
              Counts(s, t, k, i, s.ss[i].cnt + more, Raising(i, left - 1, c))
  {
    t := Step(s, k, Go, max);
  }

  /** The raise gives what was asked for, up to the maximum, unless the CPU is locked. */
  lemma {:induction false} RaiseGoesOn(s: Sys, k: nat, i: nat, left: nat, c: Ctx, max: nat) returns (n: nat)
    requires k < |s.cs| && |s.own| == |s.ss| && i < |s.ss| && s.cs[k] == Raising(i, left, c)
    ensures n > 0 && Counts(s, Alone(s, k, Go, n, max), k, i, Raised(s.ss[i].cnt, left, c, max), Out)
    decreases left
  {
    var t := RaiseStep(s, k, i, left, c, max);
    hide Step, Counts;
    n := 1;
    assert Alone(s, k, Go, 1, max) == t;
    if left > 0 {
      var cnt := s.ss[i].cnt + if CanSignal(c) && s.ss[i].cnt < max then 1 else 0;
      CountsSays(s, t, k, i, cnt, Raising(i, left - 1, c));
      n := RaiseGoesOn(t, k, i, left - 1, c, max);
      CountsOn(s, t, Alone(t, k, Go, n, max), k, i, cnt, Raised(cnt, left - 1, c, max), Raising(i, left - 1, c), Out);
      n := n + 1;
    }
  }

  /** Undisturbed, the steps of a creation claim the first entry not in use and leave it with the count that
      the create call says, its parked gives gone, every other entry as it was. */
  lemma CreateAlone(s: Sys, k: nat, init: nat, c: Ctx, max: nat) returns (n: nat)
    requires k < |s.cs| && |s.own| == |s.ss| && s.cs[k].Out? && FirstFree(s.ss, 0) < |s.ss|
    ensures var i, r := FirstFree(s.ss, 0), Alone(s, k, Create(init, c), n, max);
            && !s.ss[i].used && r.cs == s.cs && |r.ss| == |s.ss| && r.total == s.total - s.ss[i].pend
            && (forall j :: 0 <= j < |s.ss| && j != i ==> r.ss[j] == s.ss[j])
            && r.ss[i].used && r.ss[i].pend == 0 && r.ss[i].cnt == CreateCall(s.ss[i], init, c, max).cnt
            && r.ss[i].book == CreateCall(s.ss[i], init, c, max).book
  {
    var i := FirstFree(s.ss, 0);
    var b := Step(s, k, Create(init, c), max);
    var m := DrainGoesOn(b, k, i, init, c, max);
    var d := Alone(b, k, Go, m, max);
    CountsSays(b, d, k, i, if CanPoll(c) then 0 else b.ss[i].cnt, Raising(i, init, c));
    n := RaiseGoesOn(d, k, i, init, c, max);
    AloneJoins(b, k, Go, m, n, max);
    CountsOn(b, d, Alone(d, k, Go, n, max), k, i, if CanPoll(c) then 0 else b.ss[i].cnt,
             Raised(if CanPoll(c) then 0 else b.ss[i].cnt, init, c, max), Raising(i, init, c), Out);
    n := m + n + 1;
    assert s.cs[k := Out] == s.cs;
  }
}
