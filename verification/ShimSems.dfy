/** The semaphore pool: gives made while the CPU is locked are parked and settled later.  First the
    calls as functions of a pool of records, then the pool in place. */
module ShimSems {
  import opened Kernel

  /** What has become of the gives a pool entry ever reported as done, over all its owners. */
  datatype Book = Book(given: nat, took: nat, saturated: nat, discarded: nat, lost: nat)

  /** A pool entry with its kernel semaphore: `born` is the count its present owner started with,
      `raised` and `taken` what has been added and taken since. */
  datatype Sem = Sem(used: bool, cnt: nat, pend: nat, born: nat, raised: nat, taken: nat, book: Book)

  /** sig_sem on behalf of a give already entered in the book; TMAX_MAXSEM bounds the count. */
  function Signal(s: Sem, c: Ctx, max: nat): Sem {
    if !CanSignal(c) then s.(book := s.book.(lost := s.book.lost + 1))
    else if s.cnt < max then
      s.(cnt := s.cnt + 1, raised := s.raised + 1, book := s.book.(took := s.book.took + 1))
    else s.(book := s.book.(saturated := s.book.saturated + 1))
  }

  /** esp_shim_sem_give */
  function GiveCall(s: Sem, c: Ctx, max: nat): Sem {
    var g := s.(book := s.book.(given := s.book.given + 1));
    if CanSignal(c) then Signal(g, c, max) else g.(pend := g.pend + 1)
  }

  datatype Taken = Took | TookNot | WaitsToTake

  /** esp_shim_sem_take */
  function TakeCall(s: Sem, c: Ctx, forever: bool): (Sem, Taken) {
    if !CanWait(c) then (s, TookNot)
    else if s.cnt > 0 then (s.(cnt := s.cnt - 1, taken := s.taken + 1), Took)
    else (s, if forever then WaitsToTake else TookNot)
  }

  /** What esp_shim_sem_flush_pending does to one entry. */
  function SettleGives(s: Sem, c: Ctx, max: nat): Sem
    decreases s.pend
  {
    if s.pend == 0 then s else SettleGives(Signal(s.(pend := s.pend - 1), c, max), c, max)
  }

  /** Parked gives of an earlier owner are thrown away. */
  function Disown(s: Sem): Sem {
    s.(pend := 0, book := s.book.(discarded := s.book.discarded + s.pend))
  }

  /** pol_sem until it fails. */
  function Emptied(s: Sem, c: Ctx): Sem {
    if CanPoll(c) then s.(cnt := 0) else s
  }

  /** sig_sem, `init` times. */
  function Raised(cnt: nat, init: nat, c: Ctx, max: nat): nat {
    if !CanSignal(c) || cnt >= max then cnt else if cnt + init > max then max else cnt + init
  }

  /** esp_shim_sem_create, on the entry it picks. */
  function CreateCall(s: Sem, init: nat, c: Ctx, max: nat): Sem {
    var e := Emptied(Disown(s).(used := true), c);
    var n := Raised(e.cnt, init, c, max);
    e.(cnt := n, born := n, raised := 0, taken := 0)
  }

  /** esp_shim_sem_delete, on the entry it finds. */
  function DeleteCall(s: Sem): Sem {
    Disown(s).(used := false)
  }

  // ---------------------------------------------------------------- what every call keeps

  /** Every give reported as done is accounted for, and the count is the one the owner started with
      plus what was raised less what was taken. */
  ghost predicate Sound(s: Sem, max: nat) {
    && s.book.given == s.book.took + s.book.saturated + s.pend + s.book.discarded + s.book.lost
    && s.cnt + s.taken == s.born + s.raised
    && s.cnt <= max
  }

  lemma SignalIsSound(s: Sem, c: Ctx, max: nat)
    requires s.book.given == s.book.took + s.book.saturated + s.pend + s.book.discarded + s.book.lost + 1
    requires s.cnt + s.taken == s.born + s.raised && s.cnt <= max
    ensures Sound(Signal(s, c, max), max)
  {
  }

  /** A flush settles every parked give of an entry; on a locked CPU it loses them instead. */
  lemma {:induction false} SettleGivesSettles(s: Sem, c: Ctx, max: nat)
    requires Sound(s, max)
    ensures var t := SettleGives(s, c, max);
            && Sound(t, max) && t.pend == 0 && t.used == s.used
            && t.book.given == s.book.given && t.book.discarded == s.book.discarded
            && t.book.lost == s.book.lost + (if c.mie then 0 else s.pend)
            && t.cnt == if !c.mie then s.cnt else if s.cnt + s.pend > max then max else s.cnt + s.pend
    decreases s.pend
  {
    if s.pend > 0 {
      SignalIsSound(s.(pend := s.pend - 1), c, max);
      SettleGivesSettles(Signal(s.(pend := s.pend - 1), c, max), c, max);
    }
  }

  /** Gives are conserved by every call: none is counted twice, and none vanishes unless the call
      says so. */
  lemma GivesAreConserved(s: Sem, c: Ctx, max: nat, init: nat, forever: bool)
    requires Sound(s, max)
    ensures Sound(GiveCall(s, c, max), max) && GiveCall(s, c, max).book.lost == s.book.lost
    ensures Sound(TakeCall(s, c, forever).0, max)
    ensures Sound(SettleGives(s, c, max), max)
    ensures Sound(CreateCall(s, init, c, max), max)
    ensures Sound(DeleteCall(s), max)
  {
    SettleGivesSettles(s, c, max);
  }

  /** A take is answered with the semaphore exactly when its caller may wait and the count is positive, and
      then it takes one; otherwise it takes nothing, and waits exactly if it may do so for ever.  So at
      most as many takes succeed as the count allows. */
  lemma TakeAnswers(s: Sem, c: Ctx, forever: bool)
    ensures var (t, r) := TakeCall(s, c, forever);
            var mayWait := c.mie && c.mode.Dispatchable?;
            && (r == Took <==> mayWait && s.cnt > 0)
            && (r == WaitsToTake <==> mayWait && s.cnt == 0 && forever)
            && t.cnt + (if r == Took then 1 else 0) == s.cnt
            && t.taken == s.taken + (if r == Took then 1 else 0)
            && t.(cnt := s.cnt, taken := s.taken) == s
  {
  }

  /** Takes one after the other, of which `n` are answered Took. */
  function Takes(s: Sem, calls: seq<(Ctx, bool)>): (Sem, nat) {
    if calls == [] then (s, 0)
    else
      var (t, n) := Takes(s, calls[..|calls| - 1]);
      var (u, r) := TakeCall(t, calls[|calls| - 1].0, calls[|calls| - 1].1);
      (u, if r == Took then n + 1 else n)
  }

  /** Without a give, of any takes by tasks that may wait as many succeed as the count was, or all. */
  lemma {:induction false} TakesSucceedExactly(s: Sem, calls: seq<(Ctx, bool)>)
    requires forall i :: 0 <= i < |calls| ==> calls[i].0.mie && calls[i].0.mode.Dispatchable?
    ensures var (t, n) := Takes(s, calls);
            && n == (if |calls| <= s.cnt then |calls| else s.cnt)
            && t == s.(cnt := s.cnt - n, taken := s.taken + n)
  {
    if calls != [] {
      TakesSucceedExactly(s, calls[..|calls| - 1]);
    }
  }

  lemma {:induction false} SettleBooks(s: Sem, c: Ctx, max: nat)
    requires c.mie
    ensures SettleGives(s.(book := s.book.(given := s.book.given + 1)), c, max)
         == (var t := SettleGives(s, c, max); t.(book := t.book.(given := t.book.given + 1)))
    decreases s.pend
  {
    if s.pend > 0 {
      SettleBooks(Signal(s.(pend := s.pend - 1), c, max), c, max);
      assert Signal(s.(book := s.book.(given := s.book.given + 1), pend := s.pend - 1), c, max)
          == (var t := Signal(s.(pend := s.pend - 1), c, max); t.(book := t.book.(given := t.book.given + 1)));
    }
  }

  lemma {:induction false} SettleOneMore(s: Sem, c: Ctx, max: nat)
    requires c.mie
    ensures SettleGives(s.(pend := s.pend + 1), c, max) == Signal(SettleGives(s, c, max), c, max)
    decreases s.pend
  {
    var t := Signal(s, c, max);
    assert Signal(s.(pend := s.pend + 1).(pend := s.pend), c, max) == t;
    if s.pend > 0 {
      var u := Signal(s.(pend := s.pend - 1), c, max);
      SettleOneMore(u, c, max);
      assert t == u.(pend := u.pend + 1);
    }
  }

  /** A give parked now and settled later, behind the gives parked before it, leaves the semaphore
      and its account as if it had been made after they were settled: parking only delays. */
  lemma ParkingOnlyDelays(s: Sem, locked: Ctx, open: Ctx, max: nat)
    requires !locked.mie && open.mie
    ensures SettleGives(GiveCall(s, locked, max), open, max) == GiveCall(SettleGives(s, open, max), open, max)
  {
    var g := s.(book := s.book.(given := s.book.given + 1));
    SettleBooks(s, open, max);
    SettleOneMore(g, open, max);
  }

  /** A new owner starts with exactly the count it asked for, and without parked gives of the previous
      owner, when esp_shim_sem_create runs in a task that has not locked the CPU.  From other
      contexts the drain, or both the drain and the raise, are refused, and the count is right only
      by chance. */
  lemma CreateStartsAtInit(s: Sem, init: nat, c: Ctx, max: nat)
    requires s.cnt <= max
    ensures CreateCall(s, init, c, max).pend == 0 && CreateCall(s, init, c, max).used
    ensures CreateCall(s, init, c, max).cnt == init <==>
            init <= max && (CanPoll(c) || if c.mie then s.cnt == 0 || init == max else s.cnt == init)
    ensures c.mie ==>
              var n := init + if c.mode.Handler? then s.cnt else 0;
              CreateCall(s, init, c, max).cnt == if n > max then max else n
  {
  }

  /** A deleted semaphore takes no give along to the next owner: those parked are discarded, and what the
      kernel semaphore counts is drained or handed on at the next creation. */
  lemma DeleteLeavesNoGive(s: Sem, init: nat, c: Ctx, max: nat)
    ensures var t := DeleteCall(s);
            && !t.used && t.pend == 0 && t.cnt == s.cnt
            && t.book == s.book.(discarded := s.book.discarded + s.pend)
            && CreateCall(t, init, c, max).book == t.book
  {
  }

  // ---------------------------------------------------------------- the pool in place

  /** The first entry from `i` on that is not in use, or the number of entries. */
  function FirstFree(ss: seq<Sem>, i: nat): (r: nat)
    requires i <= |ss|
    ensures i <= r <= |ss| && (forall k :: i <= k < r ==> ss[k].used) && (r < |ss| ==> !ss[r].used)
    decreases |ss| - i
  {
    if i < |ss| && ss[i].used then FirstFree(ss, i + 1) else i
  }

  function PendSum(ss: seq<Sem>): nat {
    if ss == [] then 0 else PendSum(ss[..|ss| - 1]) + ss[|ss| - 1].pend
  }

  lemma {:induction false} PendSumAfter(ss: seq<Sem>, i: nat, s: Sem)
    requires i < |ss|
    ensures PendSum(ss[i := s]) + ss[i].pend == PendSum(ss) + s.pend
    ensures ss[i].pend <= PendSum(ss)
  {
    var n := |ss| - 1;
    if i == n {
      assert ss[i := s][..n] == ss[..n];
    } else {
      assert ss[i := s][..n] == ss[..n][i := s];
      PendSumAfter(ss[..n], i, s);
    }
  }

  lemma {:induction false} NoPend(ss: seq<Sem>)
    ensures PendSum(ss) == 0 <==> forall i :: 0 <= i < |ss| ==> ss[i].pend == 0
  {
    if ss != [] {
      NoPend(ss[..|ss| - 1]);
    }
  }

  function Settled(ss: seq<Sem>, c: Ctx, max: nat): seq<Sem> {
    seq(|ss|, i requires 0 <= i < |ss| => SettleGives(ss[i], c, max))
  }

  /** shim_sem_id, shim_sem_used, shim_sem_pend, shim_sem_pend_total, and in `kernel` the counts of
      the kernel semaphores that the identifiers name.  The records in `account` are bookkeeping of
      the proof: they mirror the fields. */
  class SemPool {
    const max: nat
    const ids: seq<nat>
    const used: array<bool>
    const pend: array<nat>
    var pendTotal: nat
    var kernel: seq<nat>
    ghost var account: seq<Sem>

    ghost function Repr(): set<object> {
      {this, used, pend}
    }

    ghost predicate Shaped()
      reads Repr()
    {
      && used.Length == pend.Length == |ids| == |account| == |kernel|
      && (forall i, j :: 0 <= i < j < |ids| ==> ids[i] != ids[j])
      && (forall i :: 0 <= i < |ids| ==> account[i].used == used[i])
      && (forall i :: 0 <= i < |ids| ==> account[i].pend == pend[i])
      && (forall i :: 0 <= i < |ids| ==> account[i].cnt == kernel[i])
      && pendTotal == PendSum(account)
    }

    ghost predicate Valid()
      reads Repr()
    {
      Shaped() && forall i :: 0 <= i < |ids| ==> Sound(account[i], max)
    }

    constructor (ids: seq<nat>, max: nat)
      requires forall i, j :: 0 <= i < j < |ids| ==> ids[i] != ids[j]
      ensures Valid() && fresh(Repr()) && this.ids == ids && this.max == max
      ensures account == seq(|ids|, _ => Sem(false, 0, 0, 0, 0, 0, Book(0, 0, 0, 0, 0)))
    {
      this.max, this.ids := max, ids;
      used := new bool[|ids|](_ => false);
      pend := new nat[|ids|](_ => 0);
      pendTotal := 0;
      kernel := seq(|ids|, _ => 0);
      account := seq(|ids|, _ => Sem(false, 0, 0, 0, 0, 0, Book(0, 0, 0, 0, 0)));
      new;
      NoPend(account);
    }

    /** The search for the entry of a semaphore. */
    method Find(semid: nat) returns (i: nat)
      requires Shaped()
      ensures i < |ids| ==> ids[i] == semid
      ensures i >= |ids| ==> semid !in ids
    {
      i := 0;
      while i < |ids|
        invariant i <= |ids| && forall k :: 0 <= k < i ==> ids[k] != semid
      {
        if ids[i] == semid {
          return;
        }
        i := i + 1;
      }
    }

    /** sig_sem, on behalf of entry `i`. */
    method Sig(i: nat, c: Ctx)
      requires Shaped() && i < |ids|
      modifies this`kernel, this`account
      ensures Shaped() && account == old(account)[i := Signal(old(account)[i], c, max)]
    {
      PendSumAfter(account, i, Signal(account[i], c, max));
      if CanSignal(c) && kernel[i] < max {
        kernel := kernel[i := kernel[i] + 1];
      }
      account := account[i := Signal(account[i], c, max)];
    }

    /** esp_shim_sem_give.  A give refused by the locked CPU is parked and reported as done. */
    method Give(semid: nat, c: Ctx) returns (r: bool)
      requires Valid()
      modifies this`pendTotal, this`kernel, this`account, pend
      ensures Valid()
      ensures r == (semid in ids || !CanSignal(c))
      ensures semid !in ids ==> account == old(account)
      ensures forall i :: 0 <= i < |ids| && ids[i] == semid ==>
                account == old(account)[i := GiveCall(old(account)[i], c, max)]
    {
      var i := Find(semid);
      if i < |ids| {
        GiveAt(i, c);
      }
      r := i < |ids| || !CanSignal(c);
    }

    method GiveAt(i: nat, c: Ctx)
      requires Valid() && i < |ids|
      modifies this`pendTotal, this`kernel, this`account, pend
      ensures Valid() && account == old(account)[i := GiveCall(old(account)[i], c, max)]
    {
      ghost var s := account[i];
      GivesAreConserved(s, c, max, 0, false);
      if CanSignal(c) {
        ghost var g := s.(book := s.book.(given := s.book.given + 1));
        PendSumAfter(account, i, g);
        account := account[i := g];
        Sig(i, c);
      } else {
        PendSumAfter(account, i, GiveCall(s, c, max));
        pend[i] := pend[i] + 1;
        pendTotal := pendTotal + 1;
        account := account[i := GiveCall(s, c, max)];
      }
      assert account == old(account)[i := GiveCall(s, c, max)];
    }

    /** One parked give is taken out. */
    method Unpark(i: nat)
      requires Shaped() && i < |ids| && pend[i] > 0
      modifies this`pendTotal, this`account, pend
      ensures old(account)[i].pend > 0
      ensures Shaped() && account == old(account)[i := old(account)[i].(pend := old(account)[i].pend - 1)]
    {
      PendSumAfter(account, i, account[i].(pend := account[i].pend - 1));
      pend[i] := pend[i] - 1;
      pendTotal := pendTotal - 1;
      account := account[i := account[i].(pend := account[i].pend - 1)];
    }

    /** The inner loop of esp_shim_sem_flush_pending. */
    method FlushOne(i: nat, c: Ctx)
      requires Shaped() && i < |ids|
      modifies this`pendTotal, this`kernel, this`account, pend
      ensures Shaped() && account == old(account)[i := SettleGives(old(account)[i], c, max)]
    {
      ghost var before := account;
      assert account == before[i := account[i]];
      while pend[i] > 0
        invariant Shaped() && account == before[i := account[i]]
        invariant SettleGives(account[i], c, max) == SettleGives(before[i], c, max)
        decreases account[i].pend
      {
        Unpark(i);
        Sig(i, c);
      }
    }

    method FlushAll(c: Ctx)
      requires Shaped()
      modifies this`pendTotal, this`kernel, this`account, pend
      ensures Shaped() && account == Settled(old(account), c, max)
    {
      ghost var before := account;
      assert |before| == |ids|;
      hide Shaped, SettleGives;
      for i := 0 to |ids|
        invariant Shaped() && |before| == |account| == |ids|
        invariant forall k :: 0 <= k < i ==> account[k] == SettleGives(before[k], c, max)
        invariant forall k :: i <= k < |ids| ==> account[k] == before[k]
      {
        FlushOne(i, c);
      }
    }

    /** esp_shim_sem_flush_pending */
    method FlushPending(c: Ctx)
      requires Valid()
      modifies this`pendTotal, this`kernel, this`account, pend
      ensures Valid() && pendTotal == 0 && account == Settled(old(account), c, max)
    {
      hide Sound;
      SettledIsSound(account, c, max);
      NoPend(account);
      if pendTotal == 0 {
        assert account == Settled(account, c, max);
      } else {
        FlushAll(c);
      }
    }

    /** esp_shim_sem_take */
    method Take(semid: nat, c: Ctx, forever: bool) returns (r: Taken)
      requires Valid()
      modifies this`kernel, this`account
      ensures Valid() && (semid !in ids ==> account == old(account) && r == TookNot)
      ensures forall i :: 0 <= i < |ids| && ids[i] == semid ==>
                (account, r) == (old(account)[i := TakeCall(old(account)[i], c, forever).0],
                                 TakeCall(old(account)[i], c, forever).1)
    {
      var i := Find(semid);
      if i >= |ids| {
        return TookNot;
      }
      ghost var s := account[i];
      GivesAreConserved(s, c, max, 0, forever);
      PendSumAfter(account, i, TakeCall(s, c, forever).0);
      if !CanWait(c) {
        r := TookNot;
      } else if kernel[i] > 0 {
        kernel := kernel[i := kernel[i] - 1];
        r := Took;
      } else {
        r := if forever then WaitsToTake else TookNot;
      }
      account := account[i := TakeCall(s, c, forever).0];
    }

    /** esp_shim_sem_create: the first entry not in use is given a new owner. */
    method Create(init: nat, c: Ctx) returns (i: nat)
      requires Valid()
      modifies this`pendTotal, this`kernel, this`account, pend, used
      ensures Valid() && i == FirstFree(old(account), 0) <= |ids|
      ensures account
           == if i < |ids| then old(account)[i := CreateCall(old(account)[i], init, c, max)] else old(account)
    {
      i := 0;
      while i < |ids| && used[i]
        invariant i <= |ids| && FirstFree(account, i) == FirstFree(account, 0)
      {
        i := i + 1;
      }
      if i < |ids| {
        Claim(i);
        Prime(i, init, c);
        assert account == old(account)[i := CreateCall(old(account)[i], init, c, max)];
        GivesAreConserved(old(account)[i], c, max, init, false);
      }
    }

    /** The locked section of esp_shim_sem_create. */
    method Claim(i: nat)
      requires Shaped() && i < |ids|
      modifies this`pendTotal, this`account, pend, used
      ensures Shaped() && account == old(account)[i := Disown(old(account)[i]).(used := true)]
      ensures kernel == old(kernel)
    {
      ghost var s := Disown(account[i]).(used := true);
      PendSumAfter(account, i, s);
      used[i] := true;
      pendTotal := pendTotal - pend[i];
      pend[i] := 0;
      account := account[i := s];
    }

    /** The two loops of esp_shim_sem_create: drain, then raise. */
    method Prime(i: nat, init: nat, c: Ctx)
      requires Shaped() && i < |ids|
      modifies this`kernel, this`account
      ensures Shaped()
      ensures var e := Emptied(old(account)[i], c);
              var n := Raised(e.cnt, init, c, max);
              account == old(account)[i := e.(cnt := n, born := n, raised := 0, taken := 0)]
    {
      ghost var before := account[i];
      var count: nat := kernel[i];
      while CanPoll(c) && count > 0
        invariant CanPoll(c) || count == before.cnt
      {
        count := count - 1;
      }
      ghost var drained: nat := count;
      for k := 0 to init
        invariant count == Raised(drained, k, c, max)
      {
        if CanSignal(c) && count < max {
          count := count + 1;
        }
      }
      kernel := kernel[i := count];
      ghost var s := Emptied(before, c).(cnt := count, born := count, raised := 0, taken := 0);
      PendSumAfter(account, i, s);
      account := account[i := s];
    }

    /** esp_shim_sem_delete */
    method Delete(semid: nat)
      requires Valid()
      modifies this`pendTotal, this`account, pend, used
      ensures Valid() && (semid !in ids ==> account == old(account))
      ensures forall i :: 0 <= i < |ids| && ids[i] == semid ==>
                account == old(account)[i := DeleteCall(old(account)[i])]
    {
      var i := Find(semid);
      if i >= |ids| {
        return;
      }
      ghost var s := DeleteCall(account[i]);
      GivesAreConserved(account[i], Ctx(Dispatchable, true), max, 0, false);
      PendSumAfter(account, i, s);
      used[i] := false;
      pendTotal := pendTotal - pend[i];
      pend[i] := 0;
      account := account[i := s];
    }
  }

  lemma SettledIsSound(ss: seq<Sem>, c: Ctx, max: nat)
    requires forall i :: 0 <= i < |ss| ==> Sound(ss[i], max)
    ensures forall i :: 0 <= i < |ss| ==> Sound(Settled(ss, c, max)[i], max)
    ensures PendSum(Settled(ss, c, max)) == 0
  {
    forall i | 0 <= i < |ss|
      ensures Sound(Settled(ss, c, max)[i], max) && Settled(ss, c, max)[i].pend == 0
    {
      SettleGivesSettles(ss[i], c, max);
    }
    NoPend(Settled(ss, c, max));
  }
}
