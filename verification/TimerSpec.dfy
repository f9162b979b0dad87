/** The keyed timer list as a value: the newest timer comes first, a deadline of 0 means not armed. */
module TimerSpec {

  datatype Fn = NoFn | Fn(code: nat)

  datatype Timer = Timer(key: nat, fn: Fn, arg: nat, deadline: int, period: nat)

  predicate Armed(t: Timer) {
    t.deadline != 0
  }

  predicate Due(t: Timer, now: int) {
    Armed(t) && t.deadline <= now
  }

  /** The first timer with this key, or the number of timers. */
  function IndexOf(l: seq<Timer>, key: nat): (i: nat)
    ensures i <= |l| && (forall k :: 0 <= k < i ==> l[k].key != key) && (i < |l| ==> l[i].key == key)
  {
    if l == [] || l[0].key == key then 0 else 1 + IndexOf(l[1..], key)
  }

  predicate Has(l: seq<Timer>, key: nat) {
    IndexOf(l, key) < |l|
  }

  predicate Distinct(l: seq<Timer>) {
    forall i, j :: 0 <= i < j < |l| ==> l[i].key != l[j].key
  }

  /** What calloc hands out. */
  function Blank(key: nat): Timer {
    Timer(key, NoFn, 0, 0, 0)
  }

  /** The second, locked half of esp_shim_timer_find: look again, then insert. */
  function Insert(l: seq<Timer>, key: nat): seq<Timer> {
    if Has(l, key) then l else [Blank(key)] + l
  }

  /** esp_shim_timer_done */
  function Done(l: seq<Timer>, key: nat): seq<Timer> {
    var i := IndexOf(l, key);
    if i < |l| then l[..i] + l[i + 1..] else l
  }

  /** What setfn, arm and disarm do to the timer they have found. */
  datatype Job = SetFn(fn: Fn, arg: nat) | Arm(us: nat, repeat: bool) | Disarm

  function Apply(t: Timer, job: Job, clock: int): Timer {
    match job
    case SetFn(fn, arg) => t.(fn := fn, arg := arg, deadline := 0)
    case Arm(us, repeat) => t.(deadline := clock + us, period := if repeat then us else 0)
    case Disarm => t.(deadline := 0)
  }

  function Write(l: seq<Timer>, key: nat, job: Job, clock: int): seq<Timer> {
    var i := IndexOf(l, key);
    if i < |l| then l[i := Apply(l[i], job, clock)] else l
  }

  /** A due timer is taken: a periodic one is due again a period from now. */
  function Taken(t: Timer, now: int): Timer {
    t.(deadline := if t.period != 0 then now + t.period else 0)
  }

  /** The earlier of two deadlines, 0 meaning none. */
  function Sooner(next: int, d: int): int {
    if next == 0 || d < next then d else next
  }

  datatype Scanned = Scanned(l: seq<Timer>, due: bool, fn: Fn, arg: nat, next: int)

  /** The scan of esp_shim_timer_task from timer `i` on: it stops at the first due timer and takes it;
      `next` is the soonest of the deadlines passed on the way. */
  function ScanFrom(l: seq<Timer>, now: int, i: nat, next: int): Scanned
    requires i <= |l|
    decreases |l| - i
  {
    if i == |l| then Scanned(l, false, NoFn, 0, next)
    else if !Armed(l[i]) then ScanFrom(l, now, i + 1, next)
    else if l[i].deadline <= now then Scanned(l[i := Taken(l[i], now)], true, l[i].fn, l[i].arg, next)
    else ScanFrom(l, now, i + 1, Sooner(next, l[i].deadline))
  }

  function Scan(l: seq<Timer>, now: int): Scanned {
    ScanFrom(l, now, 0, 0)
  }

  // ---------------------------------------------------------------- keys

  lemma InsertKeepsDistinct(l: seq<Timer>, key: nat)
    requires Distinct(l)
    ensures Distinct(Insert(l, key)) && Has(Insert(l, key), key)
    ensures forall k: nat :: Has(Insert(l, key), k) <==> Has(l, k) || k == key
  {
    var r := Insert(l, key);
    if !Has(l, key) {
      assert r[0].key == key;
      forall k: nat
        ensures Has(r, k) <==> Has(l, k) || k == key
      {
        assert r[1..] == l;
      }
    }
  }

  /** The list without the timers of one key. */
  function Without(l: seq<Timer>, key: nat): seq<Timer> {
    if l == [] then [] else (if l[0].key == key then [] else [l[0]]) + Without(l[1..], key)
  }

  lemma {:induction false} WithoutAbsent(l: seq<Timer>, key: nat)
    requires forall i :: 0 <= i < |l| ==> l[i].key != key
    ensures Without(l, key) == l
  {
    if l != [] {
      WithoutAbsent(l[1..], key);
    }
  }

  /** Unlinking the first timer with this key leaves none with this key and every other in its place. */
  lemma {:induction false} DoneIsWithout(l: seq<Timer>, key: nat)
    requires Distinct(l)
    ensures Done(l, key) == Without(l, key)
  {
    if l != [] {
      if l[0].key == key {
        WithoutAbsent(l[1..], key);
      } else {
        DoneIsWithout(l[1..], key);
        DoneBehind(l, key);
      }
    }
  }

  lemma DoneBehind(l: seq<Timer>, key: nat)
    requires l != [] && l[0].key != key
    ensures Done(l, key) == [l[0]] + Done(l[1..], key)
  {
    var r := l[1..];
    var i := IndexOf(r, key);
    assert IndexOf(l, key) == 1 + i;
    hide IndexOf;
    assert l == [l[0]] + r;
    if i < |r| {
      CutBehind(l[0], r, i);
    }
  }

  lemma CutBehind(t: Timer, r: seq<Timer>, i: nat)
    requires i < |r|
    ensures ([t] + r)[..1 + i] + ([t] + r)[1 + i + 1..] == [t] + (r[..i] + r[i + 1..])
  {
    assert ([t] + r)[..1 + i] == [t] + r[..i];
    assert ([t] + r)[1 + i + 1..] == r[i + 1..];
  }

  lemma DoneKeepsDistinct(l: seq<Timer>, key: nat)
    requires Distinct(l)
    ensures Distinct(Done(l, key))
    ensures forall i :: 0 <= i < |Done(l, key)| ==> Done(l, key)[i] in l && Done(l, key)[i].key != key
  {
  }

  lemma WriteKeepsKeys(l: seq<Timer>, key: nat, job: Job, clock: int)
    ensures |Write(l, key, job, clock)| == |l|
    ensures forall i :: 0 <= i < |l| ==>
              Write(l, key, job, clock)[i].key == l[i].key && (l[i].key != key ==> Write(l, key, job, clock)[i] == l[i])
    ensures Distinct(l) ==> Distinct(Write(l, key, job, clock))
  {
  }

  /** What setfn, arm and disarm leave of the timer of the key: setfn gives it a function and disarms it;
      arm makes it due after `us`, and then again and again or once only; disarm takes its deadline away.
      Nothing else about it changes, and no other timer does. */
  lemma JobsOnFields(l: seq<Timer>, key: nat, job: Job, clock: int)
    requires Has(l, key)
    ensures var r := Write(l, key, job, clock);
            var i := IndexOf(l, key);
            && |r| == |l| && r[i].key == key && (forall k :: 0 <= k < |l| && k != i ==> r[k] == l[k])
            && (job.SetFn? ==> r[i].fn == job.fn && r[i].arg == job.arg && r[i].period == l[i].period)
            && (!job.SetFn? ==> r[i].fn == l[i].fn && r[i].arg == l[i].arg)
            && (!job.Arm? ==> r[i].deadline == 0)
            && (job.Arm? ==> r[i].deadline == clock + job.us)
            && (job.Arm? && job.repeat ==> r[i].period == job.us)
            && (job.Arm? && !job.repeat ==> r[i].period == 0)
            && (job.Disarm? ==> r[i].period == l[i].period)
  {
  }

  // ---------------------------------------------------------------- the scan

  /** Every armed timer's deadline is `next` or later; 0 says that none is armed. */
  ghost predicate Heard(l: seq<Timer>, next: int) {
    forall i :: 0 <= i < |l| && Armed(l[i]) ==> next != 0 && next <= l[i].deadline
  }

  /** `next` is one of the deadlines, or 0 if there is none. */
  ghost predicate Someones(l: seq<Timer>, next: int) {
    next == 0 || exists i :: 0 <= i < |l| && Armed(l[i]) && l[i].deadline == next
  }

  /** The first due timer, or the number of timers. */
  function FirstDue(l: seq<Timer>, now: int): (i: nat)
    ensures i <= |l| && (forall k :: 0 <= k < i ==> !Due(l[k], now)) && (i < |l| ==> Due(l[i], now))
  {
    if l == [] || Due(l[0], now) then 0 else 1 + FirstDue(l[1..], now)
  }

  lemma {:induction false} ScanFromMeans(l: seq<Timer>, now: int, i: nat, next: int)
    requires i <= |l| && Heard(l[..i], next) && Someones(l[..i], next)
    requires forall k :: 0 <= k < i ==> !Due(l[k], now)
    ensures var r := ScanFrom(l, now, i, next);
            var d := FirstDue(l, now);
            && r.due == (d < |l|)
            && Heard(l[..d], r.next) && Someones(l[..d], r.next)
            && (if d < |l| then r.l == l[d := Taken(l[d], now)] && r.fn == l[d].fn && r.arg == l[d].arg
                else r.l == l && r.fn == NoFn)
    decreases |l| - i
  {
    if i == |l| {
      assert l[..i] == l;
    } else if !Due(l[i], now) {
      var n := if Armed(l[i]) then Sooner(next, l[i].deadline) else next;
      assert l[..i + 1] == l[..i] + [l[i]];
      assert Someones(l[..i + 1], n) by {
        if n == next && n != 0 {
          var k :| 0 <= k < |l[..i]| && Armed(l[..i][k]) && l[..i][k].deadline == next;
          assert l[..i + 1][k] == l[..i][k];
        } else if n != 0 {
          assert l[..i + 1][i] == l[i];
        }
      }
      ScanFromMeans(l, now, i + 1, n);
    }
  }

  /** The scan takes the first due timer, if there is one, and changes nothing else; `next` is the
      soonest deadline among the timers before it. */
  lemma ScanMeans(l: seq<Timer>, now: int)
    ensures var r := Scan(l, now);
            var d := FirstDue(l, now);
            && r.due == (d < |l|)
            && Heard(l[..d], r.next) && Someones(l[..d], r.next)
            && (if d < |l| then r.l == l[d := Taken(l[d], now)] && r.fn == l[d].fn && r.arg == l[d].arg
                else r.l == l && r.fn == NoFn)
  {
    ScanFromMeans(l, now, 0, 0);
  }

  /** The soonest deadline of a list, 0 if no timer is armed. */
  function Soonest(l: seq<Timer>): int {
    if l == [] then 0
    else
      var t := l[|l| - 1];
      if Armed(t) then Sooner(Soonest(l[..|l| - 1]), t.deadline) else Soonest(l[..|l| - 1])
  }

  /** It is the one deadline that no armed timer precedes. */
  lemma {:induction false} SoonestIs(l: seq<Timer>)
    ensures Heard(l, Soonest(l)) && Someones(l, Soonest(l))
    ensures forall next :: Heard(l, next) && Someones(l, next) ==> next == Soonest(l)
  {
    if l != [] {
      var m := l[..|l| - 1];
      SoonestIs(m);
      assert Heard(l, Soonest(l)) by {
        forall i | 0 <= i < |l| && Armed(l[i])
          ensures Soonest(l) != 0 && Soonest(l) <= l[i].deadline
        {
          if i < |m| { assert m[i] == l[i]; }
        }
      }
      if Soonest(l) != 0 && Soonest(l) == Soonest(m) {
        var i :| 0 <= i < |m| && Armed(m[i]) && m[i].deadline == Soonest(m);
        assert l[i] == m[i];
      }
    }
  }

  /** The dispatcher takes a scan without a function to call for one that found nothing due, and sleeps
      on its deadline.  That is right, no armed timer being sooner, if nothing was due; if a due timer
      without a function was taken, it is right exactly when the soonest deadline before that timer
      precedes all deadlines behind it and, should it be periodic, its own new one. */
  lemma SleepIsRight(l: seq<Timer>, now: int)
    requires Scan(l, now).fn == NoFn
    ensures var r := Scan(l, now);
            var d := FirstDue(l, now);
            Heard(r.l, r.next) <==>
              d == |l| || (Heard(l[d + 1..], Soonest(l[..d])) && Heard([Taken(l[d], now)], Soonest(l[..d])))
  {
    ScanMeans(l, now);
    var r := Scan(l, now);
    var d := FirstDue(l, now);
    SoonestIs(l[..d]);
    if d == |l| {
      assert l[..d] == l;
    } else {
      HeardAround(l[..d], Taken(l[d], now), l[d + 1..], r.next);
      assert r.l == l[..d] + [Taken(l[d], now)] + l[d + 1..];
    }
  }

  lemma HeardAround(a: seq<Timer>, t: Timer, b: seq<Timer>, next: int)
    ensures Heard(a + [t] + b, next) <==> Heard(a, next) && Heard([t], next) && Heard(b, next)
  {
    var l := a + [t] + b;
    assert [t][0] == t && l[|a|] == t;
    if Heard(l, next) {
      forall i | 0 <= i < |a| && Armed(a[i])
        ensures next != 0 && next <= a[i].deadline
      {
        assert l[i] == a[i];
      }
      forall i | 0 <= i < |b| && Armed(b[i])
        ensures next != 0 && next <= b[i].deadline
      {
        assert l[|a| + 1 + i] == b[i];
      }
    }
    if Heard(a, next) && Heard([t], next) && Heard(b, next) {
      forall i | 0 <= i < |l| && Armed(l[i])
        ensures next != 0 && next <= l[i].deadline
      {
        if i < |a| { assert l[i] == a[i]; }
        if i > |a| { assert l[i] == b[i - |a| - 1]; }
      }
    }
  }

  /** Every armed timer has a function to call. */
  ghost predicate Wired(l: seq<Timer>) {
    forall i :: 0 <= i < |l| && Armed(l[i]) ==> l[i].fn.Fn?
  }

  /** Then a scan without a function to call found nothing due. */
  lemma WiredScanIsRight(l: seq<Timer>, now: int)
    requires Wired(l)
    ensures Wired(Scan(l, now).l)
    ensures Scan(l, now).fn.Fn? <==> Scan(l, now).due
    ensures Scan(l, now).fn == NoFn ==> Heard(Scan(l, now).l, Scan(l, now).next)
  {
    ScanMeans(l, now);
    if Scan(l, now).fn == NoFn {
      SleepIsRight(l, now);
    }
  }

  /** A due timer without a function hides the due timer behind it: the dispatcher would sleep forever. */
  lemma NoFnHidesTheRest()
    ensures var l := [Timer(1, NoFn, 0, 5, 0), Timer(2, Fn(7), 0, 5, 0)];
            var r := Scan(l, 10);
            r.fn == NoFn && r.next == 0 && Due(r.l[1], 10)
  {
  }

  // ---------------------------------------------------------------- a burst at one instant

  /** Served once: a timer that was due is taken, any other is left alone. */
  function Served(l: seq<Timer>, now: int): (r: seq<Timer>)
    ensures |r| == |l|
  {
    seq(|l|, i requires 0 <= i < |l| => if Due(l[i], now) then Taken(l[i], now) else l[i])
  }

  /** The functions of the due timers, in the order of the list. */
  function Calls(l: seq<Timer>, now: int): seq<(Fn, nat)> {
    if l == [] then []
    else (if Due(l[0], now) then [(l[0].fn, l[0].arg)] else []) + Calls(l[1..], now)
  }

  lemma {:induction false} CallsSplit(a: seq<Timer>, b: seq<Timer>, now: int)
    ensures Calls(a + b, now) == Calls(a, now) + Calls(b, now)
  {
    hide Due;
    if a == [] {
      assert a + b == b;
    } else {
      var x := if Due(a[0], now) then [(a[0].fn, a[0].arg)] else [];
      CallsSplit(a[1..], b, now);
      assert (a + b)[0] == a[0] && (a + b)[1..] == a[1..] + b;
      assert Calls(a, now) == x + Calls(a[1..], now) && Calls(a + b, now) == x + Calls(a[1..] + b, now);
      hide Calls;
      assert x + (Calls(a[1..], now) + Calls(b, now)) == (x + Calls(a[1..], now)) + Calls(b, now);
    }
  }

  lemma {:induction false} NoneDueNoCalls(l: seq<Timer>, now: int)
    requires forall i :: 0 <= i < |l| ==> !Due(l[i], now)
    ensures Calls(l, now) == []
  {
    if l != [] {
      NoneDueNoCalls(l[1..], now);
    }
  }

  /** Taking the first due timer removes the first of the calls. */
  lemma TakeOne(l: seq<Timer>, now: int, d: nat)
    requires d == FirstDue(l, now) < |l| && now >= 0
    ensures var r := l[d := Taken(l[d], now)];
            && Calls(l, now) == [(l[d].fn, l[d].arg)] + Calls(r, now)
            && Served(r, now) == Served(l, now)
            && !Due(r[d], now)
  {
    var r := l[d := Taken(l[d], now)];
    hide FirstDue, Served, Taken, Due, Calls;
    TakeServes(l, now, d);
    SplitAt(l, d);
    SplitAt(r, d);
    assert r[..d] == l[..d] && r[d + 1..] == l[d + 1..];
    FirstOfCalls(l[..d], l[d], r[d], l[d + 1..], now);
  }

  lemma FirstOfCalls(a: seq<Timer>, t: Timer, u: Timer, b: seq<Timer>, now: int)
    requires (forall i :: 0 <= i < |a| ==> !Due(a[i], now)) && Due(t, now) && !Due(u, now)
    ensures Calls(a + ([t] + b), now) == [(t.fn, t.arg)] + Calls(a + ([u] + b), now)
  {
    hide Calls, Due;
    CallsBehind(a, t, b, now);
    CallsBehind(a, u, b, now);
  }

  lemma SplitAt(l: seq<Timer>, d: nat)
    requires d < |l|
    ensures l == l[..d] + ([l[d]] + l[d + 1..])
  {
  }

  /** Timers that are not due make no difference. */
  lemma CallsBehind(a: seq<Timer>, t: Timer, b: seq<Timer>, now: int)
    requires forall i :: 0 <= i < |a| ==> !Due(a[i], now)
    ensures Due(t, now) ==> Calls(a + ([t] + b), now) == [(t.fn, t.arg)] + Calls(b, now)
    ensures !Due(t, now) ==> Calls(a + ([t] + b), now) == Calls(b, now)
  {
    NoneDueNoCalls(a, now);
    hide Calls, Due;
    CallsSplit(a, [t] + b, now);
    CallsOfFirst(t, b, now);
    NothingInFront(Calls(a, now), Calls([t] + b, now));
    NothingInFront([], Calls(b, now));
  }

  lemma NothingInFront(a: seq<(Fn, nat)>, b: seq<(Fn, nat)>)
    ensures a == [] ==> a + b == b
  {
  }

  lemma TakeServes(l: seq<Timer>, now: int, d: nat)
    requires d < |l| && Due(l[d], now) && now >= 0
    ensures var r := l[d := Taken(l[d], now)]; !Due(r[d], now) && Served(r, now) == Served(l, now)
  {
  }

  lemma CallsOfFirst(t: Timer, rest: seq<Timer>, now: int)
    ensures Calls([t] + rest, now) == (if Due(t, now) then [(t.fn, t.arg)] else []) + Calls(rest, now)
  {
    assert ([t] + rest)[1..] == rest;
  }

  /** One scan of a burst: it makes the first of the outstanding calls and leaves the others outstanding;
      with none outstanding every timer has been served, and `next` is the soonest deadline of all. */
  lemma ScanServesOne(l: seq<Timer>, now: int)
    requires Wired(l) && now >= 0
    ensures var r := Scan(l, now);
            && Wired(r.l)
            && (r.due ==> Calls(l, now) == [(r.fn, r.arg)] + Calls(r.l, now) && Served(r.l, now) == Served(l, now))
            && (!r.due ==> Calls(l, now) == [] && r.l == Served(l, now) == l)
            && (!r.due ==> Heard(r.l, r.next) && Someones(r.l, r.next))
  {
    ScanMeans(l, now);
    WiredScanIsRight(l, now);
    var d := FirstDue(l, now);
    if d < |l| {
      TakeOne(l, now, d);
    } else {
      NoneDueNoCalls(l, now);
      assert Served(l, now) == l && l[..d] == l;
    }
  }

  // ---------------------------------------------------------------- bursts at one instant after another

  /** What serving leaves of each timer: a due one is due again a period from now if it repeats, and not
      armed any more if it does not; one that is not due stays as it is. */
  lemma ServedOnFields(l: seq<Timer>, now: int, i: nat)
    requires i < |l| && now >= 0
    ensures Due(l[i], now) <==> l[i].deadline != 0 && l[i].deadline <= now
    ensures var t, r := l[i], Served(l, now)[i];
            && r.key == t.key && r.fn == t.fn && r.arg == t.arg && r.period == t.period
            && (t.deadline == 0 || t.deadline > now ==> r == t)
            && (t.deadline != 0 && t.deadline <= now && t.period > 0 ==> r.deadline == now + t.period > 0)
            && (t.deadline != 0 && t.deadline <= now && t.period == 0 ==> r.deadline == 0)
  {
  }

  /** The list after bursts at these instants. */
  function ServedOver(l: seq<Timer>, nows: seq<int>): (r: seq<Timer>)
    ensures |r| == |l|
  {
    if nows == [] then l else Served(ServedOver(l, nows[..|nows| - 1]), nows[|nows| - 1])
  }

  /** The instants at which timer `i` is called. */
  function Rings(l: seq<Timer>, nows: seq<int>, i: nat): seq<int>
    requires i < |l|
  {
    if nows == [] then []
    else
      var before, now := nows[..|nows| - 1], nows[|nows| - 1];
      Rings(l, before, i) + if Due(ServedOver(l, before)[i], now) then [now] else []
  }

  /** A timer rang at these instants, first due at `d` and then a period after it rang. */
  ghost predicate Spaced(rings: seq<int>, d: int, period: nat) {
    && (rings != [] ==> rings[0] >= d)
    && forall j {:trigger rings[j]} :: 0 < j < |rings| ==> rings[j] >= rings[j - 1] + period
  }

  /** When a repeating timer is due next. */
  ghost function DueNext(rings: seq<int>, d: int, period: nat): int {
    if rings == [] then d else rings[|rings| - 1] + period
  }

  lemma RingsOnce(rings: seq<int>, d: int, period: nat, now: int)
    requires Spaced(rings, d, period) && now >= DueNext(rings, d, period)
    ensures Spaced(rings + [now], d, period) && DueNext(rings + [now], d, period) == now + period
  {
  }

  /** However late it is served, a repeating timer rings no sooner than a period after it last rang, is due
      again exactly then, and stays what it is. */
  lemma {:induction false} RepeatingTimer(l: seq<Timer>, nows: seq<int>, i: nat)
    requires i < |l| && l[i].period > 0 && l[i].deadline != 0
    requires forall k :: 0 <= k < |nows| ==> nows[k] >= 0
    ensures Rung(ServedOver(l, nows)[i], l[i], Rings(l, nows, i))
  {
    if nows != [] {
      hide Rung, Due, Served;
      var before, now := nows[..|nows| - 1], nows[|nows| - 1];
      RepeatingTimer(l, before, i);
      var m := ServedOver(l, before);
      ServedOnFields(m, now, i);
      if Due(m[i], now) { RungAgain(m[i], Served(m, now)[i], l[i], Rings(l, before, i), now); }
    }
  }

  /** Timer `t`, called at these instants, is now `r`: as it was but for its deadline. */
  ghost predicate Rung(r: Timer, t: Timer, rings: seq<int>) {
    && Spaced(rings, t.deadline, t.period)
    && r == t.(deadline := DueNext(rings, t.deadline, t.period)) && r.deadline != 0
  }

  lemma RungAgain(r: Timer, u: Timer, t: Timer, rings: seq<int>, now: int)
    requires Rung(r, t, rings) && r.deadline <= now && u == r.(deadline := now + t.period) && u.deadline != 0
    ensures Rung(u, t, rings + [now])
  {
    RingsOnce(rings, t.deadline, t.period, now);
  }

  /** A timer that does not repeat rings once at most, and then is not armed. */
  lemma {:induction false} OneShotTimer(l: seq<Timer>, nows: seq<int>, i: nat)
    requires i < |l| && l[i].period == 0
    requires forall k :: 0 <= k < |nows| ==> nows[k] >= 0
    ensures var rings, t := Rings(l, nows, i), ServedOver(l, nows)[i];
            && |rings| <= 1
            && t == l[i].(deadline := if rings == [] then l[i].deadline else 0)
            && (rings == [] <==> forall k :: 0 <= k < |nows| ==> l[i].deadline == 0 || nows[k] < l[i].deadline)
  {
    if nows != [] {
      var before, now := nows[..|nows| - 1], nows[|nows| - 1];
      OneShotTimer(l, before, i);
      ServedOnFields(ServedOver(l, before), now, i);
      assert forall k :: 0 <= k < |before| ==> before[k] == nows[k];
    }
  }

  /** Every microsecond from `a` on, `n` of them. */
  function Ticks(a: int, n: nat): (r: seq<int>)
    ensures |r| == n
  {
    seq(n, k => a + k)
  }

  /** The deadlines `d`, a period later, and so on, as far as they come before `end`. */
  ghost predicate OnTime(rings: seq<int>, d: int, period: nat, end: int) {
    && (forall j :: 0 <= j < |rings| ==> rings[j] == Later(d, j, period) < end)
    && Later(d, |rings|, period) >= end
  }

  /** `k` periods after `d`. */
  function Later(d: int, k: nat, period: nat): int {
    d + k * period
  }

  lemma OnTimeAgain(rings: seq<int>, d: int, period: nat, now: int)
    requires OnTime(rings, d, period, now) && period > 0
    ensures Later(d, |rings|, period) > now ==> OnTime(rings, d, period, now + 1)
    ensures Later(d, |rings|, period) <= now ==>
              OnTime(rings + [now], d, period, now + 1) && now + period == Later(d, |rings| + 1, period)
  {
    assert (|rings| + 1) * period == |rings| * period + period;
  }

  /** Timer `t`, called on time up to `end`, is now `r`: due next a period after the last call. */
  ghost predicate Regular(r: Timer, t: Timer, rings: seq<int>, end: int) {
    OnTime(rings, t.deadline, t.period, end) && r == t.(deadline := Later(t.deadline, |rings|, t.period))
  }

  lemma RegularAgain(r: Timer, u: Timer, t: Timer, rings: seq<int>, now: int)
    requires Regular(r, t, rings, now) && t.period > 0
    requires u == if r.deadline <= now then r.(deadline := now + t.period) else r
    ensures if r.deadline <= now then Regular(u, t, rings + [now], now + 1) else Regular(u, t, rings, now + 1)
  {
    hide OnTime, Later;
    OnTimeAgain(rings, t.deadline, t.period, now);
  }

  /** Served in time, a repeating timer rings exactly at its deadline and every period after it. */
  lemma {:induction false} RingsEveryPeriod(l: seq<Timer>, a: int, n: nat, i: nat)
    requires i < |l| && l[i].period > 0 && 0 <= a <= l[i].deadline && l[i].deadline != 0
    ensures Regular(ServedOver(l, Ticks(a, n))[i], l[i], Rings(l, Ticks(a, n), i), a + n)
  {
    hide Regular, Due, Served, Rings, ServedOver, Ticks;
    if n == 0 {
      BeforeTicks(l, a, i);
    } else {
      var now := a + n - 1;
      OneMoreTick(l, a, n, i);
      RingsEveryPeriod(l, a, n - 1, i);
      var m, rings := ServedOver(l, Ticks(a, n - 1)), Rings(l, Ticks(a, n - 1), i);
      ServedOnFields(m, now, i);
      RegularSays(m[i], l[i], rings, now);
      RegularAgain(m[i], Served(m, now)[i], l[i], rings, now);
    }
  }

  lemma BeforeTicks(l: seq<Timer>, a: int, i: nat)
    requires i < |l| && a <= l[i].deadline
    ensures Regular(ServedOver(l, Ticks(a, 0))[i], l[i], Rings(l, Ticks(a, 0), i), a)
  {
    assert Ticks(a, 0) == [];
  }

  lemma OneMoreTick(l: seq<Timer>, a: int, n: nat, i: nat)
    requires i < |l| && n > 0
    ensures var now := a + n - 1;
            var m, rings := ServedOver(l, Ticks(a, n - 1)), Rings(l, Ticks(a, n - 1), i);
            && ServedOver(l, Ticks(a, n)) == Served(m, now)
            && Rings(l, Ticks(a, n), i) == if Due(m[i], now) then rings + [now] else rings
  {
    hide Due, Served;
    var nows := Ticks(a, n);
    assert nows[..|nows| - 1] == Ticks(a, n - 1) && nows[|nows| - 1] == a + n - 1;
  }

  lemma RegularSays(r: Timer, t: Timer, rings: seq<int>, end: int)
    requires Regular(r, t, rings, end)
    ensures r.period == t.period && r.deadline >= t.deadline
  {
    NotSooner(t.deadline, |rings|, t.period);
  }

  lemma NotSooner(d: int, k: nat, p: nat)
    ensures Later(d, k, p) >= d
  {
  }
}
