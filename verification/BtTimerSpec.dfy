/** The esp_timer pool of the Bluetooth shim as a value, and what its task does at one instant. */
module BtTimerSpec {
  import opened Kernel

  datatype Callback = NoCallback | Callback(code: nat)

  /** struct esp_timer; a period of 0 is a one-shot timer. */
  datatype Timer = Timer(used: bool, active: bool, deadline: int, period: nat, callback: Callback, arg: nat)

  predicate Running(t: Timer) {
    t.used && t.active
  }

  predicate Due(t: Timer, now: int) {
    Running(t) && t.deadline <= now
  }

  /** The first unused timer, or the number of timers. */
  function FirstUnused(ts: seq<Timer>): (i: nat)
    ensures i <= |ts| && (forall k :: 0 <= k < i ==> ts[k].used) && (i < |ts| ==> !ts[i].used)
  {
    if ts == [] || !ts[0].used then 0 else 1 + FirstUnused(ts[1..])
  }

  // ---------------------------------------------------------------- one scan

  /** A due timer is taken: a periodic one moves on by one period, a one-shot stops. */
  function Taken(t: Timer): Timer {
    if t.period != 0 then t.(deadline := t.deadline + t.period) else t.(active := false)
  }

  /** No deadline found. */
  const NOTHING: int := -1

  function Sooner(nearest: int, d: int): int {
    if nearest < 0 || d < nearest then d else nearest
  }

  datatype Scanned = Scanned(ts: seq<Timer>, due: bool, callback: Callback, arg: nat, nearest: int)

  /** The locked scan of bt_timer_task from timer `i` on. */
  function ScanFrom(ts: seq<Timer>, now: int, i: nat, nearest: int): Scanned
    requires i <= |ts|
    decreases |ts| - i
  {
    if i == |ts| then Scanned(ts, false, NoCallback, 0, nearest)
    else if !Running(ts[i]) then ScanFrom(ts, now, i + 1, nearest)
    else if ts[i].deadline <= now then Scanned(ts[i := Taken(ts[i])], true, ts[i].callback, ts[i].arg, nearest)
    else ScanFrom(ts, now, i + 1, Sooner(nearest, ts[i].deadline))
  }

  function Scan(ts: seq<Timer>, now: int): Scanned {
    ScanFrom(ts, now, 0, NOTHING)
  }

  /** No running timer is due before `nearest`; NOTHING says that none is running. */
  ghost predicate Heard(ts: seq<Timer>, nearest: int) {
    forall i :: 0 <= i < |ts| && Running(ts[i]) ==> nearest >= 0 && nearest <= ts[i].deadline
  }

  ghost predicate Someones(ts: seq<Timer>, nearest: int) {
    nearest == NOTHING || exists i :: 0 <= i < |ts| && Running(ts[i]) && ts[i].deadline == nearest
  }

  /** The first due timer, or the number of timers. */
  function FirstDue(ts: seq<Timer>, now: int): (i: nat)
    ensures i <= |ts| && (forall k :: 0 <= k < i ==> !Due(ts[k], now)) && (i < |ts| ==> Due(ts[i], now))
  {
    if ts == [] || Due(ts[0], now) then 0 else 1 + FirstDue(ts[1..], now)
  }

  lemma {:induction false} ScanFromMeans(ts: seq<Timer>, now: int, i: nat, nearest: int)
    requires i <= |ts| && now >= 0 && nearest >= NOTHING
    requires Heard(ts[..i], nearest) && Someones(ts[..i], nearest)
    requires forall k :: 0 <= k < i ==> !Due(ts[k], now)
    ensures var r := ScanFrom(ts, now, i, nearest);
            var d := FirstDue(ts, now);
            && r.due == (d < |ts|)
            && Heard(ts[..d], r.nearest) && Someones(ts[..d], r.nearest)
            && (if d < |ts| then r.ts == ts[d := Taken(ts[d])] && r.callback == ts[d].callback && r.arg == ts[d].arg
                else r.ts == ts && r.callback == NoCallback)
    decreases |ts| - i
  {
    if i == |ts| {
      assert ts[..i] == ts;
    } else if !Due(ts[i], now) {
      var n := if Running(ts[i]) then Sooner(nearest, ts[i].deadline) else nearest;
      assert ts[..i + 1] == ts[..i] + [ts[i]];
      assert Someones(ts[..i + 1], n) by {
        if n == nearest && n >= 0 {
          var k :| 0 <= k < |ts[..i]| && Running(ts[..i][k]) && ts[..i][k].deadline == nearest;
          assert ts[..i + 1][k] == ts[..i][k];
        } else if n >= 0 {
          assert ts[..i + 1][i] == ts[i];
        }
      }
      ScanFromMeans(ts, now, i + 1, n);
    }
  }

  /** The scan takes the first due timer, if there is one, and changes nothing else; `nearest` is the
      soonest deadline among the timers before it. */
  lemma ScanMeans(ts: seq<Timer>, now: int)
    requires now >= 0
    ensures var r := Scan(ts, now);
            var d := FirstDue(ts, now);
            && r.due == (d < |ts|)
            && Heard(ts[..d], r.nearest) && Someones(ts[..d], r.nearest)
            && (if d < |ts| then r.ts == ts[d := Taken(ts[d])] && r.callback == ts[d].callback && r.arg == ts[d].arg
                else r.ts == ts && r.callback == NoCallback)
  {
    ScanFromMeans(ts, now, 0, NOTHING);
  }

  /** The soonest deadline of a pool, NOTHING if no timer is running. */
  function Soonest(ts: seq<Timer>): int {
    if ts == [] then NOTHING
    else
      var t := ts[|ts| - 1];
      if Running(t) then Sooner(Soonest(ts[..|ts| - 1]), t.deadline) else Soonest(ts[..|ts| - 1])
  }

  /** It is what a scan past these timers knows, none of them being due. */
  lemma {:induction false} SoonestIs(ts: seq<Timer>, nearest: int, now: int)
    requires now >= 0 && forall i :: 0 <= i < |ts| ==> !Due(ts[i], now)
    ensures Heard(ts, Soonest(ts)) && Someones(ts, Soonest(ts))
    ensures Soonest(ts) == NOTHING || Soonest(ts) > now
    ensures Heard(ts, nearest) && Someones(ts, nearest) ==> nearest == Soonest(ts)
  {
    if ts != [] {
      var us := ts[..|ts| - 1];
      SoonestIs(us, nearest, now);
      assert Heard(ts, Soonest(ts)) by {
        forall i | 0 <= i < |ts| && Running(ts[i])
          ensures Soonest(ts) >= 0 && Soonest(ts) <= ts[i].deadline
        {
          if i < |us| { assert us[i] == ts[i]; }
        }
      }
      if Soonest(ts) != NOTHING && Soonest(ts) == Soonest(us) {
        var i :| 0 <= i < |us| && Running(us[i]) && us[i].deadline == Soonest(us);
        assert ts[i] == us[i];
      }
    }
  }

  /** The task goes to sleep on the deadline of a scan that gave it nothing to call.  That is right, no
      running timer being sooner, if nothing was due; if a due timer without a callback was taken,
      exactly when the soonest deadline before that timer precedes all deadlines behind it and, should
      it be periodic, its own new one. */
  lemma SleepIsRight(ts: seq<Timer>, now: int)
    requires now >= 0 && Scan(ts, now).callback == NoCallback
    ensures var r := Scan(ts, now);
            var d := FirstDue(ts, now);
            Heard(r.ts, r.nearest) <==>
              d == |ts| || (Heard(ts[d + 1..], Soonest(ts[..d])) && Heard([Taken(ts[d])], Soonest(ts[..d])))
  {
    ScanMeans(ts, now);
    var r := Scan(ts, now);
    var d := FirstDue(ts, now);
    SoonestIs(ts[..d], r.nearest, now);
    if d == |ts| {
      assert ts[..d] == ts;
    } else {
      HeardAround(ts[..d], Taken(ts[d]), ts[d + 1..], r.nearest);
      assert r.ts == ts[..d] + [Taken(ts[d])] + ts[d + 1..];
    }
  }

  /** A due timer without a callback hides the due timer behind it: the task would wait forever. */
  lemma NoCallbackHidesTheRest()
    ensures var ts := [Timer(true, true, 5, 0, NoCallback, 0), Timer(true, true, 5, 0, Callback(7), 0)];
            var r := Scan(ts, 10);
            r.callback == NoCallback && r.nearest == NOTHING && Due(r.ts[1], 10)
  {
  }

  lemma HeardAround(a: seq<Timer>, t: Timer, b: seq<Timer>, nearest: int)
    ensures Heard(a + [t] + b, nearest) <==> Heard(a, nearest) && Heard([t], nearest) && Heard(b, nearest)
  {
    var ts := a + [t] + b;
    assert [t][0] == t && ts[|a|] == t;
    if Heard(ts, nearest) {
      forall i | 0 <= i < |a| && Running(a[i])
        ensures nearest >= 0 && nearest <= a[i].deadline
      {
        assert ts[i] == a[i];
      }
      forall i | 0 <= i < |b| && Running(b[i])
        ensures nearest >= 0 && nearest <= b[i].deadline
      {
        assert ts[|a| + 1 + i] == b[i];
      }
    }
    if Heard(a, nearest) && Heard([t], nearest) && Heard(b, nearest) {
      forall i | 0 <= i < |ts| && Running(ts[i])
        ensures nearest >= 0 && nearest <= ts[i].deadline
      {
        if i < |a| { assert ts[i] == a[i]; }
        if i > |a| { assert ts[i] == b[i - |a| - 1]; }
      }
    }
  }

  // ---------------------------------------------------------------- a burst at one instant

  /** Every running timer has a callback. */
  ghost predicate Wired(ts: seq<Timer>) {
    forall i :: 0 <= i < |ts| && Running(ts[i]) ==> ts[i].callback.Callback?
  }

  /** How often a deadline that moves on by `p` has come, up to `now`. */
  function Times(d: int, p: nat, now: int): nat
    requires p > 0
    decreases now - d
  {
    if d > now then 0 else 1 + Times(d + p, p, now)
  }

  /** In closed form. */
  lemma {:induction false} TimesIsQuotient(d: int, p: nat, now: int)
    requires p > 0
    ensures Times(d, p, now) == if d > now then 0 else (now - d) / p + 1
    decreases now - d
  {
    if d <= now {
      TimesIsQuotient(d + p, p, now);
      if d + p > now {
        QuotientOf(now - d, p, 0);
      } else {
        QuotientOf(now - d, p, (now - d - p) / p + 1);
      }
    }
  }

  lemma QuotientOf(x: nat, p: nat, q: nat)
    requires p > 0 && q * p <= x < q * p + p
    ensures x / p == q
  {
    var k := x / p;
    DivisionSays(x, p);
    if k < q { MoreTimes(k, q, p); }
    if q < k { MoreTimes(q, k, p); }
  }

  lemma MoreTimes(a: nat, b: nat, p: nat)
    requires a < b
    ensures a * p + p <= b * p
  {
    assert b * p == a * p + (b - a) * p;
    assert (b - a) * p == p + (b - a - 1) * p;
  }

  /** How often the callback of `t` is due, up to `now`. */
  function DueTimes(t: Timer, now: int): nat {
    if !Due(t, now) then 0 else if t.period == 0 then 1 else Times(t.deadline, t.period, now)
  }

  /** The timer after so many calls. */
  function After(t: Timer, n: nat): Timer {
    if n == 0 then t
    else if t.period != 0 then t.(deadline := t.deadline + n * t.period)
    else t.(active := false)
  }

  function Settled(t: Timer, now: int): Timer {
    After(t, DueTimes(t, now))
  }

  /** A settled timer is not due any more; a periodic one is next due within one period, on the grid of
      its first deadline. */
  lemma SettledIsNotDue(t: Timer, now: int)
    ensures var s := Settled(t, now);
            && !Due(s, now)
            && s.used == t.used && s.period == t.period && s.callback == t.callback
            && (!Due(t, now) ==> s == t)
            && (Due(t, now) && t.period == 0 ==> !s.active)
            && (Due(t, now) && t.period > 0 ==>
                  && s.active && now < s.deadline <= now + t.period
                  && s.deadline == t.deadline + ((now - t.deadline) / t.period + 1) * t.period)
  {
    if Due(t, now) && t.period > 0 {
      TimesIsQuotient(t.deadline, t.period, now);
      var q := (now - t.deadline) / t.period;
      assert q * t.period <= now - t.deadline < q * t.period + t.period by {
        DivisionSays(now - t.deadline, t.period);
      }
      assert (q + 1) * t.period == q * t.period + t.period;
    }
  }

  lemma DivisionSays(x: nat, p: nat)
    requires p > 0
    ensures x / p * p <= x < x / p * p + p
  {
  }

  function Repeat(n: nat, c: (Callback, nat)): seq<(Callback, nat)> {
    if n == 0 then [] else [c] + Repeat(n - 1, c)
  }

  /** The calls that are outstanding at `now`, timer after timer. */
  function Calls(ts: seq<Timer>, now: int): seq<(Callback, nat)> {
    if ts == [] then []
    else Repeat(DueTimes(ts[0], now), (ts[0].callback, ts[0].arg)) + Calls(ts[1..], now)
  }

  function AllSettled(ts: seq<Timer>, now: int): (r: seq<Timer>)
    ensures |r| == |ts|
  {
    seq(|ts|, i requires 0 <= i < |ts| => Settled(ts[i], now))
  }

  lemma {:induction false} CallsSplit(a: seq<Timer>, b: seq<Timer>, now: int)
    ensures Calls(a + b, now) == Calls(a, now) + Calls(b, now)
  {
    if a == [] {
      assert a + b == b;
    } else {
      assert (a + b)[1..] == a[1..] + b;
      CallsSplit(a[1..], b, now);
    }
  }

  lemma {:induction false} NoneDueNoCalls(ts: seq<Timer>, now: int)
    requires forall i :: 0 <= i < |ts| ==> !Due(ts[i], now)
    ensures Calls(ts, now) == [] && AllSettled(ts, now) == ts
  {
    if ts != [] {
      NoneDueNoCalls(ts[1..], now);
    }
  }

  /** Taking a due timer once leaves one call fewer and the same end. */
  lemma TakeOnce(t: Timer, now: int)
    requires Due(t, now)
    ensures DueTimes(t, now) == 1 + DueTimes(Taken(t), now)
    ensures Settled(Taken(t), now) == Settled(t, now)
  {
    if t.period > 0 {
      var n := DueTimes(Taken(t), now);
      assert n == Times(t.deadline + t.period, t.period, now);
      assert (n + 1) * t.period == n * t.period + t.period;
    }
  }

  lemma TakeFirst(ts: seq<Timer>, now: int, d: nat)
    requires d == FirstDue(ts, now) < |ts|
    ensures var r := ts[d := Taken(ts[d])];
            && Calls(ts, now) == [(ts[d].callback, ts[d].arg)] + Calls(r, now)
            && AllSettled(r, now) == AllSettled(ts, now)
  {
    hide Times, Settled, DueTimes, Repeat, Taken, Due;
    var r := ts[d := Taken(ts[d])];
    TakeOnce(ts[d], now);
    assert AllSettled(r, now) == AllSettled(ts, now);
    hide AllSettled;
    var rest := ts[d + 1..];
    assert ts == ts[..d] + ([ts[d]] + rest) && r == ts[..d] + ([r[d]] + rest);
    CallsSplit(ts[..d], [ts[d]] + rest, now);
    CallsSplit(ts[..d], [r[d]] + rest, now);
    NoneDueNoCalls(ts[..d], now);
    CallsOfFirst(ts[d], rest, now);
    CallsOfFirst(r[d], rest, now);
    RepeatOnce(DueTimes(r[d], now), (ts[d].callback, ts[d].arg));
    assert r[d].callback == ts[d].callback && r[d].arg == ts[d].arg by { TakenKeepsCallback(ts[d]); }
  }

  lemma CallsOfFirst(t: Timer, rest: seq<Timer>, now: int)
    ensures Calls([t] + rest, now) == Repeat(DueTimes(t, now), (t.callback, t.arg)) + Calls(rest, now)
  {
    assert ([t] + rest)[1..] == rest;
  }

  lemma RepeatOnce(n: nat, c: (Callback, nat))
    ensures Repeat(1 + n, c) == [c] + Repeat(n, c)
  {
  }

  lemma TakenKeepsCallback(t: Timer)
    ensures Taken(t).callback == t.callback && Taken(t).arg == t.arg
  {
  }

  /** One scan of a burst: it makes the first of the outstanding calls and leaves the others outstanding;
      with none outstanding every timer is settled, and `nearest` is the soonest deadline of all. */
  lemma ScanServesOne(ts: seq<Timer>, now: int)
    requires Wired(ts) && now >= 0
    ensures var r := Scan(ts, now);
            && Wired(r.ts)
            && (r.due <==> r.callback.Callback?)
            && (r.due ==> Calls(ts, now) == [(r.callback, r.arg)] + Calls(r.ts, now))
            && (r.due ==> AllSettled(r.ts, now) == AllSettled(ts, now))
            && (!r.due ==> Calls(ts, now) == [] && r.ts == AllSettled(ts, now) == ts)
            && (!r.due ==> Heard(r.ts, r.nearest) && Someones(r.ts, r.nearest))
  {
    hide DueTimes, Settled, Repeat;
    ScanMeans(ts, now);
    var d := FirstDue(ts, now);
    if d < |ts| {
      TakeFirst(ts, now, d);
    } else {
      NoneDueNoCalls(ts, now);
      assert ts[..d] == ts;
    }
  }

  // ---------------------------------------------------------------- the wait

  datatype Tmo = Forever | For(us: nat)

  /** How long the task waits, the clock having been read again. */
  function WaitFor(nearest: int, now: int): Tmo {
    if nearest < 0 then Forever
    else if nearest - now < 0 then For(0)
    else if nearest - now > TMAX_RELTIM then For(TMAX_RELTIM)
    else For(nearest - now)
  }

  /** The wait ends just when this timer is due, or at once if it is due already. */
  predicate Meets(t: Timer, later: int, us: nat) {
    t.used && t.active && if t.deadline <= later then us == 0 else later + us == t.deadline
  }

  /** The wait is the right one for these timers, the time being `later`: without a limit exactly if none
      is running; otherwise within what the kernel takes, over in time for every running timer, and no
      shorter than up to the soonest of their deadlines unless the kernel takes no longer one. */
  ghost predicate WaitsRight(ts: seq<Timer>, later: int, tmo: Tmo) {
    && (tmo.Forever? <==> forall i :: 0 <= i < |ts| ==> !(ts[i].used && ts[i].active))
    && (tmo.For? ==>
          && tmo.us <= TMAX_RELTIM
          && (forall i :: 0 <= i < |ts| && ts[i].used && ts[i].active ==>
                if ts[i].deadline <= later then tmo.us == 0 else later + tmo.us <= ts[i].deadline)
          && (tmo.us == TMAX_RELTIM || exists i :: 0 <= i < |ts| && Meets(ts[i], later, tmo.us)))
  }

  lemma NothingDueEarlier(ts: seq<Timer>, now: int)
    requires now >= 0 && !Scan(ts, now).due
    ensures forall i :: 0 <= i < |ts| && Running(ts[i]) ==> ts[i].deadline > now
  {
    ScanMeans(ts, now);
  }

  lemma WaitIsRight(ts: seq<Timer>, nearest: int, later: int)
    requires Heard(ts, nearest) && Someones(ts, nearest)
    requires forall i :: 0 <= i < |ts| && Running(ts[i]) ==> ts[i].deadline >= 0
    ensures WaitsRight(ts, later, WaitFor(nearest, later))
  {
  }
}
