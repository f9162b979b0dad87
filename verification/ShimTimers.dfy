/** The timer list in place: linked nodes, changed one at a time. */
module ShimTimers {
  import opened Kernel
  import opened TimerSpec
  import opened ShimWakeups
  import TimerDispatch

  /** SHIM_TIMER */
  class Node {
    var key: nat
    var fn: Fn
    var arg: nat
    var deadline: int
    var period: nat
    var next: Node?

    function Value(): Timer
      reads this
    {
      Timer(key, fn, arg, deadline, period)
    }

    /** calloc */
    constructor ()
      ensures Value() == Blank(0) && next == null
    {
      key, fn, arg, deadline, period, next := 0, NoFn, 0, 0, 0, null;
    }
  }

  /** shim_timer_list */
  class TimerList {
    var head: Node?
    ghost var nodes: seq<Node>
    ghost var timers: seq<Timer>

    ghost predicate Valid()
      reads this, nodes
    {
      && (forall i, j :: 0 <= i < j < |nodes| ==> nodes[i] != nodes[j])
      && head == NodeAt(0)
      && (forall i {:trigger nodes[i].next} :: 0 <= i < |nodes| ==> nodes[i].next == NodeAt(i + 1))
      && |timers| == |nodes|
      && (forall i {:trigger timers[i]} {:trigger nodes[i]} :: 0 <= i < |nodes| ==>
            timers[i] == Timer(nodes[i].key, nodes[i].fn, nodes[i].arg, nodes[i].deadline, nodes[i].period))
    }

    ghost function NodeAt(i: nat): Node?
      reads this
    {
      if i < |nodes| then nodes[i] else null
    }

    constructor ()
      ensures Valid() && fresh(this) && nodes == [] && timers == []
    {
      head, nodes, timers := null, [], [];
    }

    /** One locked search of esp_shim_timer_find. */
    method Search(key: nat) returns (t: Node?)
      requires Valid()
      ensures t == NodeAt(IndexOf(timers, key))
    {
      ghost var i := 0;
      t := head;
      while t != null
        invariant i <= |nodes| && t == NodeAt(i)
        invariant forall k :: 0 <= k < i ==> timers[k].key != key
        decreases |nodes| - i
      {
        if t.key == key {
          return;
        }
        t := t.next;
        i := i + 1;
      }
    }

    /** The second locked section of esp_shim_timer_find: `t` has been allocated in between. */
    method InsertUnlessThere(t: Node, key: nat) returns (r: Node)
      requires Valid() && t !in nodes && t.Value() == Blank(0)
      modifies this, t
      ensures Valid() && timers == Insert(old(timers), key) && r == NodeAt(IndexOf(timers, key))
      ensures nodes == old(nodes) || nodes == [t] + old(nodes)
    {
      var e := Search(key);
      if e != null {
        r := e;
        return;
      }
      t.key := key;
      t.next := head;
      head := t;
      nodes := [t] + nodes;
      timers := [Blank(key)] + timers;
      r := t;
    }

    /** esp_shim_timer_find without interference; `room` tells whether calloc succeeds. */
    method FindOrCreate(key: nat, create: bool, room: bool) returns (r: Node?)
      requires Valid()
      modifies this
      ensures Valid() && timers == (if create && room then Insert(old(timers), key) else old(timers))
      ensures r == NodeAt(IndexOf(timers, key)) && fresh(set n | n in nodes && n !in old(nodes))
    {
      r := Search(key);
      if r != null || !create || !room {
        return;
      }
      var t := new Node();
      r := InsertUnlessThere(t, key);
    }

    /** Node `i`, behind `prev`, leaves the list. */
    method Unlink(prev: Node?, p: Node, ghost i: nat)
      requires Valid() && i < |nodes| && p == nodes[i] && prev == (if i == 0 then null else nodes[i - 1])
      modifies this, if prev == null then {} else {prev}
      ensures Valid() && timers == old(timers)[..i] + old(timers)[i + 1..]
    {
      ghost var rest := nodes[..i] + nodes[i + 1..];
      if prev == null {
        head := p.next;
      } else {
        prev.next := p.next;
      }
      nodes := rest;
      timers := timers[..i] + timers[i + 1..];
    }

    /** esp_shim_timer_done */
    method Done(key: nat)
      requires Valid()
      modifies this, nodes
      ensures Valid() && timers == TimerSpec.Done(old(timers), key)
    {
      hide IndexOf;
      ghost var i := 0;
      var prev: Node?, p := null, head;
      while p != null
        invariant i <= |nodes| && p == NodeAt(i) && prev == (if i == 0 then null else nodes[i - 1])
        invariant forall k :: 0 <= k < i ==> timers[k].key != key
        invariant unchanged(this) && unchanged(nodes)
        decreases |nodes| - i
      {
        if p.key == key {
          Unlink(prev, p, i);
          return;
        }
        prev, p := p, p.next;
        i := i + 1;
      }
    }

    /** The locked write of setfn, arm and disarm. */
    method Change(t: Node, job: Job, clock: int, ghost i: nat)
      requires Valid() && i < |nodes| && t == nodes[i]
      modifies this`timers, t
      ensures Valid() && timers == old(timers)[i := Apply(old(timers)[i], job, clock)]
    {
      match job {
        case SetFn(fn, arg) =>
          t.fn := fn;
          t.arg := arg;
          t.deadline := 0;
        case Arm(us, repeat) =>
          t.deadline := clock + us;
          t.period := if repeat then us else 0;
        case Disarm =>
          t.deadline := 0;
      }
      timers := timers[i := Apply(timers[i], job, clock)];
    }

    /** esp_shim_timer_setfn, esp_shim_timer_disarm, and esp_shim_timer_arm_us up to its signal: unless
        memory runs out, the timer is left as asked; a timer not there is not disarmed. */
    method FindAndChange(key: nat, job: Job, clock: int, room: bool) returns (done: bool)
      requires Valid()
      modifies this, nodes
      ensures Valid()
      ensures done == (Has(old(timers), key) || (!job.Disarm? && room))
      ensures timers == if done then Write(Insert(old(timers), key), key, job, clock) else old(timers)
    {
      var t := FindOrCreate(key, !job.Disarm?, room);
      done := t != null;
      if t != null {
        Change(t, job, clock, IndexOf(timers, key));
      }
    }

    /** esp_shim_timer_arm_us: unless memory runs out, the timer is armed and its task signalled, at once or
        by way of the wake-up array. */
    method ArmUs(key: nat, us: nat, repeat: bool, clock: int, room: bool, c: Ctx, wakes: WakeupPool)
      requires Valid() && wakes.Valid()
      modifies this, nodes, wakes, wakes.pend
      ensures Valid() && wakes.Valid()
      ensures var done := Has(old(timers), key) || room;
              var l, w := old(timers), old(wakes.Abs());
              && timers == (if done then Write(TimerSpec.Insert(l, key), key, Arm(us, repeat), clock) else l)
              && wakes.Abs() == if done then SignalCall(w, TimerDispatch.TIMER_SEM, c) else w
    {
      var done := FindAndChange(key, Arm(us, repeat), clock, room);
      if done {
        wakes.SignalOrPend(TimerDispatch.TIMER_SEM, c);
      }
    }

    /** The locked scan of esp_shim_timer_task. */
    method ScanDue(now: int) returns (due: bool, fn: Fn, arg: nat, next: int)
      requires Valid()
      modifies this`timers, nodes
      ensures Valid() && Scanned(timers, due, fn, arg, next) == Scan(old(timers), now)
    {
      due, fn, arg, next := false, NoFn, 0, 0;
      ghost var i := 0;
      var t := head;
      while t != null
        invariant i <= |nodes| && t == NodeAt(i)
        invariant unchanged(this) && unchanged(nodes)
        invariant ScanFrom(timers, now, i, next) == Scan(timers, now)
        decreases |nodes| - i
      {
        if t.deadline != 0 {
          if t.deadline <= now {
            due, fn, arg := true, t.fn, t.arg;
            t.deadline := if t.period != 0 then now + t.period else 0;
            timers := timers[i := Taken(timers[i], now)];
            return;
          }
          if next == 0 || t.deadline < next {
            next := t.deadline;
          }
        }
        t := t.next;
        i := i + 1;
      }
    }

    /** What the timer task does at one instant, nobody interfering: scan after scan until nothing is
        left to call.  It calls the function of every due timer exactly once, in the order of the list,
        leaves each of them re-armed a period from now or disarmed, and then sleeps on the soonest
        deadline of all. */
    method ServeAll(now: int) returns (calls: seq<(Fn, nat)>, next: int)
      requires Valid() && Wired(timers) && now >= 0
      modifies this`timers, nodes
      ensures Valid() && calls == Calls(old(timers), now) && timers == Served(old(timers), now)
      ensures Heard(timers, next) && Someones(timers, next)
    {
      hide Calls, Served, Scan, Wired, Heard, Someones;
      calls := [];
      var fn, arg, due := NoFn, 0, true;
      next := 0;
      while due
        invariant Valid() && Wired(timers) && unchanged(this`nodes)
        invariant due ==> calls + Calls(timers, now) == Calls(old(timers), now)
        invariant due ==> Served(timers, now) == Served(old(timers), now)
        invariant !due ==> calls == Calls(old(timers), now) && timers == Served(old(timers), now)
        invariant !due ==> Heard(timers, next) && Someones(timers, next)
        decreases due, |Calls(timers, now)|
      {
        ghost var before := timers;
        due, fn, arg, next := ScanDue(now);
        ScanServesOne(before, now);
        if due {
          calls := calls + [(fn, arg)];
        }
      }
    }
  }
}
