/** The order of messages under preemption: which steps let a message pass an earlier one. */
module QueueOrder {
  import opened Kernel
  import opened SlotQueue
  import opened QueueProtocol
  import opened QueueRuns

  // ---------------------------------------------------------------- the order kept beside a run

  /** The messages accepted, in this order; for each slot the place in it of the message it carries; the
      slots that receivers have taken out and not yet copied, and those that flushes have popped and not
      yet posted, in the order in which they were; and the places of the messages delivered so far. */
  datatype Track = Track(
    accepted: seq<nat>,
    place: map<nat, nat>,
    inHand: seq<nat>,
    carried: seq<nat>,
    given: seq<nat>)

  const NO_TRACK := Track([], map[], [], [], [])

  function PlaceOf(m: map<nat, nat>, slot: nat): nat {
    if slot in m then m[slot] else 0
  }

  function PlacesOf(m: map<nat, nat>, slots: seq<nat>): (r: seq<nat>)
    ensures |r| == |slots|
  {
    seq(|slots|, i requires 0 <= i < |slots| => PlaceOf(m, slots[i]))
  }

  /** Where `k` first occurs, or the length. */
  function IndexIn(s: seq<nat>, k: nat): (i: nat)
    ensures i <= |s| && (forall j :: 0 <= j < i ==> s[j] != k) && (i < |s| ==> s[i] == k)
    ensures k in s <==> i < |s|
  {
    if s == [] || s[0] == k then 0 else 1 + IndexIn(s[1..], k)
  }

  function Drop(s: seq<nat>, p: nat): seq<nat>
    requires p < |s|
  {
    s[..p] + s[p + 1..]
  }

  function Insert(s: seq<nat>, p: nat, x: nat): seq<nat>
    requires p <= |s|
  {
    s[..p] + [x] + s[p..]
  }

  function Without(s: seq<nat>, k: nat): seq<nat> {
    if k in s then Drop(s, IndexIn(s, k)) else s
  }

  /** The step makes a message the queue's: its slot enters the data queue or the ring. */
  predicate Accepts(q: Que, l: Local) {
    match l
    case SendPost(c, _) => CanSignal(c) && |q.dtq| < DTQ_CNT
    case IsrPost(c, _) => CanSignal(c) && |q.dtq| < DTQ_CNT
    case ParkPush(_, _) => q.wr < |q.ring| && q.cnt < q.depth
    case _ => false
  }

  function Accept(tr: Track, h: Hist, slot: nat): Track {
    tr.(accepted := tr.accepted + [if slot in h.slotId then h.slotId[slot] else 0],
        place := tr.place[slot := |tr.accepted|])
  }

  /** What a step of context `l`, which leaves it at `l'`, adds to the account. */
  function Watch(q: Que, h: Hist, l: Local, l': Local, tr: Track): Track {
    if Accepts(q, l) then Accept(tr, h, l.slot)
    else if l.RecvCopy? then
      tr.(inHand := Without(tr.inHand, l.slot), given := tr.given + [PlaceOf(tr.place, l.slot)])
    else if l.FlushHold? then tr.(carried := Without(tr.carried, l.slot))
    else if l'.RecvCopy? then tr.(inHand := tr.inHand + [l'.slot])
    else if l'.FlushHold? then tr.(carried := tr.carried + [l'.slot])
    else tr
  }

  function WatchNext(s: Sys, tr: Track, e: Event): Track {
    if e.who < |s.ts| then
      Watch(s.q, s.h, s.ts[e.who], Step(s.q, s.h, s.ts[e.who], e.act).l, tr)
    else tr
  }

  function WatchRun(s: Sys, es: seq<Event>): Track {
    if es == [] then NO_TRACK
    else WatchNext(Run(s, es[..|es| - 1]), WatchRun(s, es[..|es| - 1]), es[|es| - 1])
  }

  /** The slots of accepted messages not yet delivered, in the order in which they are on their way out:
      in the hands of receivers, in the data queue, in the hands of flushes, in the ring. */
  ghost function Line(q: Que, tr: Track): seq<nat>
    requires WellFormed(q)
  {
    tr.inHand + q.dtq + tr.carried + Window(q)
  }

  /** The places of the messages delivered, then of those on their way. */
  ghost function Story(q: Que, tr: Track): seq<nat>
    requires WellFormed(q)
  {
    tr.given + PlacesOf(tr.place, Line(q, tr))
  }

  /** A step by which a message passes one accepted earlier: a post while something is in the hands of a
      flush or in the ring; a flush that posts a slot popped later than one another flush still holds; a
      receiver that copies out a message taken later than one another receiver still holds. */
  predicate Overtakes(q: Que, l: Local, tr: Track) {
    match l
    case SendPost(_, _) => Accepts(q, l) && (tr.carried != [] || q.cnt > 0)
    case IsrPost(_, _) => Accepts(q, l) && (tr.carried != [] || q.cnt > 0)
    case FlushHold(c, slot, _) => CanSignal(c) && |q.dtq| < DTQ_CNT && tr.carried != [] && tr.carried[0] != slot
    case RecvCopy(_, slot) => tr.inHand != [] && tr.inHand[0] != slot
    case _ => false
  }

  // ---------------------------------------------------------------- sequences of places

  predicate InOrder(s: seq<nat>) {
    forall i, j :: 0 <= i < j < |s| ==> s[i] < s[j]
  }

  predicate NoDup(s: seq<nat>) {
    forall i, j :: 0 <= i < j < |s| ==> s[i] != s[j]
  }

  /** Different places, all given out already. */
  predicate Distinctly(s: seq<nat>, count: nat) {
    NoDup(s) && forall i :: 0 <= i < |s| ==> s[i] < count
  }

  datatype Effect = Stays | Gains | Loses(at: nat) | Inserts(at: nat) | Moves(from: nat, to: nat)

  /** A message comes in, or goes out, or passes those that stand from `at` or `to` on. */
  predicate Possible(s: seq<nat>, f: Effect) {
    match f
    case Stays => true
    case Gains => true
    case Loses(at) => at < |s|
    case Inserts(at) => at < |s|
    case Moves(from, to) => to < from < |s|
  }

  function Apply(s: seq<nat>, count: nat, f: Effect): seq<nat>
    requires Possible(s, f)
  {
    match f
    case Stays => s
    case Gains => s + [count]
    case Loses(at) => Drop(s, at)
    case Inserts(at) => Insert(s, at, count)
    case Moves(from, to) => Insert(Drop(s, from), to, s[from])
  }

  function CountAfter(count: nat, f: Effect): nat {
    if f.Gains? || f.Inserts? then count + 1 else count
  }

  predicate Passing(f: Effect) {
    f.Inserts? || f.Moves?
  }

  /** Nothing has changed, or one message has joined at the end, or one has left. */
  ghost predicate FifoStep(s: seq<nat>, s': seq<nat>, count: nat) {
    s' == s || s' == s + [count] || exists p: nat :: p < |s| && s' == Drop(s, p)
  }

  lemma DropAt(s: seq<nat>, p: nat)
    requires p < |s|
    ensures |Drop(s, p)| == |s| - 1
    ensures forall i {:trigger Drop(s, p)[i]} :: 0 <= i < |s| - 1 ==> Drop(s, p)[i] == s[if i < p then i else i + 1]
  {
  }

  lemma InsertAt(s: seq<nat>, p: nat, x: nat)
    requires p <= |s|
    ensures |Insert(s, p, x)| == |s| + 1
    ensures forall i {:trigger Insert(s, p, x)[i]} :: 0 <= i <= |s| ==>
              Insert(s, p, x)[i] == if i < p then s[i] else if i == p then x else s[i - 1]
  {
  }

  lemma DropIsDistinct(s: seq<nat>, p: nat, count: nat)
    requires p < |s| && Distinctly(s, count)
    ensures Distinctly(Drop(s, p), count) && s[p] < count
    ensures forall i :: 0 <= i < |Drop(s, p)| ==> Drop(s, p)[i] != s[p]
  {
    hide Drop;
    DropAt(s, p);
  }

  lemma InsertIsDistinct(s: seq<nat>, p: nat, x: nat, count: nat)
    requires p <= |s| && Distinctly(s, count) && x < count && forall i :: 0 <= i < |s| ==> s[i] != x
    ensures Distinctly(Insert(s, p, x), count)
  {
    hide Insert;
    InsertAt(s, p, x);
  }

  lemma ApplyIsDistinct(s: seq<nat>, count: nat, f: Effect)
    requires Possible(s, f) && Distinctly(s, count)
    ensures Distinctly(Apply(s, count, f), CountAfter(count, f))
  {
    hide Drop, Insert;
    assert Distinctly(s, count + 1);
    match f
    case Stays =>
    case Gains =>
      InsertIsDistinct(s, |s|, count, count + 1);
      InsertAtEnd(s, count);
    case Loses(at) => DropIsDistinct(s, at, count);
    case Inserts(at) => InsertIsDistinct(s, at, count, count + 1);
    case Moves(from, to) =>
      DropAt(s, from);
      DropIsDistinct(s, from, count);
      hide Distinctly;
      InsertIsDistinct(Drop(s, from), to, s[from], count);
  }

  /** Order survives every effect but a passing, and no passing. */
  lemma ApplyKeepsOrder(s: seq<nat>, count: nat, f: Effect)
    requires Possible(s, f) && Distinctly(s, count) && InOrder(s)
    ensures InOrder(Apply(s, count, f)) <==> !Passing(f)
  {
    hide Drop, Insert;
    match f
    case Stays =>
    case Gains =>
    case Loses(at) => DropAt(s, at);
    case Inserts(at) =>
      InsertAt(s, at, count);
      var r := Insert(s, at, count);
      assert r[at] > r[at + 1];
    case Moves(from, to) =>
      DropAt(s, from);
      InsertAt(Drop(s, from), to, s[from]);
      var r := Insert(Drop(s, from), to, s[from]);
      assert r[to] == s[from] && r[to + 1] == s[to];
  }

  /** Whether or not the messages were in order before, a step is one of a first-in first-out queue exactly
      when it is no passing. */
  lemma FifoStepExactly(s: seq<nat>, count: nat, f: Effect)
    requires Possible(s, f) && Distinctly(s, count)
    ensures FifoStep(s, Apply(s, count, f), count) <==> !Passing(f)
  {
    hide Drop, Insert;
    var r := Apply(s, count, f);
    match f
    case Stays =>
    case Gains =>
    case Loses(at) =>
    case Inserts(at) =>
      InsertAt(s, at, count);
      assert r[|s|] == s[|s| - 1] && (s + [count])[|s|] == count;
      forall p: nat | p < |s|
        ensures r != Drop(s, p)
      {
        DropAt(s, p);
      }
    case Moves(from, to) =>
      DropAt(s, from);
      InsertAt(Drop(s, from), to, s[from]);
      assert r[to] == s[from] != s[to];
      assert |r| == |s|;
      forall p: nat | p < |s|
        ensures r != Drop(s, p)
      {
        DropAt(s, p);
      }
  }

  // ---------------------------------------------------------------- what a step does to the line

  /** The effect of a step on the story. */
  ghost function EffectOf(q: Que, l: Local, l': Local, tr: Track): Effect {
    var base := |tr.given| + |tr.inHand| + |q.dtq|;
    match l
    case SendPost(_, _) => if !Accepts(q, l) then Stays else if Overtakes(q, l, tr) then Inserts(base) else Gains
    case IsrPost(_, _) => if !Accepts(q, l) then Stays else if Overtakes(q, l, tr) then Inserts(base) else Gains
    case ParkPush(_, _) => if Accepts(q, l) then Gains else Stays
    case FlushHold(c, slot, _) =>
      if !CanSignal(c) || |q.dtq| >= DTQ_CNT then Loses(base + IndexIn(tr.carried, slot))
      else if Overtakes(q, l, tr) then Moves(base + IndexIn(tr.carried, slot), base)
      else Stays
    case RecvCopy(_, slot) =>
      if Overtakes(q, l, tr) then Moves(|tr.given| + IndexIn(tr.inHand, slot), |tr.given|) else Stays
    case Resetting(c) => if CanPoll(c) && q.dtq != [] then Loses(|tr.given| + |tr.inHand|) else Stays
    case _ => Stays
  }

  lemma PassingIsOvertaking(q: Que, l: Local, l': Local, tr: Track)
    ensures Passing(EffectOf(q, l, l', tr)) <==> Overtakes(q, l, tr)
  {
  }

  /** The places of slots do not change when another slot is given one. */
  lemma PlacesElsewhere(m: map<nat, nat>, slots: seq<nat>, slot: nat, p: nat)
    requires slot !in slots
    ensures PlacesOf(m[slot := p], slots) == PlacesOf(m, slots)
  {
  }

  lemma PlacesDrop(m: map<nat, nat>, s: seq<nat>, p: nat)
    requires p < |s|
    ensures PlacesOf(m, Drop(s, p)) == Drop(PlacesOf(m, s), p)
  {
  }

  lemma PlacesInsert(m: map<nat, nat>, s: seq<nat>, p: nat, k: nat)
    requires p <= |s|
    ensures PlacesOf(m, Insert(s, p, k)) == Insert(PlacesOf(m, s), p, PlaceOf(m, k))
  {
  }

  lemma WithGiven(given: seq<nat>, ps: seq<nat>, p: nat, x: nat)
    ensures p < |ps| ==> given + Drop(ps, p) == Drop(given + ps, |given| + p)
    ensures p <= |ps| ==> given + Insert(ps, p, x) == Insert(given + ps, |given| + p, x)
  {
  }

  /** Only the data queue, the ring and the account make up the line. */
  lemma SameLine(q: Que, q': Que, tr: Track)
    requires WellFormed(q) && WellFormed(q') && q'.dtq == q.dtq && q'.depth == q.depth
    requires q'.cnt == q.cnt && q'.rd == q.rd && q'.ring == q.ring
    ensures Line(q', tr) == Line(q, tr)
  {
    assert Window(q') == Window(q);
  }

  lemma StoryLoses(q: Que, tr: Track, q': Que, tr': Track, p: nat)
    requires WellFormed(q) && WellFormed(q') && tr'.given == tr.given && tr'.place == tr.place
    requires p < |Line(q, tr)| && Line(q', tr') == Drop(Line(q, tr), p)
    ensures |tr.given| + p < |Story(q, tr)| && Story(q', tr') == Drop(Story(q, tr), |tr.given| + p)
  {
    PlacesDrop(tr.place, Line(q, tr), p);
    WithGiven(tr.given, PlacesOf(tr.place, Line(q, tr)), p, 0);
  }

  lemma PlacesMove(m: map<nat, nat>, given: seq<nat>, line: seq<nat>, from: nat, to: nat)
    requires to <= from < |line|
    ensures var ps := PlacesOf(m, line);
            (given + PlacesOf(m, Insert(Drop(line, from), to, line[from]))
             == Insert(Drop(given + ps, |given| + from), |given| + to, ps[from]))
  {
    var ps := PlacesOf(m, line);
    var x := line[from];
    assert ps[from] == PlaceOf(m, x);
    hide PlacesOf, PlaceOf, Drop, Insert;
    DropAt(line, from);
    DropAt(ps, from);
    var less, psLess := Drop(line, from), Drop(ps, from);
    PlacesDrop(m, line, from);
    PlacesInsert(m, less, to, x);
    WithGiven(given, ps, from, 0);
    WithGiven(given, psLess, to, ps[from]);
  }

  lemma StoryMoves(q: Que, tr: Track, q': Que, tr': Track, from: nat, to: nat)
    requires WellFormed(q) && WellFormed(q') && tr'.given == tr.given && tr'.place == tr.place
    requires to <= from < |Line(q, tr)|
    requires Line(q', tr') == Insert(Drop(Line(q, tr), from), to, Line(q, tr)[from])
    ensures var g := |tr.given|;
            && g + from < |Story(q, tr)|
            && Story(q', tr') == Insert(Drop(Story(q, tr), g + from), g + to, Story(q, tr)[g + from])
  {
    hide Line, PlacesOf, Drop, Insert;
    PlacesMove(tr.place, tr.given, Line(q, tr), from, to);
  }

  lemma StoryInserts(q: Que, tr: Track, q': Que, tr': Track, p: nat, slot: nat)
    requires WellFormed(q) && WellFormed(q') && tr'.given == tr.given
    requires slot !in Line(q, tr) && tr'.place == tr.place[slot := |tr.accepted|]
    requires p <= |Line(q, tr)| && Line(q', tr') == Insert(Line(q, tr), p, slot)
    ensures |tr.given| + p <= |Story(q, tr)|
    ensures Story(q', tr') == Insert(Story(q, tr), |tr.given| + p, |tr.accepted|)
  {
    var line := Line(q, tr);
    PlacesElsewhere(tr.place, line, slot, |tr.accepted|);
    PlacesInsert(tr'.place, line, p, slot);
    WithGiven(tr.given, PlacesOf(tr.place, line), p, |tr.accepted|);
  }

  lemma InsertAtEnd(s: seq<nat>, x: nat)
    ensures Insert(s, |s|, x) == s + [x]
  {
  }

  /** A flush posts what it holds. */
  lemma LineFlushes(q: Que, tr: Track, slot: nat)
    requires WellFormed(q) && slot in tr.carried
    ensures var j := IndexIn(tr.carried, slot);
            var b := |tr.inHand| + |q.dtq|;
            var line := Line(q, tr);
            var tr' := tr.(carried := Without(tr.carried, slot));
            && b + j < |line| && line[b + j] == slot
            && WellFormed(DtqPush(q, slot)) && Line(DtqPush(q, slot), tr') == Insert(Drop(line, b + j), b, slot)
            && Line(q, tr') == Drop(line, b + j)
  {
    hide IndexIn, Window, Drop, Insert, Without;
    WithoutIs(tr.carried, slot);
    PushKeepsWindow(q, slot);
    var j := IndexIn(tr.carried, slot);
    var w := Window(q);
    var rest := Drop(tr.carried, j);
    DropInMiddle(tr.inHand + q.dtq, tr.carried, w, j);
    PushInMiddle(tr.inHand, q.dtq, rest, w, slot);
  }

  lemma PushKeepsWindow(q: Que, slot: nat)
    requires WellFormed(q)
    ensures WellFormed(DtqPush(q, slot)) && Window(DtqPush(q, slot)) == Window(q)
  {
  }

  lemma PushInMiddle(a: seq<nat>, b: seq<nat>, c: seq<nat>, d: seq<nat>, x: nat)
    ensures a + (b + [x]) + c + d == Insert(a + b + c + d, |a| + |b|, x)
  {
  }

  lemma DropInMiddle(a: seq<nat>, b: seq<nat>, c: seq<nat>, j: nat)
    requires j < |b|
    ensures (a + b + c)[|a| + j] == b[j] && Drop(a + b + c, |a| + j) == a + Drop(b, j) + c
  {
  }

  lemma LinePops(q: Que, tr: Track)
    requires WellFormed(q) && q.cnt > 0
    ensures WellFormed(RingPop(q)) && q.rd < |q.ring|
    ensures Line(RingPop(q), tr.(carried := tr.carried + [q.ring[q.rd]])) == Line(q, tr)
  {
    WindowAfterPop(q);
    var w := Window(RingPop(q));
    assert (tr.inHand + q.dtq + (tr.carried + [q.ring[q.rd]])) + w
        == (tr.inHand + q.dtq + tr.carried) + ([q.ring[q.rd]] + w);
  }

  lemma LinePosts(q: Que, tr: Track, slot: nat)
    requires WellFormed(q)
    ensures WellFormed(DtqPush(q, slot))
    ensures Line(DtqPush(q, slot), tr) == Insert(Line(q, tr), |tr.inHand| + |q.dtq|, slot)
    ensures tr.carried == [] && q.cnt == 0 ==> |tr.inHand| + |q.dtq| == |Line(q, tr)|
  {
    assert Window(DtqPush(q, slot)) == Window(q);
    var front := tr.inHand + q.dtq;
    assert Line(q, tr) == front + (tr.carried + Window(q));
  }

  lemma LineParks(q: Que, tr: Track, slot: nat)
    requires WellFormed(q) && q.cnt < q.depth
    ensures WellFormed(RingPush(q, slot)) && Line(RingPush(q, slot), tr) == Insert(Line(q, tr), |Line(q, tr)|, slot)
  {
    WindowAfterPush(q, slot);
    InsertAtEnd(Line(q, tr), slot);
  }

  lemma LineTakes(q: Que, tr: Track)
    requires WellFormed(q) && q.dtq != []
    ensures WellFormed(DtqPop(q))
    ensures Line(DtqPop(q), tr.(inHand := tr.inHand + [q.dtq[0]])) == Line(q, tr)
    ensures |tr.inHand| < |Line(q, tr)| && Line(q, tr)[|tr.inHand|] == q.dtq[0]
    ensures Line(DtqPop(q), tr) == Drop(Line(q, tr), |tr.inHand|)
  {
    assert Window(DtqPop(q)) == Window(q);
    hide Window, Drop;
    var rest := tr.carried + Window(q);
    HeadInMiddle(tr.inHand, q.dtq, rest);
    assert Line(q, tr) == tr.inHand + q.dtq + rest;
    assert Line(DtqPop(q), tr) == tr.inHand + q.dtq[1..] + rest;
    assert Line(DtqPop(q), tr.(inHand := tr.inHand + [q.dtq[0]])) == (tr.inHand + [q.dtq[0]]) + q.dtq[1..] + rest;
  }

  lemma HeadInMiddle(a: seq<nat>, b: seq<nat>, c: seq<nat>)
    requires b != []
    ensures (a + [b[0]]) + b[1..] + c == a + b + c
    ensures (a + b + c)[|a|] == b[0] && Drop(a + b + c, |a|) == a + b[1..] + c
  {
  }

  lemma LineReleases(q: Que, tr: Track, slot: nat)
    requires WellFormed(q) && slot in tr.inHand
    ensures var j := IndexIn(tr.inHand, slot);
            && j < |Line(q, tr)| && Line(q, tr)[j] == slot
            && Line(q, tr.(inHand := Without(tr.inHand, slot))) == Drop(Line(q, tr), j)
  {
    hide IndexIn, Window, Without;
    WithoutIs(tr.inHand, slot);
    var rest := q.dtq + (tr.carried + Window(q));
    assert Line(q, tr) == tr.inHand + rest;
  }

  /** A receiver copies out what it holds. */
  lemma StoryDelivers(q: Que, tr: Track, slot: nat)
    requires WellFormed(q) && slot in tr.inHand
    ensures var j := IndexIn(tr.inHand, slot);
            var g := |tr.given|;
            var tr' := tr.(inHand := Without(tr.inHand, slot), given := tr.given + [PlaceOf(tr.place, slot)]);
            && g + j < |Story(q, tr)|
            && Story(q, tr') == Insert(Drop(Story(q, tr), g + j), g, Story(q, tr)[g + j])
            && j < |Line(q, tr)| && Line(q, tr)[j] == slot && Line(q, tr') == Drop(Line(q, tr), j)
  {
    LineReleases(q, tr, slot);
    var j := IndexIn(tr.inHand, slot);
    var line := Line(q, tr);
    var less := tr.(inHand := Without(tr.inHand, slot));
    var tr' := less.(given := tr.given + [PlaceOf(tr.place, slot)]);
    SameAccount(q, less, tr');
    var ps := PlacesOf(tr.place, line);
    assert ps[j] == PlaceOf(tr.place, slot);
    hide IndexIn, Line, PlacesOf, Drop, Insert, Without;
    PlacesDrop(tr.place, line, j);
    WithGiven(tr.given, ps, j, 0);
    InsertBehind(tr.given, Drop(ps, j), ps[j]);
    assert Story(q, tr)[|tr.given| + j] == ps[j];
  }

  lemma InsertBehind(a: seq<nat>, b: seq<nat>, x: nat)
    ensures (a + [x]) + b == Insert(a + b, |a|, x)
  {
  }

  lemma MoveNowhere(s: seq<nat>, p: nat)
    requires p < |s|
    ensures Insert(Drop(s, p), p, s[p]) == s
  {
  }

  // ---------------------------------------------------------------- every step has its effect

  /** What the account must know of a context for its next step. */
  ghost predicate Fitting(q: Que, l: Local, tr: Track)
    requires WellFormed(q)
  {
    && (l.FlushHold? ==> l.slot in tr.carried)
    && (l.RecvCopy? ==> l.slot in tr.inHand)
    && (l.SendPost? || l.IsrPost? || l.ParkPush? ==> l.slot !in Line(q, tr))
  }

  /** A step from `q` to `q'` has this effect on the story. */
  ghost predicate Effects(q: Que, tr: Track, q': Que, tr': Track, f: Effect)
    requires WellFormed(q) && WellFormed(q')
  {
    && Possible(Story(q, tr), f)
    && Story(q', tr') == Apply(Story(q, tr), |tr.accepted|, f)
    && |tr'.accepted| == CountAfter(|tr.accepted|, f)
  }

  lemma PostEffect(q: Que, h: Hist, l: Local, tr: Track)
    requires WellFormed(q) && Fitting(q, l, tr) && (l.SendPost? || l.IsrPost?) && Accepts(q, l)
    ensures WellFormed(DtqPush(q, l.slot))
    ensures Effects(q, tr, DtqPush(q, l.slot), Accept(tr, h, l.slot), EffectOf(q, l, Idle, tr))
  {
    hide Line, Story, PlacesOf, Insert, Window, DtqPush, WellFormed;
    var tr' := Accept(tr, h, l.slot);
    LinePosts(q, tr, l.slot);
    SameAccount(DtqPush(q, l.slot), tr, tr');
    LineLength(q, tr);
    StoryInserts(q, tr, DtqPush(q, l.slot), tr', |tr.inHand| + |q.dtq|, l.slot);
    InsertAtEnd(Story(q, tr), |tr.accepted|);
  }

  lemma SameAccount(q: Que, tr: Track, tr': Track)
    requires WellFormed(q) && tr'.inHand == tr.inHand && tr'.carried == tr.carried
    ensures Line(q, tr') == Line(q, tr)
  {
  }

  lemma LineLength(q: Que, tr: Track)
    requires WellFormed(q)
    ensures |Line(q, tr)| == |tr.inHand| + |q.dtq| + |tr.carried| + q.cnt
    ensures |Story(q, tr)| == |tr.given| + |Line(q, tr)|
  {
  }

  lemma ParkEffect(q: Que, h: Hist, l: Local, tr: Track)
    requires WellFormed(q) && Fitting(q, l, tr) && l.ParkPush? && Accepts(q, l)
    ensures WellFormed(RingPush(q, l.slot))
    ensures Effects(q, tr, RingPush(q, l.slot), Accept(tr, h, l.slot), Gains)
  {
    var tr' := Accept(tr, h, l.slot);
    LineParks(q, tr, l.slot);
    hide Line, PlacesOf, Insert;
    SameAccount(RingPush(q, l.slot), tr, tr');
    StoryInserts(q, tr, RingPush(q, l.slot), tr', |Line(q, tr)|, l.slot);
    LineLength(q, tr);
    InsertAtEnd(Story(q, tr), |tr.accepted|);
  }

  lemma HeadIndex(s: seq<nat>, k: nat)
    requires k in s
    ensures IndexIn(s, k) < |s| && (IndexIn(s, k) == 0 <==> s[0] == k)
  {
  }

  lemma FlushHoldEffect(q: Que, l: Local, l': Local, tr: Track)
    requires WellFormed(q) && Fitting(q, l, tr) && l.FlushHold?
    ensures var q' := if CanSignal(l.c) && |q.dtq| < DTQ_CNT then DtqPush(q, l.slot) else q;
            && WellFormed(q')
            && Effects(q, tr, q', tr.(carried := Without(tr.carried, l.slot)), EffectOf(q, l, l', tr))
  {
    hide Line, Story, PlacesOf, PlaceOf, Insert, Drop, Without, IndexIn, Window, DtqPush;
    var tr' := tr.(carried := Without(tr.carried, l.slot));
    var b, j := |tr.inHand| + |q.dtq|, IndexIn(tr.carried, l.slot);
    LineFlushes(q, tr, l.slot);
    HeadIndex(tr.carried, l.slot);
    LineLength(q, tr);
    if CanSignal(l.c) && |q.dtq| < DTQ_CNT {
      StoryMoves(q, tr, DtqPush(q, l.slot), tr', b + j, b);
      if j == 0 { MoveNowhere(Story(q, tr), |tr.given| + b); }
    } else {
      StoryLoses(q, tr, q, tr', b + j);
    }
  }

  lemma DeliverEffect(q: Que, l: Local, l': Local, tr: Track)
    requires WellFormed(q) && Fitting(q, l, tr) && l.RecvCopy?
    ensures Effects(q, tr, q,
                    tr.(inHand := Without(tr.inHand, l.slot), given := tr.given + [PlaceOf(tr.place, l.slot)]),
                    EffectOf(q, l, l', tr))
  {
    hide Line, Story, PlacesOf, PlaceOf, Insert, Drop, Without, IndexIn, Window;
    StoryDelivers(q, tr, l.slot);
    HeadIndex(tr.inHand, l.slot);
    LineLength(q, tr);
    if IndexIn(tr.inHand, l.slot) == 0 { MoveNowhere(Story(q, tr), |tr.given|); }
  }

  lemma PopEffect(q: Que, tr: Track)
    requires WellFormed(q) && q.cnt > 0
    ensures WellFormed(RingPop(q)) && q.rd < |q.ring|
    ensures Effects(q, tr, RingPop(q), tr.(carried := tr.carried + [q.ring[q.rd]]), Stays)
  {
    LinePops(q, tr);
  }

  lemma TakeEffect(q: Que, tr: Track)
    requires WellFormed(q) && q.dtq != []
    ensures WellFormed(DtqPop(q))
    ensures Effects(q, tr, DtqPop(q), tr.(inHand := tr.inHand + [q.dtq[0]]), Stays)
    ensures Effects(q, tr, DtqPop(q), tr, Loses(|tr.given| + |tr.inHand|))
  {
    LineTakes(q, tr);
    hide Line, Drop;
    StoryLoses(q, tr, DtqPop(q), tr, |tr.inHand|);
  }

  /** The step touches neither the data queue nor the ring, and the account not either. */
  predicate Aside(q: Que, l: Local) {
    match l
    case Flushing(_, _) => q.cnt == 0 || q.rd >= |q.ring|
    case FlushHold(_, _, _) => false
    case SendPost(_, _) => !Accepts(q, l)
    case IsrPost(_, _) => !Accepts(q, l)
    case ParkPush(_, _) => !Accepts(q, l)
    case Receiving(c, _) => !CanPoll(c) || q.dtq == []
    case RecvCopy(_, _) => false
    case Resetting(c) => !CanPoll(c) || q.dtq == []
    case _ => true
  }

  lemma AsideStep(q: Que, h: Hist, l: Local, a: Act, tr: Track)
    requires Aside(q, l)
    ensures var o := Step(q, h, l, a);
            && o.q.dtq == q.dtq && o.q.depth == q.depth && o.q.cnt == q.cnt && o.q.rd == q.rd && o.q.ring == q.ring
            && !o.l.FlushHold? && !o.l.RecvCopy? && Watch(q, h, l, o.l, tr) == tr
  {
    hide Settle, Load, Throw, Deliver;
  }

  /** Every step has the effect that EffectOf says. */
  lemma StepEffect(q: Que, h: Hist, l: Local, a: Act, tr: Track)
    requires WellFormed(q) && Fitting(q, l, tr) && WellFormed(Step(q, h, l, a).q)
    ensures var o := Step(q, h, l, a);
            Effects(q, tr, o.q, Watch(q, h, l, o.l, tr), EffectOf(q, l, o.l, tr))
  {
    hide Effects, Fitting, Settle, Load, Throw, Deliver, Without, IndexIn;
    var o := Step(q, h, l, a);
    if Aside(q, l) {
      AsideStep(q, h, l, a, tr);
      SameLine(q, o.q, tr);
      AsideEffect(q, l, o.q, o.l, tr);
    } else {
      match l
      case Flushing(_, _) => PopEffect(q, tr);
      case FlushHold(_, _, _) => FlushHoldEffect(q, l, o.l, tr);
      case SendPost(_, _) => PostEffect(q, h, l, tr);
      case IsrPost(_, _) => PostEffect(q, h, l, tr);
      case ParkPush(_, _) => ParkEffect(q, h, l, tr);
      case Receiving(_, _) => TakeEffect(q, tr);
      case RecvCopy(_, _) => DeliverEffect(q, l, o.l, tr);
      case Resetting(_) => TakeEffect(q, tr);
      case _ =>
    }
  }

  lemma AsideEffect(q: Que, l: Local, q': Que, l': Local, tr: Track)
    requires WellFormed(q) && WellFormed(q') && Aside(q, l) && Line(q', tr) == Line(q, tr)
    ensures Effects(q, tr, q', tr, EffectOf(q, l, l', tr))
  {
  }

  // ---------------------------------------------------------------- the account fits the contexts

  /** The slot in the hands of a flush (`flush`) or of a receiver. */
  function SlotIn(l: Local, flush: bool): seq<nat> {
    if flush then (if l.FlushHold? then [l.slot] else []) else (if l.RecvCopy? then [l.slot] else [])
  }

  ghost predicate HeldBySome(ts: seq<Local>, flush: bool, k: nat) {
    exists i :: 0 <= i < |ts| && SlotIn(ts[i], flush) == [k]
  }

  /** `xs` lists the slots in such hands, each once. */
  ghost predicate Mirrors(ts: seq<Local>, flush: bool, xs: seq<nat>) {
    && NoDup(xs)
    && (forall i :: 0 <= i < |ts| && SlotIn(ts[i], flush) != [] ==> SlotIn(ts[i], flush)[0] in xs)
    && (forall k :: k in xs ==> HeldBySome(ts, flush, k))
  }

  lemma WithoutIs(xs: seq<nat>, k: nat)
    requires k in xs
    ensures IndexIn(xs, k) < |xs| && xs[IndexIn(xs, k)] == k && Without(xs, k) == Drop(xs, IndexIn(xs, k))
  {
  }

  lemma DropKeeps(xs: seq<nat>, j: nat, i: nat)
    requires j < |xs| && i < |xs| && i != j
    ensures xs[i] in Drop(xs, j)
  {
    DropAt(xs, j);
    assert Drop(xs, j)[if i < j then i else i - 1] == xs[i];
  }

  lemma WithoutHas(xs: seq<nat>, k: nat)
    requires NoDup(xs) && k in xs
    ensures NoDup(Without(xs, k)) && k !in Without(xs, k)
    ensures forall x :: x != k ==> (x in Without(xs, k) <==> x in xs)
  {
    hide Without, Drop, IndexIn;
    WithoutIs(xs, k);
    var j := IndexIn(xs, k);
    DropAt(xs, j);
    DropMembers(xs, j);
    forall x | x != k && x in xs
      ensures x in Drop(xs, j)
    {
      var i :| 0 <= i < |xs| && xs[i] == x;
      DropKeeps(xs, j, i);
    }
  }

  lemma MirrorsRemove(ts: seq<Local>, i: nat, l: Local, flush: bool, xs: seq<nat>, k: nat)
    requires Mirrors(ts, flush, xs) && i < |ts| && SlotIn(ts[i], flush) == [k] && SlotIn(l, flush) == []
    requires forall j :: 0 <= j < |ts| && j != i ==> SlotIn(ts[j], flush) != [k]
    ensures Mirrors(ts[i := l], flush, Without(xs, k))
  {
    hide SlotIn, Without, IndexIn;
    WithoutHas(xs, k);
    var us := ts[i := l];
    forall x | x in Without(xs, k)
      ensures HeldBySome(us, flush, x)
    {
      var j :| 0 <= j < |ts| && SlotIn(ts[j], flush) == [x];
      assert us[j] == ts[j];
    }
    forall j | 0 <= j < |us| && SlotIn(us[j], flush) != []
      ensures SlotIn(us[j], flush)[0] in Without(xs, k)
    {
      assert j != i && us[j] == ts[j];
      OneSlot(us[j], flush);
    }
  }

  lemma OneSlot(l: Local, flush: bool)
    requires SlotIn(l, flush) != []
    ensures SlotIn(l, flush) == [SlotIn(l, flush)[0]]
  {
  }

  lemma MirrorsAdd(ts: seq<Local>, i: nat, l: Local, flush: bool, xs: seq<nat>, k: nat)
    requires Mirrors(ts, flush, xs) && i < |ts| && SlotIn(ts[i], flush) == [] && SlotIn(l, flush) == [k] && k !in xs
    ensures Mirrors(ts[i := l], flush, xs + [k])
  {
    hide SlotIn;
    var us := ts[i := l];
    forall x | x in xs + [k]
      ensures HeldBySome(us, flush, x)
    {
      if x == k {
        assert SlotIn(us[i], flush) == [k];
      } else {
        var j :| 0 <= j < |ts| && SlotIn(ts[j], flush) == [x];
        assert us[j] == ts[j];
      }
    }
  }

  lemma MirrorsSame(ts: seq<Local>, i: nat, l: Local, flush: bool, xs: seq<nat>)
    requires Mirrors(ts, flush, xs) && i < |ts| && SlotIn(ts[i], flush) == [] == SlotIn(l, flush)
    ensures Mirrors(ts[i := l], flush, xs)
  {
    hide SlotIn;
    var us := ts[i := l];
    forall x | x in xs
      ensures HeldBySome(us, flush, x)
    {
      var j :| 0 <= j < |ts| && SlotIn(ts[j], flush) == [x];
      assert us[j] == ts[j];
    }
  }

  // ---------------------------------------------------------------- a slot is in one place only

  /** How often a holding has slot `k`. */
  function HeldTimes(H: Holding, k: nat): nat {
    H.blank[k] + H.loaded[k] + H.transit[k]
  }

  lemma PlusHeld(a: Holding, b: Holding, k: nat)
    ensures HeldTimes(Plus(a, b), k) == HeldTimes(a, k) + HeldTimes(b, k)
  {
  }

  lemma SlotHeld(l: Local, k: nat)
    requires SlotOf(l) == [k]
    ensures HeldTimes(Hold(l), k) == 1
  {
  }

  lemma {:induction false} TotalHolds(ts: seq<Local>, j: nat, k: nat)
    requires j < |ts| && SlotOf(ts[j]) == [k]
    ensures HeldTimes(Total(ts), k) >= 1
  {
    hide Plus, Hold, SlotOf, HeldTimes;
    var n := |ts| - 1;
    PlusHeld(Total(ts[..n]), Hold(ts[n]), k);
    if j == n { SlotHeld(ts[n], k); } else { TotalHolds(ts[..n], j, k); }
  }

  lemma {:induction false} RestHolds(ts: seq<Local>, i: nat, j: nat, k: nat)
    requires i < |ts| && j < |ts| && i != j && SlotOf(ts[j]) == [k]
    ensures HeldTimes(Rest(ts, i), k) >= 1
  {
    hide Plus, Hold, SlotOf, HeldTimes;
    var n := |ts| - 1;
    if i == n {
      assert ts[..i][j] == ts[j];
      TotalHolds(ts[..i], j, k);
    } else {
      PlusHeld(Rest(ts[..n], i), Hold(ts[n]), k);
      if j == n { SlotHeld(ts[n], k); } else { RestHolds(ts[..n], i, j, k); }
    }
  }

  lemma OnePlace(q: Que, R: Holding, l: Local, k: nat)
    requires WellFormed(q) && Partition(q, Plus(R, Hold(l))) && SlotOf(l) == [k]
    ensures k !in q.dtq && k !in Window(q) && HeldTimes(R, k) == 0
  {
    SlotHeld(l, k);
    assert Tally(q, Plus(R, Hold(l)), k) <= 1;
    assert multiset(q.dtq)[k] == 0 && multiset(Window(q))[k] == 0;
  }

  /** What one context holds is neither in the data queue, nor in the ring, nor in other hands. */
  lemma HeldOnce(s: Sys, i: nat, k: nat)
    requires Inv(s) && i < |s.ts| && SlotOf(s.ts[i]) == [k]
    ensures WellFormed(s.q) && k !in s.q.dtq && k !in Window(s.q)
    ensures forall j :: 0 <= j < |s.ts| && j != i ==> SlotOf(s.ts[j]) != [k]
  {
    hide Total, Rest, Hold, SlotOf, Plus, HeldTimes, Partition;
    TotalSplits(s.ts, i, s.ts[i]);
    assert s.ts[i := s.ts[i]] == s.ts;
    OnePlace(s.q, Rest(s.ts, i), s.ts[i], k);
    forall j | 0 <= j < |s.ts| && j != i
      ensures SlotOf(s.ts[j]) != [k]
    {
      if SlotOf(s.ts[j]) == [k] { RestHolds(s.ts, i, j, k); }
    }
  }

  lemma HandsAreSlots(l: Local, flush: bool)
    requires SlotIn(l, flush) != []
    ensures SlotOf(l) == SlotIn(l, flush)
  {
  }

  /** The account of both kinds of hands. */
  ghost predicate Fits(ts: seq<Local>, tr: Track) {
    Mirrors(ts, true, tr.carried) && Mirrors(ts, false, tr.inHand)
  }

  /** What one context holds and posts is not in the hands of others. */
  lemma FittingFor(s: Sys, tr: Track, i: nat)
    requires Inv(s) && WellFormed(s.q) && Fits(s.ts, tr) && i < |s.ts|
    ensures Fitting(s.q, s.ts[i], tr)
  {
    hide Inv, SlotOf;
    var l := s.ts[i];
    if l.SendPost? || l.IsrPost? || l.ParkPush? {
      assert SlotOf(l) == [l.slot] by { SenderSlot(l); }
      HeldOnce(s, i, l.slot);
      NotInHands(s.ts, true, tr.carried, i, l.slot);
      NotInHands(s.ts, false, tr.inHand, i, l.slot);
    } else if l.FlushHold? {
      assert SlotIn(l, true) == [l.slot];
    } else if l.RecvCopy? {
      assert SlotIn(l, false) == [l.slot];
    }
  }

  lemma SenderSlot(l: Local)
    requires l.SendPost? || l.IsrPost? || l.ParkPush?
    ensures SlotOf(l) == [l.slot] && SlotIn(l, true) == [] == SlotIn(l, false)
  {
  }

  lemma NotInHands(ts: seq<Local>, flush: bool, xs: seq<nat>, i: nat, k: nat)
    requires Mirrors(ts, flush, xs) && i < |ts| && SlotIn(ts[i], flush) == []
    requires forall j :: 0 <= j < |ts| && j != i ==> SlotOf(ts[j]) != [k]
    ensures k !in xs
  {
    hide SlotOf, SlotIn;
    if k in xs {
      var j :| 0 <= j < |ts| && SlotIn(ts[j], flush) == [k];
      HandsAreSlots(ts[j], flush);
    }
  }

  /** Which hands a step fills or empties. */
  lemma NextHands(q: Que, h: Hist, l: Local, a: Act)
    ensures var l' := Step(q, h, l, a).l;
            && (Accepts(q, l) || l.RecvCopy? || l.FlushHold? ==> SlotIn(l', true) == [] == SlotIn(l', false))
            && (l'.RecvCopy? ==> l.Receiving? && q.dtq != [] && l'.slot == q.dtq[0])
            && (l'.FlushHold? ==> l.Flushing? && q.cnt > 0 && q.rd < |q.ring| && l'.slot == q.ring[q.rd])
  {
    hide Settle, Load, Throw, Deliver;
  }

  /** The head of the data queue, or of the ring, is in no hands. */
  lemma HeadIsNew(s: Sys, flush: bool, xs: seq<nat>, k: nat)
    requires Inv(s) && WellFormed(s.q) && Mirrors(s.ts, flush, xs) && (k in s.q.dtq || k in Window(s.q))
    ensures k !in xs
  {
    hide Inv, SlotOf, SlotIn, Window;
    if k in xs {
      var j :| 0 <= j < |s.ts| && SlotIn(s.ts[j], flush) == [k];
      HandsAreSlots(s.ts[j], flush);
      HeldOnce(s, j, k);
    }
  }

  lemma RingHeadInWindow(q: Que)
    requires WellFormed(q) && q.cnt > 0
    ensures q.rd < |q.ring| && q.ring[q.rd] in Window(q)
  {
    WindowAfterPop(q);
    assert Window(q)[0] == q.ring[q.rd];
  }

  lemma FitsAfter(s: Sys, tr: Track, i: nat, a: Act)
    requires Inv(s) && WellFormed(s.q) && Fits(s.ts, tr) && i < |s.ts|
    ensures var l' := Step(s.q, s.h, s.ts[i], a).l;
            Fits(s.ts[i := l'], Watch(s.q, s.h, s.ts[i], l', tr))
  {
    hide Inv, SlotOf, Step, Mirrors, Without;
    var l := s.ts[i];
    var l' := Step(s.q, s.h, l, a).l;
    NextHands(s.q, s.h, l, a);
    if Accepts(s.q, l) {
      MirrorsSame(s.ts, i, l', true, tr.carried);
      MirrorsSame(s.ts, i, l', false, tr.inHand);
    } else if l.RecvCopy? {
      HandOf(s, i, false);
      MirrorsSame(s.ts, i, l', true, tr.carried);
      MirrorsRemove(s.ts, i, l', false, tr.inHand, l.slot);
    } else if l.FlushHold? {
      HandOf(s, i, true);
      MirrorsRemove(s.ts, i, l', true, tr.carried, l.slot);
      MirrorsSame(s.ts, i, l', false, tr.inHand);
    } else if l'.RecvCopy? {
      HeadIsNew(s, false, tr.inHand, l'.slot);
      MirrorsSame(s.ts, i, l', true, tr.carried);
      MirrorsAdd(s.ts, i, l', false, tr.inHand, l'.slot);
    } else if l'.FlushHold? {
      RingHeadInWindow(s.q);
      HeadIsNew(s, true, tr.carried, l'.slot);
      MirrorsAdd(s.ts, i, l', true, tr.carried, l'.slot);
      MirrorsSame(s.ts, i, l', false, tr.inHand);
    } else {
      MirrorsSame(s.ts, i, l', true, tr.carried);
      MirrorsSame(s.ts, i, l', false, tr.inHand);
    }
  }

  /** No other hands hold what these hold. */
  lemma HandOf(s: Sys, i: nat, flush: bool)
    requires Inv(s) && i < |s.ts| && SlotIn(s.ts[i], flush) != []
    ensures forall j :: 0 <= j < |s.ts| && j != i ==> SlotIn(s.ts[j], flush) != SlotIn(s.ts[i], flush)
  {
    hide Inv, SlotOf, SlotIn;
    OneSlot(s.ts[i], flush);
    var k := SlotIn(s.ts[i], flush)[0];
    HandsAreSlots(s.ts[i], flush);
    HeldOnce(s, i, k);
    forall j | 0 <= j < |s.ts| && j != i
      ensures SlotIn(s.ts[j], flush) != SlotIn(s.ts[i], flush)
    {
      if SlotIn(s.ts[j], flush) != [] { HandsAreSlots(s.ts[j], flush); }
    }
  }

  // ---------------------------------------------------------------- places name messages

  /** The account knows which message slot `k` carries, and the record agrees. */
  ghost predicate NamedSlot(h: Hist, tr: Track, k: nat) {
    && k in tr.place && tr.place[k] < |tr.accepted|
    && tr.accepted[tr.place[k]] < |h.fate| && h.fate[tr.accepted[tr.place[k]]] == Queued(k)
  }

  ghost predicate GivenNamed(h: Hist, tr: Track) {
    && |tr.given| == |h.deliv|
    && forall j :: 0 <= j < |tr.given| ==>
         tr.given[j] < |tr.accepted| && tr.accepted[tr.given[j]] == h.deliv[j].id
  }

  ghost predicate Named(q: Que, h: Hist, tr: Track)
    requires WellFormed(q)
  {
    GivenNamed(h, tr) && forall k :: k in Line(q, tr) ==> NamedSlot(h, tr, k)
  }

  /** What the record says of loaded slots, whatever the pool holds. */
  ghost predicate Booked(h: Hist) {
    && (forall k :: k in h.slotId ==>
          h.slotId[k] < |h.fate| && (h.fate[h.slotId[k]] == Held(k) || h.fate[h.slotId[k]] == Queued(k)))
    && (forall id :: 0 <= id < |h.fate| && h.fate[id].Queued? ==>
          h.fate[id].slot in h.slotId && h.slotId[h.fate[id].slot] == id)
  }

  lemma GoodIsBooked(q: Que, h: Hist, H: Holding)
    requires Good(q, h, H)
    ensures Booked(h) && !h.fault && WellFormed(q)
  {
  }

  lemma SettleStays(h: Hist, slot: nat, f: Fate, c: Ctx, bytes: Msg, tr: Track, k: nat)
    requires Booked(h) && NamedSlot(h, tr, k) && k != slot
    ensures NamedSlot(Settle(h, slot, f), tr, k)
    ensures NamedSlot(Throw(h, slot, c), tr, k) && NamedSlot(Deliver(h, slot, bytes), tr, k)
  {
  }

  lemma LoadStays(h: Hist, slot: nat, m: Msg, tr: Track, k: nat)
    requires NamedSlot(h, tr, k)
    ensures NamedSlot(Load(h, slot, m), tr, k)
  {
  }

  /** The slot whose message the step lets go, or has just accepted. */
  function Touched(q: Que, l: Local): seq<nat> {
    match l
    case FlushHold(c, slot, _) => if CanSignal(c) && |q.dtq| < DTQ_CNT then [] else [slot]
    case SendPost(_, slot) => [slot]
    case IsrPost(_, slot) => [slot]
    case ParkPush(_, slot) => [slot]
    case RecvCopy(_, slot) => [slot]
    case Resetting(c) => if CanPoll(c) && q.dtq != [] then [q.dtq[0]] else []
    case _ => []
  }

  lemma FatesStay(q: Que, h: Hist, l: Local, a: Act, tr: Track, k: nat)
    requires Booked(h) && NamedSlot(h, tr, k) && k !in Touched(q, l)
    ensures NamedSlot(Step(q, h, l, a).h, tr, k)
  {
    hide Booked, NamedSlot, Settle, Load, Throw, Deliver;
    FaultStays(h, tr, k);
    match l
    case FlushHold(c, slot, _) =>
      if !(CanSignal(c) && |q.dtq| < DTQ_CNT) { SettleStays(h, slot, Discarded, c, [], tr, k); }
    case SendPost(c, slot) => QueuesOrRefuses(h, slot, c, tr, k);
    case IsrPost(c, slot) => QueuesOrRefuses(h, slot, c, tr, k);
    case ParkPush(c, slot) => QueuesOrRefuses(h, slot, c, tr, k);
    case RecvCopy(c, slot) => if slot < |q.pool| { SettleStays(h, slot, Discarded, c, q.pool[slot], tr, k); }
    case Resetting(c) => if CanPoll(c) && q.dtq != [] { SettleStays(h, q.dtq[0], Discarded, c, [], tr, k); }
    case SendCopy(c, slot, m) => LoadStays(h, slot, m, tr, k);
    case ParkAlloc(c, m) => if q.free != [] { LoadStays(h, TopSlot(q), m, tr, k); }
    case IsrDebt(c, m) => if q.free != [] { LoadStays(h, TopSlot(q), m, tr, k); }
    case _ =>
  }

  lemma FaultStays(h: Hist, tr: Track, k: nat)
    requires NamedSlot(h, tr, k)
    ensures NamedSlot(Fault(h), tr, k) && forall lost: nat :: NamedSlot(h.(lost := lost), tr, k)
  {
  }

  lemma QueuesOrRefuses(h: Hist, slot: nat, c: Ctx, tr: Track, k: nat)
    requires Booked(h) && NamedSlot(h, tr, k) && k != slot
    ensures NamedSlot(Settle(h, slot, Queued(slot)), tr, k) && NamedSlot(Settle(h, slot, Refused), tr, k)
  {
    SettleStays(h, slot, Queued(slot), c, [], tr, k);
    SettleStays(h, slot, Refused, c, [], tr, k);
  }

  /** Different places belong to different slots. */
  lemma LineNoDup(q: Que, tr: Track, count: nat)
    requires WellFormed(q) && Distinctly(Story(q, tr), count)
    ensures NoDup(Line(q, tr))
  {
    var line := Line(q, tr);
    var g := |tr.given|;
    forall i, j | 0 <= i < j < |line|
      ensures line[i] != line[j]
    {
      assert Story(q, tr)[g + i] == PlaceOf(tr.place, line[i]) && Story(q, tr)[g + j] == PlaceOf(tr.place, line[j]);
    }
  }

  lemma DropMembers(s: seq<nat>, p: nat)
    requires NoDup(s) && p < |s|
    ensures forall k :: k in Drop(s, p) ==> k in s && k != s[p]
  {
    DropAt(s, p);
  }

  lemma InsertMembers(s: seq<nat>, p: nat, x: nat)
    requires p <= |s|
    ensures forall k :: k in Insert(s, p, x) ==> k in s || k == x
  {
  }

  /** After a step the line has no other slots than before, but for one just accepted, and none whose
      message the step let go. */
  lemma LineWithin(q: Que, h: Hist, l: Local, a: Act, tr: Track)
    requires WellFormed(q) && Fitting(q, l, tr) && WellFormed(Step(q, h, l, a).q) && NoDup(Line(q, tr))
    ensures var o := Step(q, h, l, a);
            forall k :: k in Line(o.q, Watch(q, h, l, o.l, tr)) ==>
              (k in Line(q, tr) && k !in Touched(q, l)) || (Accepts(q, l) && k == l.slot)
  {
    hide Line, Settle, Load, Throw, Deliver, Without, IndexIn, Drop, Insert, NoDup, Window;
    var o := Step(q, h, l, a);
    var line := Line(q, tr);
    if Aside(q, l) {
      AsideStep(q, h, l, a, tr);
      SameLine(q, o.q, tr);
    } else {
      match l
      case Flushing(_, _) => LinePops(q, tr);
      case FlushHold(_, slot, _) =>
        var b, j := |tr.inHand| + |q.dtq|, IndexIn(tr.carried, slot);
        LineFlushes(q, tr, slot);
        DropMembers(line, b + j);
        DropAt(line, b + j);
        InsertMembers(Drop(line, b + j), b, slot);
      case SendPost(_, slot) => PostWithin(q, h, l, tr);
      case IsrPost(_, slot) => PostWithin(q, h, l, tr);
      case ParkPush(_, slot) =>
        LineParks(q, tr, slot);
        SameAccount(o.q, tr, Accept(tr, h, slot));
        InsertMembers(line, |line|, slot);
      case Receiving(_, _) => LineTakes(q, tr);
      case RecvCopy(_, slot) =>
        StoryDelivers(q, tr, slot);
        DropMembers(line, IndexIn(tr.inHand, slot));
      case Resetting(_) =>
        LineTakes(q, tr);
        DropMembers(line, |tr.inHand|);
      case _ =>
    }
  }

  lemma PostWithin(q: Que, h: Hist, l: Local, tr: Track)
    requires WellFormed(q) && Fitting(q, l, tr) && (l.SendPost? || l.IsrPost?) && Accepts(q, l)
    ensures WellFormed(DtqPush(q, l.slot))
    ensures forall k :: k in Line(DtqPush(q, l.slot), Accept(tr, h, l.slot)) ==> k in Line(q, tr) || k == l.slot
    ensures l.slot !in Line(q, tr)
  {
    hide Line, Insert;
    LinePosts(q, tr, l.slot);
    SameAccount(DtqPush(q, l.slot), tr, Accept(tr, h, l.slot));
    LineLength(q, tr);
    InsertMembers(Line(q, tr), |tr.inHand| + |q.dtq|, l.slot);
  }

  lemma AcceptNames(q: Que, h: Hist, l: Local, a: Act, tr: Track)
    requires Booked(h) && Accepts(q, l) && !Step(q, h, l, a).h.fault && !h.fault
    ensures NamedSlot(Step(q, h, l, a).h, Accept(tr, h, l.slot), l.slot)
    ensures Step(q, h, l, a).h.deliv == h.deliv
  {
  }

  lemma AcceptKeepsNames(h: Hist, h': Hist, tr: Track, slot: nat, k: nat)
    requires NamedSlot(h', tr, k) && k != slot
    ensures NamedSlot(h', Accept(tr, h, slot), k)
  {
  }

  lemma DeliverNames(q: Que, h: Hist, c: Ctx, slot: nat, tr: Track)
    requires Booked(h) && GivenNamed(h, tr) && NamedSlot(h, tr, slot) && !h.fault
    requires !StepRecvCopy(q, h, c, slot).h.fault
    ensures GivenNamed(StepRecvCopy(q, h, c, slot).h, tr.(given := tr.given + [PlaceOf(tr.place, slot)]))
  {
    assert slot in h.slotId && h.slotId[slot] == tr.accepted[tr.place[slot]];
  }

  lemma OthersDeliverNothing(q: Que, h: Hist, l: Local, a: Act)
    requires !l.RecvCopy?
    ensures Step(q, h, l, a).h.deliv == h.deliv
  {
  }

  lemma NamedAfter(q: Que, h: Hist, l: Local, a: Act, tr: Track)
    requires WellFormed(q) && Fitting(q, l, tr) && Booked(h) && !h.fault && Named(q, h, tr) && NoDup(Line(q, tr))
    requires WellFormed(Step(q, h, l, a).q) && !Step(q, h, l, a).h.fault
    ensures var o := Step(q, h, l, a); Named(o.q, o.h, Watch(q, h, l, o.l, tr))
  {
    var o := Step(q, h, l, a);
    var tr' := Watch(q, h, l, o.l, tr);
    assert l.RecvCopy? ==> l.slot in Line(q, tr);
    hide Step, Line, Booked, NamedSlot, Fitting, Touched, Accept, Without;
    LineWithin(q, h, l, a, tr);
    forall k | k in Line(o.q, tr')
      ensures NamedSlot(o.h, tr', k)
    {
      if Accepts(q, l) && k == l.slot {
        AcceptNames(q, h, l, a, tr);
      } else {
        FatesStay(q, h, l, a, tr, k);
        if Accepts(q, l) {
          AcceptKeepsNames(h, o.h, tr, l.slot, k);
        } else {
          SameNames(o.h, tr, tr', k);
        }
      }
    }
    GivenAfter(q, h, l, a, tr);
  }

  lemma SameNames(h: Hist, tr: Track, tr': Track, k: nat)
    requires NamedSlot(h, tr, k) && tr'.place == tr.place && tr'.accepted == tr.accepted
    ensures NamedSlot(h, tr', k)
  {
  }

  lemma GivenAfter(q: Que, h: Hist, l: Local, a: Act, tr: Track)
    requires Booked(h) && !h.fault && GivenNamed(h, tr) && (l.RecvCopy? ==> NamedSlot(h, tr, l.slot))
    requires !Step(q, h, l, a).h.fault
    ensures GivenNamed(Step(q, h, l, a).h, Watch(q, h, l, Step(q, h, l, a).l, tr))
  {
    hide Booked, NamedSlot, Without;
    if l.RecvCopy? {
      assert Step(q, h, l, a) == StepRecvCopy(q, h, l.c, l.slot);
      hide Step, StepRecvCopy;
      DeliverNames(q, h, l.c, l.slot, tr);
    } else {
      OthersDeliverNothing(q, h, l, a);
      hide Step;
    }
  }

  // ---------------------------------------------------------------- along a run

  /** The account fits the state. */
  ghost predicate Watched(s: Sys, tr: Track) {
    && WellFormed(s.q)
    && Fits(s.ts, tr)
    && Named(s.q, s.h, tr)
    && Distinctly(Story(s.q, tr), |tr.accepted|)
  }

  predicate OvertakesAt(s: Sys, tr: Track, e: Event) {
    e.who < |s.ts| && Overtakes(s.q, s.ts[e.who], tr)
  }

  lemma InvIsGood(s: Sys)
    requires Inv(s)
    ensures WellFormed(s.q) && !s.h.fault && Booked(s.h)
  {
    GoodIsBooked(s.q, s.h, Total(s.ts));
  }

  /** Every step keeps the account fitting, and has its effect on the story. */
  lemma WatchedNext(s: Sys, tr: Track, e: Event) returns (f: Effect)
    requires Inv(s) && Watched(s, tr)
    ensures Watched(Next(s, e), WatchNext(s, tr, e)) && WellFormed(Next(s, e).q)
    ensures Effects(s.q, tr, Next(s, e).q, WatchNext(s, tr, e), f) && (Passing(f) <==> OvertakesAt(s, tr, e))
  {
    hide Inv, Step, Fitting, Fits, Line, Story, Named, Booked, EffectOf, Overtakes, Watch;
    InvIsGood(s);
    if e.who < |s.ts| {
      var l := s.ts[e.who];
      var o := Step(s.q, s.h, l, e.act);
      NextKeeps(s, e);
      InvIsGood(Next(s, e));
      FittingFor(s, tr, e.who);
      StepEffect(s.q, s.h, l, e.act, tr);
      f := EffectOf(s.q, l, o.l, tr);
      PassingIsOvertaking(s.q, l, o.l, tr);
      ApplyIsDistinct(Story(s.q, tr), |tr.accepted|, f);
      LineNoDup(s.q, tr, |tr.accepted|);
      NamedAfter(s.q, s.h, l, e.act, tr);
      FitsAfter(s, tr, e.who, e.act);
    } else {
      f := Stays;
    }
  }

  /** In every reachable state of a run, a step is one of a first-in first-out queue, leaving the messages
      on their way as they were, or letting one join at the end, or letting one go, if and only if it
      overtakes nothing. */
  lemma StepIsFifoExactly(s: Sys, tr: Track, e: Event)
    requires Inv(s) && Watched(s, tr)
    ensures WellFormed(s.q) && WellFormed(Next(s, e).q)
    ensures FifoStep(Story(s.q, tr), Story(Next(s, e).q, WatchNext(s, tr, e)), |tr.accepted|)
            <==> !OvertakesAt(s, tr, e)
  {
    var f := WatchedNext(s, tr, e);
    hide Inv, Story, Next, WatchNext, OvertakesAt, FifoStep;
    FifoStepExactly(Story(s.q, tr), |tr.accepted|, f);
  }

  lemma StartIsWatched(ring: seq<nat>, pool: seq<Msg>, n: nat)
    requires |ring| == |pool| <= DTQ_CNT
    ensures Watched(Start(ring, pool, n), NO_TRACK) && Story(Start(ring, pool, n).q, NO_TRACK) == []
  {
    var s := Start(ring, pool, n);
    FreshPlaces(ring, pool);
    assert Window(s.q) == [];
    assert Line(s.q, NO_TRACK) == [];
    assert Mirrors(s.ts, true, []) && Mirrors(s.ts, false, []);
  }

  lemma {:induction false} RunIsWatched(ring: seq<nat>, pool: seq<Msg>, n: nat, es: seq<Event>)
    requires |ring| == |pool| <= DTQ_CNT
    ensures var s := Run(Start(ring, pool, n), es);
            Inv(s) && Watched(s, WatchRun(Start(ring, pool, n), es))
  {
    hide Inv, Watched, Next, WatchNext, Start;
    StartIsGood(ring, pool, n);
    if es == [] {
      StartIsWatched(ring, pool, n);
    } else {
      var before, e := es[..|es| - 1], es[|es| - 1];
      RunIsWatched(ring, pool, n, before);
      var s := Run(Start(ring, pool, n), before);
      var f := WatchedNext(s, WatchRun(Start(ring, pool, n), before), e);
      NextKeeps(s, e);
    }
  }

  // ---------------------------------------------------------------- who has been accepted

  /** The account lists, once each, the messages that are no longer in the hands of their send. */
  ghost predicate AcceptedOk(h: Hist, tr: Track) {
    && NoDup(tr.accepted)
    && (forall i :: 0 <= i < |tr.accepted| ==> tr.accepted[i] < |h.fate|)
    && (forall id :: 0 <= id < |h.fate| ==> (id in tr.accepted <==> !h.fate[id].Held?))
  }

  /** A send still holds its message when it posts it; a message that a step lets go had been accepted. */
  lemma TouchedFate(q: Que, h: Hist, l: Local, R: Holding)
    requires Good(q, h, Plus(R, Hold(l)))
    ensures forall k :: k in Touched(q, l) ==>
              && k in h.slotId && h.slotId[k] < |h.fate|
              && (h.fate[h.slotId[k]].Held? <==> l.SendPost? || l.IsrPost? || l.ParkPush?)
    ensures |h.fate| == |h.log|
  {
    var H := Plus(R, Hold(l));
    hide Past, Ledger;
    forall k | k in Touched(q, l)
      ensures k in h.slotId && h.slotId[k] < |h.fate|
      ensures h.fate[h.slotId[k]].Held? <==> l.SendPost? || l.IsrPost? || l.ParkPush?
    {
      assert Tally(q, H, k) == if k < q.depth then 1 else 0;
      if l.SendPost? || l.IsrPost? || l.ParkPush? {
        assert k in LoadedIn(q, H);
      } else {
        assert multiset(q.dtq)[k] > 0 || H.transit[k] > 0;
        assert k !in LoadedIn(q, H);
      }
    }
  }

  lemma SettleAccepted(h: Hist, slot: nat, f: Fate, tr: Track)
    requires AcceptedOk(h, tr) && slot in h.slotId && h.slotId[slot] < |h.fate| && !f.Held?
    ensures !h.fate[h.slotId[slot]].Held? ==> AcceptedOk(Settle(h, slot, f), tr)
    ensures h.fate[h.slotId[slot]].Held? ==> AcceptedOk(Settle(h, slot, f), Accept(tr, h, slot))
  {
  }

  lemma LoadAccepted(h: Hist, slot: nat, m: Msg, tr: Track)
    requires AcceptedOk(h, tr) && |h.fate| == |h.log|
    ensures AcceptedOk(Load(h, slot, m), tr)
  {
  }

  lemma OtherFields(h: Hist, h': Hist, tr: Track, tr': Track)
    requires AcceptedOk(h, tr) && h'.fate == h.fate && tr'.accepted == tr.accepted
    ensures AcceptedOk(h', tr')
  {
  }

  /** What holds a message finds room to post it. */
  lemma PostersAccept(q: Que, h: Hist, l: Local, R: Holding)
    requires Good(q, h, Plus(R, Hold(l))) && LocalOk(l)
    ensures l.SendPost? || l.ParkPush? || (l.IsrPost? && l.c.mie) ==> Accepts(q, l)
    ensures l.FlushHold? ==> |q.dtq| < DTQ_CNT
    ensures l.RecvCopy? ==> l.slot < |q.pool|
  {
    hide Cargo, Past, Ledger;
    if l.SendPost? || l.ParkPush? || l.IsrPost? || l.FlushHold? || l.RecvCopy? {
      HeldSlot(q, Plus(R, Hold(l)), l.slot);
    }
  }

  lemma AcceptedAfter(q: Que, h: Hist, l: Local, a: Act, tr: Track, R: Holding)
    requires Good(q, h, Plus(R, Hold(l))) && LocalOk(l) && AcceptedOk(h, tr)
    ensures AcceptedOk(Step(q, h, l, a).h, Watch(q, h, l, Step(q, h, l, a).l, tr))
  {
    hide Good, AcceptedOk, Plus, Hold, Without, Settle, Load, Accept;
    TouchedFate(q, h, l, R);
    PostersAccept(q, h, l, R);
    var o := Step(q, h, l, a);
    var tr' := Watch(q, h, l, o.l, tr);
    match l
    case FlushHold(c, slot, _) =>
      if CanSignal(c) { OtherFields(h, h, tr, tr'); } else { ThrowAccepted(h, slot, c, tr, tr'); }
    case RecvCopy(_, slot) => DeliverAccepted(h, slot, q.pool[slot], tr, tr');
    case SendPost(_, slot) => SettleAccepted(h, slot, Queued(slot), tr);
    case IsrPost(c, slot) => if c.mie { SettleAccepted(h, slot, Queued(slot), tr); }
    case ParkPush(_, slot) => SettleAccepted(h, slot, Queued(slot), tr);
    case Resetting(c) => if CanPoll(c) && q.dtq != [] { SettleAccepted(h, q.dtq[0], Discarded, tr); }
    case SendCopy(_, slot, m) => LoadAccepted(h, slot, m, tr); OtherFields(h, Fault(h), tr, tr);
    case ParkAlloc(_, m) => BorrowAccepted(q, h, m, tr);
    case IsrDebt(_, m) => BorrowAccepted(q, h, m, tr);
    case _ =>
      QuietFates(q, h, l, a, tr);
      OtherFields(h, o.h, tr, tr');
  }

  lemma QuietFates(q: Que, h: Hist, l: Local, a: Act, tr: Track)
    requires !l.FlushHold? && !l.RecvCopy? && !l.SendPost? && !l.IsrPost? && !l.ParkPush? && !l.Resetting?
    requires !l.SendCopy? && !l.ParkAlloc? && !l.IsrDebt?
    ensures Step(q, h, l, a).h.fate == h.fate
    ensures Watch(q, h, l, Step(q, h, l, a).l, tr).accepted == tr.accepted
  {
  }

  lemma BorrowAccepted(q: Que, h: Hist, m: Msg, tr: Track)
    requires AcceptedOk(h, tr) && |h.fate| == |h.log|
    ensures q.free != [] ==> AcceptedOk(Load(h, TopSlot(q), m), tr)
    ensures AcceptedOk(Fault(h), tr)
  {
    hide AcceptedOk, Load;
    if q.free != [] { LoadAccepted(h, TopSlot(q), m, tr); }
    OtherFields(h, Fault(h), tr, tr);
  }

  lemma ThrowAccepted(h: Hist, slot: nat, c: Ctx, tr: Track, tr': Track)
    requires AcceptedOk(h, tr) && slot in h.slotId && h.slotId[slot] < |h.fate| && !h.fate[h.slotId[slot]].Held?
    requires tr'.accepted == tr.accepted
    ensures AcceptedOk(Throw(h, slot, c), tr')
  {
    hide AcceptedOk, Settle;
    var f := Dropped(|h.dropped|);
    SettleAccepted(h, slot, f, tr);
    OtherFields(Settle(h, slot, f), Throw(h, slot, c), tr, tr');
  }

  lemma DeliverAccepted(h: Hist, slot: nat, bytes: Msg, tr: Track, tr': Track)
    requires AcceptedOk(h, tr) && slot in h.slotId && h.slotId[slot] < |h.fate| && !h.fate[h.slotId[slot]].Held?
    requires tr'.accepted == tr.accepted
    ensures AcceptedOk(Deliver(h, slot, bytes), tr')
  {
    hide AcceptedOk, Settle;
    var f := Delivered(|h.deliv|);
    SettleAccepted(h, slot, f, tr);
    OtherFields(Settle(h, slot, f), Deliver(h, slot, bytes), tr, tr');
  }

  lemma AcceptedNext(s: Sys, tr: Track, e: Event)
    requires Inv(s) && AcceptedOk(s.h, tr)
    ensures AcceptedOk(Next(s, e).h, WatchNext(s, tr, e))
  {
    hide AcceptedOk, Watch, Step, Good, Total, Rest, Hold, Plus, LocalOk;
    if e.who < |s.ts| {
      TotalSplits(s.ts, e.who, s.ts[e.who]);
      assert s.ts[e.who := s.ts[e.who]] == s.ts;
      AcceptedAfter(s.q, s.h, s.ts[e.who], e.act, tr, Rest(s.ts, e.who));
    }
  }

  /** After any run the account lists exactly the messages accepted so far, once each. */
  lemma {:induction false} AcceptedAreAll(ring: seq<nat>, pool: seq<Msg>, n: nat, es: seq<Event>)
    requires |ring| == |pool| <= DTQ_CNT
    ensures AcceptedOk(Run(Start(ring, pool, n), es).h, WatchRun(Start(ring, pool, n), es))
    decreases |es|
  {
    if es != [] {
      hide AcceptedOk, Inv, Next, WatchNext, Start;
      var before, e := es[..|es| - 1], es[|es| - 1];
      AcceptedAreAll(ring, pool, n, before);
      StartIsGood(ring, pool, n);
      RunKeeps(Start(ring, pool, n), before);
      AcceptedNext(Run(Start(ring, pool, n), before), WatchRun(Start(ring, pool, n), before), e);
    }
  }

  /** The messages are in the order of their acceptance: those delivered, in the order of delivery, and
      behind them those on their way. */
  ghost predicate OrderKept(s: Sys, tr: Track) {
    WellFormed(s.q) && InOrder(Story(s.q, tr))
  }

  /** No step of the run overtakes. */
  ghost predicate NothingOvertakes(s: Sys, es: seq<Event>) {
    es == [] || (NothingOvertakes(s, es[..|es| - 1])
                 && !OvertakesAt(Run(s, es[..|es| - 1]), WatchRun(s, es[..|es| - 1]), es[|es| - 1]))
  }

  /** The order holds after every step of the run. */
  ghost predicate OrderKeptAlways(s: Sys, es: seq<Event>) {
    OrderKept(Run(s, es), WatchRun(s, es)) && (es == [] || OrderKeptAlways(s, es[..|es| - 1]))
  }

  lemma OrderAfter(s: Sys, tr: Track, e: Event)
    requires Inv(s) && Watched(s, tr) && OrderKept(s, tr)
    ensures OrderKept(Next(s, e), WatchNext(s, tr, e)) <==> !OvertakesAt(s, tr, e)
  {
    var f := WatchedNext(s, tr, e);
    hide Inv, Story, Next, WatchNext, OvertakesAt, InOrder;
    ApplyKeepsOrder(Story(s.q, tr), |tr.accepted|, f);
  }

  /** In every interleaving, the order of acceptance holds throughout a run if and only if no step of it
      overtakes. */
  lemma {:induction false} OrderIsKeptExactly(ring: seq<nat>, pool: seq<Msg>, n: nat, es: seq<Event>)
    requires |ring| == |pool| <= DTQ_CNT
    ensures OrderKeptAlways(Start(ring, pool, n), es) <==> NothingOvertakes(Start(ring, pool, n), es)
    decreases |es|
  {
    hide Inv, Watched, Next, WatchNext, Start, OrderKept, OvertakesAt;
    if es == [] {
      StartInOrder(ring, pool, n);
    } else {
      var before, e := es[..|es| - 1], es[|es| - 1];
      OrderIsKeptExactly(ring, pool, n, before);
      RunIsWatched(ring, pool, n, before);
      if OrderKeptAlways(Start(ring, pool, n), before) {
        OrderAfter(Run(Start(ring, pool, n), before), WatchRun(Start(ring, pool, n), before), e);
      }
    }
  }

  lemma StartInOrder(ring: seq<nat>, pool: seq<Msg>, n: nat)
    requires |ring| == |pool| <= DTQ_CNT
    ensures OrderKept(Start(ring, pool, n), NO_TRACK)
  {
    StartIsWatched(ring, pool, n);
  }

  /** So on a run without overtaking, messages are delivered in the order in which they were accepted, and
      those still on their way were accepted after all that have been delivered. */
  lemma DeliveredInOrder(ring: seq<nat>, pool: seq<Msg>, n: nat, es: seq<Event>)
    requires |ring| == |pool| <= DTQ_CNT && NothingOvertakes(Start(ring, pool, n), es)
    ensures var s, tr := Run(Start(ring, pool, n), es), WatchRun(Start(ring, pool, n), es);
            && |tr.given| == |s.h.deliv|
            && (forall j :: 0 <= j < |tr.given| ==>
                  tr.given[j] < |tr.accepted| && tr.accepted[tr.given[j]] == s.h.deliv[j].id)
            && (forall i, j :: 0 <= i < j < |tr.given| ==> tr.given[i] < tr.given[j])
            && WellFormed(s.q)
            && (forall j, k :: 0 <= j < |tr.given| && k in Line(s.q, tr) ==> tr.given[j] < PlaceOf(tr.place, k))
  {
    OrderIsKeptExactly(ring, pool, n, es);
    RunIsWatched(ring, pool, n, es);
    var s, tr := Run(Start(ring, pool, n), es), WatchRun(Start(ring, pool, n), es);
    hide Run, WatchRun, Inv, NothingOvertakes, Line, PlaceOf, Fits;
    var story := Story(s.q, tr);
    assert forall j :: 0 <= j < |tr.given| ==> story[j] == tr.given[j];
    forall j, k | 0 <= j < |tr.given| && k in Line(s.q, tr)
      ensures tr.given[j] < PlaceOf(tr.place, k)
    {
      var i :| 0 <= i < |Line(s.q, tr)| && Line(s.q, tr)[i] == k;
      assert story[|tr.given| + i] == PlaceOf(tr.place, k);
    }
  }

  // ---------------------------------------------------------------- what callers can do to keep the order

  /** A call made with the CPU unlocked; no send but the interrupt send from a handler, and no receive but
      by context `r`. */
  predicate Orderly(e: Event, r: nat) {
    e.act.Begin? ==>
      && e.act.c.mie
      && (e.act.op.Send? ==> !e.act.c.mode.Handler?)
      && (e.act.op.Recv? ==> e.who == r)
  }

  /** Where such calls can be: nothing is ever parked, so no flush finds anything. */
  predicate OnTrack(l: Local, receiver: bool) {
    match l
    case Idle => true
    case Flushing(c, k) => c.mie && (k.ToSend? ==> !c.mode.Handler?) && (k.ToRecv? ==> receiver)
    case FlushHold(_, _, _) => false
    case Freeing(c, _, next) => c.mie && !next.AfterFlush?
    case Signalling(c, next) => c.mie && !next.AfterFlush?
    case Sending(c, _, _) => c.mie && !c.mode.Handler?
    case ParkAlloc(_, _) => false
    case ParkPush(_, _) => false
    case Receiving(c, _) => c.mie && receiver
    case RecvCopy(c, _) => c.mie && receiver
    case _ => l.c.mie
  }

  function InHandOf(l: Local): seq<nat> {
    if l.RecvCopy? then [l.slot] else []
  }

  lemma StaysOnTrack(q: Que, h: Hist, l: Local, e: Event, r: nat, tr: Track)
    requires q.cnt == 0 && OnTrack(l, e.who == r) && Orderly(e, r)
    requires tr.carried == [] && (e.who == r ==> tr.inHand == InHandOf(l))
    ensures var o := Step(q, h, l, e.act);
            var tr' := Watch(q, h, l, o.l, tr);
            && o.q.cnt == 0 && OnTrack(o.l, e.who == r) && tr'.carried == []
            && (if e.who == r then tr'.inHand == InHandOf(o.l) else tr'.inHand == tr.inHand)
            && !Overtakes(q, l, tr)
  {
    hide Settle, Load, Deliver, Throw;
  }

  ghost predicate AllOnTrack(s: Sys, r: nat, tr: Track) {
    && s.q.cnt == 0 && tr.carried == []
    && (forall i :: 0 <= i < |s.ts| ==> OnTrack(s.ts[i], i == r))
    && (r < |s.ts| ==> tr.inHand == InHandOf(s.ts[r]))
  }

  lemma NextStaysOnTrack(s: Sys, e: Event, r: nat, tr: Track)
    requires AllOnTrack(s, r, tr) && Orderly(e, r)
    ensures AllOnTrack(Next(s, e), r, WatchNext(s, tr, e)) && !OvertakesAt(s, tr, e)
  {
    hide OnTrack, Orderly, Step, Watch, Overtakes, InHandOf;
    if e.who < |s.ts| {
      StaysOnTrack(s.q, s.h, s.ts[e.who], e, r, tr);
    }
  }

  /** If every call is made with the CPU unlocked, handlers send by the interrupt send only, and one
      context does all the receiving, then nothing is ever parked and no step overtakes, however the
      calls interleave; so messages are delivered in the order in which they were accepted. */
  lemma {:induction false} OrderlyCallsKeepOrder(ring: seq<nat>, pool: seq<Msg>, n: nat, es: seq<Event>, r: nat)
    requires forall j :: 0 <= j < |es| ==> Orderly(es[j], r)
    ensures NothingOvertakes(Start(ring, pool, n), es)
    ensures Run(Start(ring, pool, n), es).q.cnt == 0
    ensures AllOnTrack(Run(Start(ring, pool, n), es), r, WatchRun(Start(ring, pool, n), es))
    decreases |es|
  {
    if es != [] {
      hide Orderly, AllOnTrack, Next, WatchNext, Start, OvertakesAt;
      var before, e := es[..|es| - 1], es[|es| - 1];
      OrderlyCallsKeepOrder(ring, pool, n, before, r);
      var s, tr := Run(Start(ring, pool, n), before), WatchRun(Start(ring, pool, n), before);
      NextStaysOnTrack(s, e, r, tr);
      assert Next(s, e).q.cnt == 0 by { RingEmpty(Next(s, e), r, WatchNext(s, tr, e)); }
    }
  }

  lemma RingEmpty(s: Sys, r: nat, tr: Track)
    requires AllOnTrack(s, r, tr)
    ensures s.q.cnt == 0
  {
  }
}
