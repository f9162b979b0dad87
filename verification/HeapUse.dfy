/** How much of the heap a run of calls uses: the requests rounded up, and two cells a block at most. */
module HeapUse {
  import opened HeapSpec
  import opened HeapLaws

  // ---------------------------------------------------------------- sums over maps

  ghost function Sum(m: map<nat, nat>): nat {
    if m == map[] then 0
    else var a :| a in m; m[a] + Sum(m - {a})
  }

  /** Whichever key is taken out first. */
  lemma {:induction false} SumWithout(m: map<nat, nat>, a: nat)
    requires a in m
    ensures Sum(m) == m[a] + Sum(m - {a})
  {
    var b :| b in m && Sum(m) == m[b] + Sum(m - {b});
    if b != a {
      SumWithout(m - {b}, a);
      SumWithout(m - {a}, b);
      assert m - {b} - {a} == m - {a} - {b};
    }
  }

  lemma SumWith(m: map<nat, nat>, a: nat, x: nat)
    requires a !in m
    ensures Sum(m[a := x]) == Sum(m) + x
  {
    SumWithout(m[a := x], a);
    assert m[a := x] - {a} == m;
  }

  lemma {:induction false} SumGrows(m: map<nat, nat>, n: map<nat, nat>)
    requires m.Keys == n.Keys && forall a :: a in m ==> m[a] <= n[a]
    ensures Sum(m) <= Sum(n)
  {
    if m != map[] {
      var a :| a in m;
      SumWithout(m, a);
      SumWithout(n, a);
      SumGrows(m - {a}, n - {a});
    } else {
      assert n == map[];
    }
  }

  // ---------------------------------------------------------------- what the blocks were handed out for

  /** For each block held, the request it was handed out for; a resize that keeps the block keeps this. */
  function Charge(bs: seq<Block>, held: map<nat, nat>, charged: map<nat, nat>, call: Call): map<nat, nat> {
    match call
    case Ask(size) =>
      var p := Malloc(bs, size).1;
      if p.At? then charged[p.header := size] else charged
    case Give(a) => if a in held then charged - {a} else charged
    case Resize(a, size) =>
      if a !in held then charged
      else
        var q := Realloc(bs, At(a), size).1;
        if q == At(a) then charged
        else if q.At? then (charged - {a})[q.header := size]
        else if size == 0 then charged - {a} else charged
  }

  function ChargeAll(area: nat, calls: seq<Call>): map<nat, nat> {
    if calls == [] then map[]
    else
      var before := calls[..|calls| - 1];
      var (r, held) := PerformAll(Fresh(area), map[], before);
      Charge(r, held, ChargeAll(area, before), calls[|calls| - 1])
  }

  /** `sizes` are the cells of the blocks handed out, each what its request needs or two more at most. */
  ghost predicate Measured(bs: seq<Block>, area: nat, charged: map<nat, nat>, sizes: map<nat, nat>) {
    && Tiles(bs, area) && sizes.Keys == charged.Keys
    && (forall a: nat, d: nat :: Live(bs, a, d) <==> a in sizes && sizes[a] == d)
    && FreeCells(bs) + Sum(sizes) == area
    && forall a :: a in charged ==> Need(charged[a]) <= sizes[a] <= Need(charged[a]) + 2
  }

  lemma AskMeasured(bs: seq<Block>, area: nat, charged: map<nat, nat>, sizes: map<nat, nat>, size: nat)
    returns (more: map<nat, nat>)
    requires Measured(bs, area, charged, sizes)
    ensures var (r, p) := Malloc(bs, size);
            if p.Null? then r == bs
            else p.header !in charged && Measured(r, area, charged[p.header := size], more)
  {
    hide Malloc, Live, FreeCells, Addr, Need, Tiles;
    MallocHandsOutOne(bs, area, size);
    var i, c := MallocTakesLittle(bs, area, size);
    var (r, p) := Malloc(bs, size);
    more := sizes;
    if p.At? {
      more := sizes[p.header := c];
      assert Proper(r) by { TilesIsProper(r, area); }
      if p.header in sizes {
        OneBlockEach(r, p.header, c, sizes[p.header]);
      }
      SumWith(sizes, p.header, c);
    }
  }

  lemma TilesIsProper(bs: seq<Block>, area: nat)
    requires Tiles(bs, area)
    ensures Proper(bs)
  {
  }

  lemma GiveMeasured(bs: seq<Block>, area: nat, charged: map<nat, nat>, sizes: map<nat, nat>, a: nat)
    requires Measured(bs, area, charged, sizes) && a in charged
    ensures Measured(Free(bs, At(a)), area, charged - {a}, sizes - {a})
  {
    var i := LiveBlock(bs, a, sizes[a]);
    hide Free, Live, FreeCells, Addr, Need, Tiles;
    FreeTakesOneBack(bs, area, i);
    SumWithout(sizes, a);
  }

  /** A resize keeps the block exactly if this has the bytes asked for. */
  lemma ResizeSays(bs: seq<Block>, area: nat, charged: map<nat, nat>, sizes: map<nat, nat>, a: nat, size: nat)
    requires Measured(bs, area, charged, sizes) && a in charged && size > 0
    ensures var (m, q) := Malloc(bs, size);
            Realloc(bs, At(a), size) == if 8 * (sizes[a] - 1) >= size then (bs, At(a))
                                        else if q.Null? then (m, q) else (Free(m, At(a)), q)
  {
    hide FreeCells, Need, Tiles, Malloc, Free;
    var i := LiveBlock(bs, a, sizes[a]);
    assert Proper(bs) by { TilesIsProper(bs, area); }
    BlockAtFinds(bs, i, 0);
  }

  lemma ResizeMeasured(bs: seq<Block>, area: nat, held: map<nat, nat>, charged: map<nat, nat>, sizes: map<nat, nat>,
                       a: nat, size: nat) returns (more: map<nat, nat>)
    requires Measured(bs, area, charged, sizes) && held.Keys == charged.Keys
    ensures var (r, h) := Perform(bs, held, Resize(a, size));
            var g := Charge(bs, held, charged, Resize(a, size));
            Measured(r, area, g, more) && h.Keys == g.Keys
  {
    hide Malloc, Free, Realloc, Live, FreeCells, Addr, Need, Tiles, Measured;
    more := sizes;
    if a in held {
      if size == 0 {
        GiveMeasured(bs, area, charged, sizes, a);
        FreeingRealloc(bs, a);
        more := sizes - {a};
      } else {
        ResizeSays(bs, area, charged, sizes, a, size);
        var (m, q) := Malloc(bs, size);
        var grown := AskMeasured(bs, area, charged, sizes, size);
        if 8 * (SizeAt(bs, area, charged, sizes, a) - 1) < size && q.At? {
          GiveMeasured(m, area, charged[q.header := size], grown, a);
          assert charged[q.header := size] - {a} == (charged - {a})[q.header := size];
          more := grown - {a};
        }
      }
    }
  }

  ghost function SizeAt(bs: seq<Block>, area: nat, charged: map<nat, nat>, sizes: map<nat, nat>, a: nat): (d: nat)
    requires Measured(bs, area, charged, sizes) && a in charged
    ensures a in sizes && d == sizes[a]
  {
    sizes[a]
  }

  lemma FreeingRealloc(bs: seq<Block>, a: nat)
    ensures Realloc(bs, At(a), 0) == (Free(bs, At(a)), Null)
    ensures forall size: nat :: Realloc(bs, Null, size) == Malloc(bs, size)
  {
  }

  lemma {:induction false} RunIsMeasured(area: nat, calls: seq<Call>) returns (sizes: map<nat, nat>)
    requires area >= 1
    ensures var (r, held) := PerformAll(Fresh(area), map[], calls);
            Measured(r, area, ChargeAll(area, calls), sizes) && held.Keys == ChargeAll(area, calls).Keys
    decreases |calls|
  {
    if calls == [] {
      FreshTiles(area);
      sizes := map[];
      assert forall a: nat, d: nat :: !Live(Fresh(area), a, d);
    } else {
      hide Malloc, Free, Realloc, Fresh, Measured;
      var before := calls[..|calls| - 1];
      sizes := RunIsMeasured(area, before);
      var (r, held) := PerformAll(Fresh(area), map[], before);
      var charged := ChargeAll(area, before);
      match calls[|calls| - 1]
      case Ask(size) =>
        var more := AskMeasured(r, area, charged, sizes, size);
        if Malloc(r, size).1.At? { sizes := more; }
      case Give(a) =>
        if a in held {
          GiveMeasured(r, area, charged, sizes, a);
          sizes := sizes - {a};
        }
      case Resize(a, size) => sizes := ResizeMeasured(r, area, held, charged, sizes, a, size);
    }
  }

  // ---------------------------------------------------------------- what a run uses

  /** What requests of these sizes need, and `spare` cells for each. */
  function Needs(m: map<nat, nat>, spare: nat): map<nat, nat> {
    map a | a in m :: Need(m[a]) + spare
  }

  /** After any calls, the cells in use are at least what the requests need for which the blocks held were
      handed out, and at most two more for each block. */
  lemma UseIsBounded(area: nat, calls: seq<Call>)
    requires area >= 1
    ensures var (r, held) := PerformAll(Fresh(area), map[], calls);
            var charged := ChargeAll(area, calls);
            && held.Keys == charged.Keys
            && Sum(Needs(charged, 0)) <= area - FreeCells(r) <= Sum(Needs(charged, 2))
  {
    var sizes := RunIsMeasured(area, calls);
    hide PerformAll, ChargeAll, FreeCells, Need;
    var charged := ChargeAll(area, calls);
    SumGrows(Needs(charged, 0), sizes);
    SumGrows(sizes, Needs(charged, 2));
  }

  /** No resize asks for less than before, unless it gives the block back. */
  predicate NeverShrinks(area: nat, calls: seq<Call>) {
    calls == [] ||
    (NeverShrinks(area, calls[..|calls| - 1])
     && var held, e := PerformAll(Fresh(area), map[], calls[..|calls| - 1]).1, calls[|calls| - 1];
        e.Resize? && e.a in held ==> e.size == 0 || e.size >= held[e.a])
  }

  lemma {:induction false} HeldIsCharged(area: nat, calls: seq<Call>)
    requires area >= 1 && NeverShrinks(area, calls)
    ensures var held, charged := PerformAll(Fresh(area), map[], calls).1, ChargeAll(area, calls);
            held.Keys == charged.Keys && forall a :: a in held ==> charged[a] <= held[a]
    decreases |calls|
  {
    var sizes := RunIsMeasured(area, calls);
    if calls != [] {
      hide Malloc, Realloc, Free, Fresh, Measured;
      HeldIsCharged(area, calls[..|calls| - 1]);
    }
  }

  lemma MoreNeedsMore(a: nat, b: nat)
    requires a <= b
    ensures Need(a) <= Need(b)
  {
  }

  /** So if no resize shrinks, the bound holds with the sizes last asked for. */
  lemma UseFollowsHeld(area: nat, calls: seq<Call>)
    requires area >= 1 && NeverShrinks(area, calls)
    ensures var (r, held) := PerformAll(Fresh(area), map[], calls);
            area - FreeCells(r) <= Sum(Needs(held, 2))
  {
    UseIsBounded(area, calls);
    HeldIsCharged(area, calls);
    hide PerformAll, ChargeAll, FreeCells, Need;
    var held, charged := PerformAll(Fresh(area), map[], calls).1, ChargeAll(area, calls);
    forall a | a in held
      ensures Needs(charged, 2)[a] <= Needs(held, 2)[a]
    {
      MoreNeedsMore(charged[a], held[a]);
    }
    SumGrows(Needs(charged, 2), Needs(held, 2));
  }

  /** A resize to fewer bytes keeps the whole block, so there the bound can fail: for the block it answers
      with it holds if and only if the block had to move, or was within the bound of the new size. */
  lemma ResizeKeepsBoundExactly(bs: seq<Block>, area: nat, charged: map<nat, nat>, sizes: map<nat, nat>, a: nat,
                                size: nat)
    requires Measured(bs, area, charged, sizes) && a in charged && size > 0 && Realloc(bs, At(a), size).1.At?
    ensures var (r, q) := Realloc(bs, At(a), size);
            (exists d: nat :: Live(r, q.header, d) && d <= Need(size) + 2)
            <==> 8 * (sizes[a] - 1) < size || sizes[a] <= Need(size) + 2
  {
    ResizeSays(bs, area, charged, sizes, a, size);
    var grown := AskMeasured(bs, area, charged, sizes, size);
    var (m, q) := Malloc(bs, size);
    hide Malloc, Free, Live, FreeCells, Addr, Need, Tiles;
    if 8 * (sizes[a] - 1) < size {
      GiveMeasured(m, area, charged[q.header := size], grown, a);
      assert Live(Free(m, At(a)), q.header, grown[q.header]);
    } else {
      assert Live(bs, a, sizes[a]);
    }
  }

  /** After malloc(1000) and realloc of this to 1 byte, 126 cells are in use for a request that needs 2. */
  lemma ShrinkingHoldsOn()
    ensures var (r, held) := PerformAll(Fresh(200), map[], [Ask(1000), Resize(0, 1)]);
            held == map[0 := 1] && r == [Block(126, true), Block(74, false)] && Need(1) == 2
  {
    var calls := [Ask(1000), Resize(0, 1)];
    assert calls[..1] == [Ask(1000)];
    assert PerformAll(Fresh(200), map[], []) == (Fresh(200), map[]);
    assert Need(1000) == 126 && Addr(Fresh(200), 0) == 0;
    assert FirstFit(Fresh(200), 126) == 0 by { assert Fits(Fresh(200)[0], 126); }
    assert Take(Fresh(200), 0, 126) == [Block(126, true), Block(74, false)];
    assert Malloc(Fresh(200), 1000) == ([Block(126, true), Block(74, false)], At(0));
    assert PerformAll(Fresh(200), map[], [Ask(1000)]) == ([Block(126, true), Block(74, false)], map[0 := 1000]) by {
      assert [Ask(1000)][..0] == [];
    }
  }
}
