/** Laws of the heap that relate several calls. */
module HeapLaws {
  import opened HeapSpec

  /** The block of `c` cells at address `a` is handed out. */
  ghost predicate Live(bs: seq<Block>, a: nat, c: nat) {
    exists i :: 0 <= i < |bs| && bs[i] == Block(c, true) && Addr(bs, i) == a
  }

  /** What every sequence of calls keeps: every block has room for its header, and the blocks tile an
      area of `area` cells. */
  predicate Tiles(bs: seq<Block>, area: nat) {
    bs != [] && Proper(bs) && Addr(bs, |bs|) == area
  }

  /** esp_shim_heap_initialize */
  function Fresh(area: nat): seq<Block> {
    [Block(area, false)]
  }

  lemma FreshTiles(area: nat)
    requires area >= 1
    ensures Tiles(Fresh(area), area) && FreeCells(Fresh(area)) == area
  {
    assert Addr(Fresh(area), 1) == Addr(Fresh(area), 0) + area;
    FreeCellsOfTwo(Block(area, false), Block(area, false));
  }

  /** Two blocks handed out never overlap. */
  lemma LiveBlocksAreApart(bs: seq<Block>, a: nat, c: nat, b: nat, d: nat)
    requires Proper(bs) && Live(bs, a, c) && Live(bs, b, d) && (a, c) != (b, d)
    ensures a + c <= b || b + d <= a
  {
    var i :| 0 <= i < |bs| && bs[i] == Block(c, true) && Addr(bs, i) == a;
    var j :| 0 <= j < |bs| && bs[j] == Block(d, true) && Addr(bs, j) == b;
    if i < j { AddrGrows(bs, i, j); } else if j < i { AddrGrows(bs, j, i); }
  }

  lemma LiveIsInside(bs: seq<Block>, area: nat, a: nat, c: nat)
    requires Tiles(bs, area) && Live(bs, a, c)
    ensures a + c <= area
  {
    var i :| 0 <= i < |bs| && bs[i] == Block(c, true) && Addr(bs, i) == a;
    AddrGrows(bs, i, |bs|);
  }

  // ---------------------------------------------------------------- malloc

  /** Where the blocks of `bs` are found after block `i` has been taken. */
  function Moved(bs: seq<Block>, i: nat, n: nat, k: nat): nat
    requires i < |bs|
  {
    if k <= i || !Splits(bs[i], n) then k else k + 1
  }

  lemma TakeAddresses(bs: seq<Block>, i: nat, n: nat)
    requires i < |bs| && Fits(bs[i], n)
    ensures var r := Take(bs, i, n);
            && (forall k :: 0 <= k < |bs| && k != i ==>
                  && Moved(bs, i, n, k) < |r|
                  && r[Moved(bs, i, n, k)] == bs[k]
                  && Addr(r, Moved(bs, i, n, k)) == Addr(bs, k))
            && |r| == |bs| + (if Splits(bs[i], n) then 1 else 0)
            && Addr(r, i) == Addr(bs, i) && r[i].used && n <= r[i].cells <= bs[i].cells
            && (Splits(bs[i], n) ==> !r[i + 1].used && r[i + 1].cells >= 1)
            && Addr(r, |r|) == Addr(bs, |bs|)
  {
    hide Cut, Mark, Addr;
    if Splits(bs[i], n) {
      CutKeepsAddresses(bs, i, n, true, false);
    } else {
      MarkKeepsAddresses(bs, i, true);
      MarkAt(bs, i, true);
    }
  }

  lemma TakeCells(bs: seq<Block>, i: nat, n: nat)
    requires i < |bs| && Fits(bs[i], n)
    ensures i < |Take(bs, i, n)| && FreeCells(Take(bs, i, n)) + Take(bs, i, n)[i].cells == FreeCells(bs)
  {
    hide Cut, Mark;
    if Splits(bs[i], n) {
      CutKeepsAddresses(bs, i, n, true, false);
      CutCells(bs, i, n, true, false);
    } else {
      MarkCells(bs, i, true);
      MarkAt(bs, i, true);
    }
  }

  lemma MarkAt(bs: seq<Block>, i: nat, u: bool)
    requires i < |bs|
    ensures |Mark(bs, i, u)| == |bs| && Mark(bs, i, u)[i] == bs[i].(used := u)
    ensures forall k :: 0 <= k < |bs| && k != i ==> Mark(bs, i, u)[k] == bs[k]
  {
  }

  /** Blocks handed out in `r` are those handed out in `bs` and one more, `c` cells at `p`. */
  ghost predicate OneMoreLive(bs: seq<Block>, r: seq<Block>, p: nat, c: nat) {
    && !Live(bs, p, c)
    && forall a: nat, d: nat :: Live(r, a, d) <==> Live(bs, a, d) || (a == p && d == c)
  }

  /** esp_shim_malloc fails if and only if no free block is large enough; otherwise it hands out one
      block that is large enough and was free, and leaves every block handed out before where it was
      and as large as it was. */
  lemma MallocHandsOutOne(bs: seq<Block>, area: nat, size: nat)
    requires Tiles(bs, area)
    ensures var (r, p) := Malloc(bs, size);
            && Tiles(r, area)
            && (p.Null? <==> forall i :: 0 <= i < |bs| ==> bs[i].used || 8 * bs[i].cells < NeedBytes(size))
            && (p.Null? ==> r == bs)
            && (p.At? ==> exists c: nat ::
                  8 * (c - 1) >= size && OneMoreLive(bs, r, p.header, c) && FreeCells(r) + c == FreeCells(bs))
  {
    hide Take;
    var n := Need(size);
    var i := FirstFit(bs, n);
    if i < |bs| {
      assert Fits(bs[i], n);
      TakeIsSound(bs, area, i, n);
      var r := Take(bs, i, n);
      var c := r[i].cells;
      assert 8 * (c - 1) >= size && OneMoreLive(bs, r, Addr(bs, i), c) && FreeCells(r) + c == FreeCells(bs);
    } else {
      assert forall k :: 0 <= k < |bs| ==> !Fits(bs[k], n);
    }
  }

  /** What a request costs: malloc fails if and only if no free block has that many bytes behind its header;
      otherwise it takes the first that has, and of this the header and the bytes asked for, rounded up to
      whole cells, or all of it if less than a header and two cells would remain. */
  lemma MallocTakesLittle(bs: seq<Block>, area: nat, size: nat) returns (i: nat, c: nat)
    requires Tiles(bs, area)
    ensures var (r, p) := Malloc(bs, size);
            var bytes := if size == 0 then 1 else size;
            && (p.Null? <==> forall k :: 0 <= k < |bs| ==> bs[k].used || 8 * (bs[k].cells - 1) < bytes)
            && (p.At? ==>
                  && i < |bs| && p.header == Addr(bs, i) && !bs[i].used && 8 * (bs[i].cells - 1) >= bytes
                  && (forall k :: 0 <= k < i ==> bs[k].used || 8 * (bs[k].cells - 1) < bytes)
                  && 8 * (c - 1) >= bytes
                  && (if c < bs[i].cells then 8 * (c - 1) < bytes + 8 && bs[i].cells - c >= 3
                      else c == bs[i].cells && 8 * (c - 1) < bytes + 24)
                  && OneMoreLive(bs, r, p.header, c) && FreeCells(r) + c == FreeCells(bs) && Tiles(r, area)
                  && Need(size) <= c <= Need(size) + 2)
  {
    hide Take;
    var n := Need(size);
    i, c := FirstFit(bs, n), 0;
    if i < |bs| {
      TakeIsSound(bs, area, i, n);
      TakenCells(bs, i, n);
      c := Take(bs, i, n)[i].cells;
      assert 8 * (c - 1) >= size && OneMoreLive(bs, Take(bs, i, n), Addr(bs, i), c);
      assert Fits(bs[i], n);
    }
    assert forall k :: 0 <= k < i ==> !Fits(bs[k], n);
  }

  lemma TakenCells(bs: seq<Block>, i: nat, n: nat)
    requires i < |bs| && Fits(bs[i], n)
    ensures i < |Take(bs, i, n)| && Take(bs, i, n)[i].cells == if bs[i].cells >= n + 3 then n else bs[i].cells
  {
  }

  lemma TakeIsSound(bs: seq<Block>, area: nat, i: nat, n: nat)
    requires Tiles(bs, area) && i < |bs| && Fits(bs[i], n) && n >= 1
    ensures var r := Take(bs, i, n);
            && Tiles(r, area) && i < |r| && r[i].cells >= n
            && OneMoreLive(bs, r, Addr(bs, i), r[i].cells) && FreeCells(r) + r[i].cells == FreeCells(bs)
  {
    var r := Take(bs, i, n);
    TakeAddresses(bs, i, n);
    TakeCells(bs, i, n);
    forall j | 0 <= j < |r|
      ensures r[j].cells >= 1
    {
      if j != i && !(Splits(bs[i], n) && j == i + 1) {
        var k := if j < i || !Splits(bs[i], n) then j else j - 1;
        assert j == Moved(bs, i, n, k);
      }
    }
    FreeIsNotLive(bs, i, r[i].cells);
    forall a: nat, d: nat
      ensures Live(r, a, d) <==> Live(bs, a, d) || (a == Addr(bs, i) && d == r[i].cells)
    {
      TakeLive(bs, i, n, a, d);
    }
  }

  lemma FreeIsNotLive(bs: seq<Block>, i: nat, c: nat)
    requires Proper(bs) && i < |bs| && !bs[i].used
    ensures !Live(bs, Addr(bs, i), c)
  {
    forall j | 0 <= j < |bs| && Addr(bs, j) == Addr(bs, i)
      ensures j == i
    {
      BlockAtFinds(bs, i, 0);
      BlockAtFinds(bs, j, 0);
    }
  }

  lemma TakeLive(bs: seq<Block>, i: nat, n: nat, a: nat, d: nat)
    requires i < |bs| && Fits(bs[i], n)
    ensures var r := Take(bs, i, n);
            i < |r| && (Live(r, a, d) <==> Live(bs, a, d) || (a == Addr(bs, i) && d == r[i].cells))
  {
    hide Take, Splits, Addr;
    TakeAddresses(bs, i, n);
    var r := Take(bs, i, n);
    if k :| 0 <= k < |bs| && bs[k] == Block(d, true) && Addr(bs, k) == a {
      var j := Moved(bs, i, n, k);
      assert r[j] == Block(d, true) && Addr(r, j) == a;
    }
    if a == Addr(bs, i) && d == r[i].cells {
      assert r[i] == Block(d, true);
    }
    if j :| 0 <= j < |r| && r[j] == Block(d, true) && Addr(r, j) == a && j != i {
      var k := if j < i || !Splits(bs[i], n) then j else j - 1;
      assert j == Moved(bs, i, n, k) && k != i;
      assert bs[k] == Block(d, true) && Addr(bs, k) == a;
    }
  }

  // ---------------------------------------------------------------- free

  lemma JoinLive(bs: seq<Block>, i: nat, a: nat, d: nat)
    requires i + 1 < |bs| && !bs[i].used && !bs[i + 1].used
    ensures Live(Join(bs, i), a, d) <==> Live(bs, a, d)
  {
    JoinKeepsAddresses(bs, i);
    hide Join, Addr;
    var r := Join(bs, i);
    if k :| 0 <= k < |bs| && bs[k] == Block(d, true) && Addr(bs, k) == a {
      var j := if k < i then k else k - 1;
      assert r[j] == Block(d, true) && Addr(r, j) == a;
    }
    if j :| 0 <= j < |r| && r[j] == Block(d, true) && Addr(r, j) == a {
      var k := if j < i then j else j + 1;
      assert bs[k] == Block(d, true) && Addr(bs, k) == a;
    }
  }

  lemma JoinTiles(bs: seq<Block>, area: nat, i: nat)
    requires Tiles(bs, area) && i + 1 < |bs|
    ensures Tiles(Join(bs, i), area)
  {
    hide Join, Addr;
    JoinKeepsAddresses(bs, i);
  }

  /** Absorbing free neighbours changes neither the area, nor the free space, nor what is handed out;
      in the end no free block follows. */
  lemma {:induction false} AbsorbIsSound(bs: seq<Block>, area: nat, i: nat)
    requires Tiles(bs, area) && i < |bs| && !bs[i].used
    ensures var r := Absorb(bs, i);
            && Tiles(r, area) && FreeCells(r) == FreeCells(bs)
            && i < |r| <= |bs| && !r[i].used && (i + 1 < |r| ==> r[i + 1].used)
            && (forall a: nat, d: nat :: Live(r, a, d) <==> Live(bs, a, d))
            && (r == bs <==> i + 1 == |bs| || bs[i + 1].used)
    decreases |bs|
  {
    if i + 1 < |bs| && !bs[i + 1].used {
      JoinKeepsAddresses(bs, i);
      JoinTiles(bs, area, i);
      JoinCells(bs, i);
      hide Join, Addr, FreeCells;
      AbsorbIsSound(Join(bs, i), area, i);
      forall a: nat, d: nat
        ensures Live(Join(bs, i), a, d) <==> Live(bs, a, d)
      {
        JoinLive(bs, i, a, d);
      }
    }
  }

  lemma UnmarkLive(bs: seq<Block>, i: nat, a: nat, d: nat)
    requires Proper(bs) && i < |bs| && bs[i].used
    ensures Live(Mark(bs, i, false), a, d) <==> Live(bs, a, d) && !(a == Addr(bs, i) && d == bs[i].cells)
  {
    MarkKeepsAddresses(bs, i, false);
    var r := Mark(bs, i, false);
    if k :| 0 <= k < |bs| && bs[k] == Block(d, true) && Addr(bs, k) == a && !(a == Addr(bs, i) && d == bs[i].cells) {
      assert r[k] == Block(d, true);
    }
    if j :| 0 <= j < |r| && r[j] == Block(d, true) && Addr(r, j) == a {
      assert bs[j] == Block(d, true);
      BlockAtFinds(bs, i, 0);
      BlockAtFinds(bs, j, 0);
    }
  }

  /** esp_shim_free of a block handed out takes exactly that block back: its cells are free again, all
      other blocks handed out stay as they are, and no free block follows the freed one any more. */
  lemma FreeTakesOneBack(bs: seq<Block>, area: nat, i: nat)
    requires Tiles(bs, area) && i < |bs| && bs[i].used
    ensures var r := Free(bs, At(Addr(bs, i)));
            && Tiles(r, area) && FreeCells(r) == FreeCells(bs) + bs[i].cells
            && (forall a: nat, d: nat ::
                  Live(r, a, d) <==> Live(bs, a, d) && !(a == Addr(bs, i) && d == bs[i].cells))
            && i < |r| && !r[i].used && (i + 1 < |r| ==> r[i + 1].used)
  {
    BlockAtFinds(bs, i, 0);
    var m := Mark(bs, i, false);
    MarkKeepsAddresses(bs, i, false);
    MarkCells(bs, i, false);
    AbsorbIsSound(m, area, i);
    forall a: nat, d: nat
      ensures Live(m, a, d) <==> Live(bs, a, d) && !(a == Addr(bs, i) && d == bs[i].cells)
    {
      UnmarkLive(bs, i, a, d);
    }
  }

  /** Blocks handed out in `bs` are still handed out in `r`, except perhaps the one at `p`. */
  ghost predicate OthersStay(bs: seq<Block>, r: seq<Block>, p: nat) {
    forall a: nat, d: nat :: Live(bs, a, d) && a != p ==> Live(r, a, d)
  }

  /** esp_shim_realloc of a block handed out, to a size that is not 0: if it fails nothing has changed
      and the old block is still the caller's; otherwise the caller holds exactly one block in place of
      it, large enough, and nobody else's block has moved. */
  lemma ReallocReplacesOne(bs: seq<Block>, area: nat, i: nat, size: nat)
    requires Tiles(bs, area) && i < |bs| && bs[i].used && size > 0
    ensures var p := Addr(bs, i);
            var (r, q) := Realloc(bs, At(p), size);
            && Tiles(r, area) && OthersStay(bs, r, p)
            && (q.Null? ==> r == bs)
            && (q.At? ==> exists c: nat :: 8 * (c - 1) >= size && Live(r, q.header, c))
            && (q.At? && q.header != p ==> forall d: nat :: !Live(r, p, d))
            && (q == At(p) <==> 8 * (bs[i].cells - 1) >= size)
  {
    hide Malloc, Free, Addr, Live, FreeCells;
    var p := Addr(bs, i);
    BlockAtFinds(bs, i, 0);
    if 8 * (bs[i].cells - 1) >= size {
      LiveAt(bs, i);
      assert Live(bs, p, bs[i].cells);
    } else {
      MallocHandsOutOne(bs, area, size);
      var (m, q) := Malloc(bs, size);
      if q.At? {
        var c: nat :| 8 * (c - 1) >= size && OneMoreLive(bs, m, q.header, c) && FreeCells(m) + c == FreeCells(bs);
        LiveAt(bs, i);
        assert Live(m, p, bs[i].cells) && Live(m, q.header, c);
        var j := LiveBlock(m, p, bs[i].cells);
        FreeTakesOneBack(m, area, j);
        LiveBlocksAreApart(m, p, bs[i].cells, q.header, c);
        forall d: nat
          ensures !Live(Free(m, At(p)), p, d)
        {
          if Live(Free(m, At(p)), p, d) {
            LiveBlocksAreApart(m, p, d, p, bs[i].cells);
            LiveHasRoom(m, p, d);
          }
        }
      }
    }
  }

  lemma LiveAt(bs: seq<Block>, i: nat)
    requires i < |bs| && bs[i].used
    ensures Live(bs, Addr(bs, i), bs[i].cells)
  {
    assert bs[i] == Block(bs[i].cells, true);
  }

  lemma LiveBlock(bs: seq<Block>, a: nat, c: nat) returns (i: nat)
    requires Live(bs, a, c)
    ensures i < |bs| && bs[i] == Block(c, true) && Addr(bs, i) == a
  {
    i :| 0 <= i < |bs| && bs[i] == Block(c, true) && Addr(bs, i) == a;
  }

  lemma LiveHasRoom(bs: seq<Block>, a: nat, c: nat)
    requires Proper(bs) && Live(bs, a, c)
    ensures c >= 1
  {
  }

  // ---------------------------------------------------------------- malloc and free undo each other

  lemma UncutIsWhole(bs: seq<Block>, i: nat, n: nat)
    requires i < |bs| && n <= bs[i].cells && !bs[i].used
    ensures var c := Cut(bs, i, n, false, false);
            && Mark(Cut(bs, i, n, true, false), i, false) == c
            && |c| == |bs| + 1 && !c[i].used && !c[i + 1].used
            && Join(c, i) == bs
  {
    var c := Cut(bs, i, n, false, false);
    var r := Join(c, i);
    assert |r| == |bs|;
    forall k | 0 <= k < |bs|
      ensures r[k] == bs[k]
    {
    }
  }

  /** Giving back at once what was just taken from block `i` leaves that block and what it absorbs. */
  lemma ReleaseAfterTake(bs: seq<Block>, i: nat, n: nat)
    requires i < |bs| && Fits(bs[i], n)
    ensures i < |Take(bs, i, n)| && Release(Take(bs, i, n), i) == Absorb(bs, i)
  {
    if Splits(bs[i], n) {
      UncutIsWhole(bs, i, n);
      hide Cut, Join, Mark;
      assert Absorb(Cut(bs, i, n, false, false), i) == Absorb(bs, i);
      assert i < |Cut(bs, i, n, true, false)| by { CutKeepsAddresses(bs, i, n, true, false); }
    } else {
      assert Mark(Mark(bs, i, true), i, false) == bs;
    }
  }

  /** Freeing at once what was just allocated restores the heap block by block, exactly when no free
      block follows the one that was used. */
  lemma FreeUndoesMalloc(bs: seq<Block>, area: nat, size: nat)
    requires Tiles(bs, area)
    ensures var (r, p) := Malloc(bs, size);
            var i := FirstFit(bs, Need(size));
            Free(r, p) == bs <==> i == |bs| || i + 1 == |bs| || bs[i + 1].used
  {
    var n := Need(size);
    var i := FirstFit(bs, n);
    if i < |bs| {
      FreeAtAfterTake(bs, area, i, n);
      assert !bs[i].used;
      hide Take, Release, Absorb, FreeCells;
      AbsorbIsSound(bs, area, i);
    }
  }

  lemma FreeAtAfterTake(bs: seq<Block>, area: nat, i: nat, n: nat)
    requires Tiles(bs, area) && i < |bs| && Fits(bs[i], n) && n >= 1
    ensures Free(Take(bs, i, n), At(Addr(bs, i))) == Absorb(bs, i)
  {
    hide Take, Release, Absorb, FreeCells, Addr, Fits;
    TakeIsSound(bs, area, i, n);
    TakeAddresses(bs, i, n);
    BlockAtFinds(Take(bs, i, n), i, 0);
    ReleaseAfterTake(bs, i, n);
  }

  /** No two neighbouring blocks are both free. */
  predicate Coalesced(bs: seq<Block>) {
    forall i :: 0 <= i && i + 1 < |bs| ==> bs[i].used || bs[i + 1].used
  }

  lemma MallocKeepsCoalesced(bs: seq<Block>, size: nat)
    requires Coalesced(bs)
    ensures Coalesced(Malloc(bs, size).0)
  {
    var n := Need(size);
    var i := FirstFit(bs, n);
    if i < |bs| {
      var r := Take(bs, i, n);
      if Splits(bs[i], n) {
        CutKeepsAddresses(bs, i, n, true, false);
        forall j | 0 <= j && j + 1 < |r|
          ensures r[j].used || r[j + 1].used
        {
          if j < i { assert r[j] == bs[j]; }
          if j > i { assert bs[j - 1].used || bs[j].used; }
        }
      }
    }
  }

  /** Code that frees what it allocated in the reverse order. */
  datatype Nested = Stop | Use(size: nat, inside: Nested, after: Nested)

  function RunNested(bs: seq<Block>, w: Nested): seq<Block>
    decreases w
  {
    match w
    case Stop => bs
    case Use(size, inside, after) =>
      var (r, p) := Malloc(bs, size);
      RunNested(Free(RunNested(r, inside), p), after)
  }

  /** Well-nested code restores a heap without free neighbours block by block, however deep it nests
      and whichever of its allocations fail.  A fresh heap is such a heap. */
  lemma {:induction false} NestedCodeRestores(bs: seq<Block>, area: nat, w: Nested)
    requires Tiles(bs, area) && Coalesced(bs)
    ensures RunNested(bs, w) == bs
    decreases w
  {
    if w.Use? {
      hide Malloc, Free, Addr;
      MallocHandsOutOne(bs, area, w.size);
      MallocKeepsCoalesced(bs, w.size);
      NestedCodeRestores(Malloc(bs, w.size).0, area, w.inside);
      FreeUndoesMalloc(bs, area, w.size);
      NestedCodeRestores(bs, area, w.after);
    }
  }

  lemma FreshHeapIsRestored(area: nat, w: Nested)
    requires area >= 1
    ensures RunNested(Fresh(area), w) == Fresh(area)
  {
    FreshTiles(area);
    NestedCodeRestores(Fresh(area), area, w);
  }

  /** In a heap without free neighbours, a block given back absorbs at most the one that follows it. */
  lemma AbsorbOnce(bs: seq<Block>, i: nat)
    requires i < |bs| && !bs[i].used && (i + 2 < |bs| ==> bs[i + 1].used || bs[i + 2].used)
    ensures Absorb(bs, i) == if i + 1 < |bs| && !bs[i + 1].used then Join(bs, i) else bs
  {
    if i + 1 < |bs| && !bs[i + 1].used {
      JoinKeepsAddresses(bs, i);
      hide Join, Addr;
      assert Absorb(bs, i) == Absorb(Join(bs, i), i);
    }
  }

  lemma JoinCoalesced(m: seq<Block>, i: nat)
    requires i + 1 < |m| && !m[i].used && !m[i + 1].used && (i + 2 < |m| ==> m[i + 2].used)
    requires forall k :: 0 <= k && k + 1 < |m| && k != i && k + 1 != i ==> m[k].used || m[k + 1].used
    ensures Coalesced(Join(m, i)) <==> i == 0 || m[i - 1].used
  {
    JoinKeepsAddresses(m, i);
    hide Join, Addr;
    var r := Join(m, i);
    if i == 0 || m[i - 1].used {
      forall k | 0 <= k && k + 1 < |r|
        ensures r[k].used || r[k + 1].used
      {
        if k > i { assert m[k + 1].used || m[k + 2].used; }
        if k + 1 < i { assert m[k].used || m[k + 1].used; }
      }
    } else {
      assert !r[i - 1].used && !r[i].used;
    }
  }

  /** A block is only ever joined with what follows it: giving a block back keeps a heap free of free
      neighbours exactly when the block in front of it is used. */
  lemma FreeKeepsCoalescedExactly(bs: seq<Block>, area: nat, i: nat)
    requires Tiles(bs, area) && Coalesced(bs) && i < |bs| && bs[i].used
    ensures Coalesced(Free(bs, At(Addr(bs, i)))) <==> i == 0 || bs[i - 1].used
  {
    BlockAtFinds(bs, i, 0);
    var m := Mark(bs, i, false);
    MarkAt(bs, i, false);
    hide Absorb, Join, Mark, Addr;
    AbsorbOnce(m, i);
    assert forall k :: 0 <= k && k + 1 < |m| && k != i && k + 1 != i ==> m[k].used || m[k + 1].used;
    if i + 1 < |bs| && !bs[i + 1].used {
      JoinCoalesced(m, i);
    } else {
      assert i > 0 && !bs[i - 1].used ==> !m[i - 1].used && !m[i].used;
    }
  }

  /** So frees in the order of the allocations leave free neighbours, and a request that both together
      could serve fails. */
  lemma ForwardOnlyJoiningFragments()
    ensures var bs := [Block(2, true), Block(2, true), Block(4, true)];
            var r := Free(Free(bs, At(0)), At(2));
            r == [Block(2, false), Block(2, false), Block(4, true)] && Malloc(r, 16) == (r, Null)
  {
    var bs := [Block(2, true), Block(2, true), Block(4, true)];
    assert Addr(bs, 0) == 0 && Addr(bs, 1) == 2;
    var m := Free(bs, At(0));
    assert m == [Block(2, false), Block(2, true), Block(4, true)];
    assert Addr(m, 0) == 0 && Addr(m, 1) == 2;
    assert BlockAt(m, 2, 0) == BlockAt(m, 2, 1) == 1;
    var r := Free(m, At(2));
    assert r == [Block(2, false), Block(2, false), Block(4, true)];
    assert Need(16) == 3;
  }

  // ---------------------------------------------------------------- whole runs

  /** A block that starts at `a` is handed out. */
  ghost predicate Handed(bs: seq<Block>, a: nat) {
    exists d: nat :: Live(bs, a, d)
  }

  /** What clients do: every pointer they give back or resize is one they hold. */
  datatype Call = Ask(size: nat) | Give(a: nat) | Resize(a: nat, size: nat)

  /** One call; `held` are the blocks the clients hold, with the sizes they asked for.  A resize to 0
      gives the block back. */
  function Perform(bs: seq<Block>, held: map<nat, nat>, call: Call): (seq<Block>, map<nat, nat>) {
    match call
    case Ask(size) =>
      var (r, p) := Malloc(bs, size);
      (r, if p.At? then held[p.header := size] else held)
    case Give(a) =>
      if a in held then (Free(bs, At(a)), held - {a}) else (bs, held)
    case Resize(a, size) =>
      if a in held then
        var (r, q) := Realloc(bs, At(a), size);
        (r, if q.At? then (held - {a})[q.header := size] else if size == 0 then held - {a} else held)
      else (bs, held)
  }

  function PerformAll(bs: seq<Block>, held: map<nat, nat>, calls: seq<Call>): (seq<Block>, map<nat, nat>)
    decreases |calls|
  {
    if calls == [] then (bs, held)
    else var (r, h) := PerformAll(bs, held, calls[..|calls| - 1]); Perform(r, h, calls[|calls| - 1])
  }

  /** The block at `a` has at least `size` bytes behind its header. */
  ghost predicate Serves(bs: seq<Block>, a: nat, size: nat) {
    exists d: nat :: Live(bs, a, d) && 8 * (d - 1) >= size
  }

  /** The blocks handed out are exactly those the clients hold, each as large as was asked for. */
  ghost predicate Accounted(bs: seq<Block>, area: nat, held: map<nat, nat>) {
    && Tiles(bs, area)
    && (forall a: nat :: Handed(bs, a) ==> a in held)
    && (forall a :: a in held ==> Serves(bs, a, held[a]))
  }

  lemma OneBlockEach(bs: seq<Block>, a: nat, c: nat, d: nat)
    requires Proper(bs) && Live(bs, a, c) && Live(bs, a, d)
    ensures c == d
  {
    if c != d {
      LiveBlocksAreApart(bs, a, c, a, d);
      LiveHasRoom(bs, a, c);
      LiveHasRoom(bs, a, d);
    }
  }

  lemma AskKeeps(bs: seq<Block>, area: nat, held: map<nat, nat>, size: nat)
    requires Accounted(bs, area, held)
    ensures var (r, p) := Malloc(bs, size);
            && (p.Null? ==> Accounted(r, area, held))
            && (p.At? ==> p.header !in held && Accounted(r, area, held[p.header := size]))
  {
    hide Malloc, Addr, FreeCells, Live;
    MallocHandsOutOne(bs, area, size);
    var (r, p) := Malloc(bs, size);
    if p.At? {
      var c: nat :| 8 * (c - 1) >= size && OneMoreLive(bs, r, p.header, c) && FreeCells(r) + c == FreeCells(bs);
      assert Live(r, p.header, c);
      if p.header in held {
        var d: nat :| Live(bs, p.header, d) && 8 * (d - 1) >= held[p.header];
        OneBlockEach(r, p.header, c, d);
      }
      forall a | a in held
        ensures Serves(r, a, held[a])
      {
        var d: nat :| Live(bs, a, d) && 8 * (d - 1) >= held[a];
        assert Live(r, a, d);
      }
    }
  }

  lemma GiveKeeps(bs: seq<Block>, area: nat, held: map<nat, nat>, a: nat)
    requires Accounted(bs, area, held) && a in held
    ensures Accounted(Free(bs, At(a)), area, held - {a})
  {
    var d: nat :| Live(bs, a, d) && 8 * (d - 1) >= held[a];
    var i := LiveBlock(bs, a, d);
    hide Free, Addr, FreeCells, Live;
    FreeTakesOneBack(bs, area, i);
    var r := Free(bs, At(a));
    forall e: nat
      ensures !Live(r, a, e)
    {
      if Live(r, a, e) { OneBlockEach(bs, a, d, e); }
    }
    forall b | b in held - {a}
      ensures Serves(r, b, held[b])
    {
      var e: nat :| Live(bs, b, e) && 8 * (e - 1) >= held[b];
      assert Live(r, b, e);
    }
  }

  /** A block that is large enough already is only entered with its new size. */
  lemma StaysKeeps(bs: seq<Block>, area: nat, held: map<nat, nat>, a: nat, size: nat)
    requires Accounted(bs, area, held) && a in held && Serves(bs, a, size)
    ensures Accounted(bs, area, (held - {a})[a := size])
  {
    hide Tiles, Handed, Serves;
  }

  lemma ResizeKeeps(bs: seq<Block>, area: nat, held: map<nat, nat>, a: nat, size: nat)
    requires Accounted(bs, area, held) && a in held
    ensures var (r, h) := Perform(bs, held, Resize(a, size)); Accounted(r, area, h)
  {
    var i := BlockAt(bs, a, 0);
    if size > 0 && i < |bs| && 8 * bs[i].cells >= size + 8 {
      BlockServes(bs, area, held, a, size);
      hide Accounted, Serves;
      StaysKeeps(bs, area, held, a, size);
    } else {
      hide Malloc, Free, Addr, FreeCells, Live, Accounted;
      GiveKeeps(bs, area, held, a);
      AskKeeps(bs, area, held, size);
      var (m, q) := Malloc(bs, size);
      if q.At? {
        GiveKeeps(m, area, held[q.header := size], a);
        assert held[q.header := size] - {a} == (held - {a})[q.header := size];
      }
    }
  }

  lemma BlockServes(bs: seq<Block>, area: nat, held: map<nat, nat>, a: nat, size: nat)
    requires Accounted(bs, area, held) && a in held
    requires var i := BlockAt(bs, a, 0); i < |bs| && 8 * bs[i].cells >= size + 8
    ensures Serves(bs, a, size)
  {
    var d: nat :| Live(bs, a, d) && 8 * (d - 1) >= held[a];
    var i := LiveBlock(bs, a, d);
    BlockAtFinds(bs, i, 0);
  }

  /** After any sequence of calls on the fresh heap the blocks tile the area, and those handed out are
      exactly those the clients hold, each with at least the bytes last asked for: none is lost, none
      handed out twice, none cut short. */
  lemma {:induction false} RunIsAccounted(area: nat, calls: seq<Call>)
    requires area >= 1
    ensures var (r, held) := PerformAll(Fresh(area), map[], calls); Accounted(r, area, held)
    decreases |calls|
  {
    if calls == [] {
      FreshTiles(area);
      assert forall d: nat, a: nat :: !Live(Fresh(area), a, d);
    } else {
      RunIsAccounted(area, calls[..|calls| - 1]);
      hide Malloc, Free, Realloc, Accounted, Fresh;
      var (r, h) := PerformAll(Fresh(area), map[], calls[..|calls| - 1]);
      match calls[|calls| - 1]
      case Ask(size) => AskKeeps(r, area, h, size);
      case Give(a) => if a in h { GiveKeeps(r, area, h, a); }
      case Resize(a, size) => if a in h { ResizeKeeps(r, area, h, a, size); }
    }
  }

  /** So the bytes two clients may use never overlap: behind each header lie as many as were asked for,
      and they end before the next header held begins. */
  lemma HeldBytesAreApart(area: nat, calls: seq<Call>, a: nat, b: nat)
    requires area >= 1
    requires var held := PerformAll(Fresh(area), map[], calls).1; a in held && b in held && a < b
    ensures var held := PerformAll(Fresh(area), map[], calls).1;
            8 * (a + 1) + held[a] <= 8 * b && 8 * (b + 1) + held[b] <= 8 * area
  {
    RunIsAccounted(area, calls);
    var (r, held) := PerformAll(Fresh(area), map[], calls);
    hide PerformAll, Addr, Live;
    var c: nat :| Live(r, a, c) && 8 * (c - 1) >= held[a];
    var d: nat :| Live(r, b, d) && 8 * (d - 1) >= held[b];
    LiveBlocksAreApart(r, a, c, b, d);
    LiveHasRoom(r, a, c);
    LiveHasRoom(r, b, d);
    LiveIsInside(r, area, b, d);
  }

  lemma {:induction false} AllFree(bs: seq<Block>)
    requires forall i :: 0 <= i < |bs| ==> !bs[i].used
    ensures FreeCells(bs) == Addr(bs, |bs|)
  {
    if bs != [] {
      var n := |bs| - 1;
      AllFree(bs[..n]);
      AddrPrefix(bs[..n], bs, n);
    }
  }

  lemma UsedIsHanded(bs: seq<Block>, i: nat)
    requires i < |bs| && bs[i].used
    ensures Handed(bs, Addr(bs, i))
  {
    LiveAt(bs, i);
  }

  /** Clients that have given everything back have left no cell behind, however fragmented the heap. */
  lemma NothingHeldNothingLost(area: nat, calls: seq<Call>)
    requires area >= 1 && PerformAll(Fresh(area), map[], calls).1 == map[]
    ensures FreeCells(PerformAll(Fresh(area), map[], calls).0) == area
  {
    hide PerformAll, Addr, FreeCells;
    RunIsAccounted(area, calls);
    var r := PerformAll(Fresh(area), map[], calls).0;
    forall i | 0 <= i < |r|
      ensures !r[i].used
    {
      if r[i].used { UsedIsHanded(r, i); }
    }
    AllFree(r);
  }

  // ---------------------------------------------------------------- a queue creation that fails

  /** What a failing esp_shim_queue_create does to the heap: three requests, and then every block it got
      is given back, in the order of the requests. */
  function FailedCreate(bs: seq<Block>, a: nat, b: nat, c: nat): seq<Block> {
    var (r, p) := Malloc(bs, a);
    var (s, q) := Malloc(r, b);
    var (t, o) := Malloc(s, c);
    Free(Free(Free(t, p), q), o)
  }

  /** The blocks handed out in `r` are those of `bs` and, besides, those in `more`, together `cells`. */
  ghost predicate Besides(bs: seq<Block>, r: seq<Block>, area: nat, more: set<(nat, nat)>, cells: nat) {
    && Tiles(r, area) && FreeCells(r) + cells == FreeCells(bs)
    && (forall a: nat, d: nat :: Live(r, a, d) <==> Live(bs, a, d) || (a, d) in more)
    && (forall a: nat, d: nat :: (a, d) in more ==> !Live(bs, a, d))
  }

  lemma AskOneMore(bs: seq<Block>, r: seq<Block>, area: nat, more: set<(nat, nat)>, cells: nat, size: nat)
    returns (c: nat)
    requires Besides(bs, r, area, more, cells)
    ensures var (t, p) := Malloc(r, size);
            if p.Null? then t == r
            else (p.header, c) !in more && Besides(bs, t, area, more + {(p.header, c)}, cells + c)
  {
    hide Malloc, Live, FreeCells, Tiles;
    c := 0;
    MallocHandsOutOne(r, area, size);
    var (t, p) := Malloc(r, size);
    if p.At? {
      c :| 8 * (c - 1) >= size && OneMoreLive(r, t, p.header, c) && FreeCells(t) + c == FreeCells(r);
    }
  }

  lemma GiveOneBack(bs: seq<Block>, r: seq<Block>, area: nat, more: set<(nat, nat)>, cells: nat, p: Pointer, c: nat)
    requires Besides(bs, r, area, more, cells) && (p.At? ==> (p.header, c) in more && c <= cells)
    ensures if p.Null? then Free(r, p) == r
            else Besides(bs, Free(r, p), area, more - {(p.header, c)}, cells - c)
  {
    if p.At? {
      var i := LiveBlock(r, p.header, c);
      hide Free, Live, FreeCells, Tiles, Addr;
      FreeTakesOneBack(r, area, i);
    }
  }

  /** A queue creation that fails, for want of memory or of a free record, leaves the same blocks handed
      out as before and as much memory free, whichever of its requests were served. */
  lemma FailedCreateLeaksNothing(bs: seq<Block>, area: nat, a: nat, b: nat, c: nat)
    requires Tiles(bs, area)
    ensures var r := FailedCreate(bs, a, b, c);
            && Tiles(r, area) && FreeCells(r) == FreeCells(bs)
            && forall x: nat, d: nat :: Live(r, x, d) <==> Live(bs, x, d)
  {
    hide Malloc, Free, Besides;
    BesidesNothing(bs, area);
    var (r, p) := Malloc(bs, a);
    var k := AskOneMore(bs, bs, area, {}, 0, a);
    assert p.At? ==> {} + {(p.header, k)} == {(p.header, k)};
    var m1, n1 := if p.At? then {(p.header, k)} else {}, if p.At? then k else 0;
    var (s, q) := Malloc(r, b);
    var l := AskOneMore(bs, r, area, m1, n1, b);
    var m2, n2 := if q.At? then m1 + {(q.header, l)} else m1, if q.At? then n1 + l else n1;
    var (t, o) := Malloc(s, c);
    var h := AskOneMore(bs, s, area, m2, n2, c);
    var m3, n3 := if o.At? then m2 + {(o.header, h)} else m2, if o.At? then n2 + h else n2;
    GiveOneBack(bs, t, area, m3, n3, p, k);
    var m4, n4 := if p.At? then m3 - {(p.header, k)} else m3, if p.At? then n3 - k else n3;
    GiveOneBack(bs, Free(t, p), area, m4, n4, q, l);
    var m5, n5 := if q.At? then m4 - {(q.header, l)} else m4, if q.At? then n4 - l else n4;
    GiveOneBack(bs, Free(Free(t, p), q), area, m5, n5, o, h);
    assert o.At? ==> m5 - {(o.header, h)} == {};
    assert o.Null? ==> m5 == {};
    BesidesNobody(bs, FailedCreate(bs, a, b, c), area);
  }

  lemma BesidesNothing(bs: seq<Block>, area: nat)
    requires Tiles(bs, area)
    ensures Besides(bs, bs, area, {}, 0)
  {
  }

  lemma BesidesNobody(bs: seq<Block>, r: seq<Block>, area: nat)
    requires Besides(bs, r, area, {}, 0)
    ensures Tiles(r, area) && FreeCells(r) == FreeCells(bs)
    ensures forall x: nat, d: nat :: Live(r, x, d) <==> Live(bs, x, d)
  {
  }
}
