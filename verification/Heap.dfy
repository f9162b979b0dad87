/** The heap in place: block headers inside one array of eight-byte cells. */
module Heap {
  import opened HeapSpec
  import opened HeapLaws

  /** One cell of heap_area, read as a HEAP_BLOCK header: the size in bytes, its lowest bit telling
      whether the block is used, and the cell of the next header. */
  datatype Cell = Cell(size: nat, next: int)

  const NULL: int := -1

  /** HB_IS_USED and HB_SIZE */
  predicate IsUsed(c: Cell) {
    c.size % 2 == 1
  }

  function SizeOf(c: Cell): nat {
    c.size - c.size % 2
  }

  /** The header of block `i`. */
  function Header(bs: seq<Block>, i: nat): Cell
    requires i < |bs|
  {
    Cell(8 * bs[i].cells + if bs[i].used then 1 else 0, if i + 1 < |bs| then Addr(bs, i + 1) else NULL)
  }

  /** The cells hold the headers of the blocks, each where its block starts. */
  ghost predicate Linked(cells: seq<Cell>, bs: seq<Block>) {
    forall i :: 0 <= i < |bs| ==> Addr(bs, i) < |cells| && cells[Addr(bs, i)] == Header(bs, i)
  }

  lemma LinkedAt(cells: seq<Cell>, bs: seq<Block>, k: nat)
    requires Linked(cells, bs) && k < |bs|
    ensures Addr(bs, k) < |cells| && cells[Addr(bs, k)] == Header(bs, k)
  {
  }

  /** The header of block `k` after block `i` has been cut. */
  lemma HeaderAfterCut(cells: seq<Cell>, bs: seq<Block>, i: nat, n: nat, k: nat)
    requires Tiles(bs, |cells|) && Linked(cells, bs) && i < |bs| && 1 <= n < bs[i].cells && k <= |bs|
    ensures var a := Addr(bs, i);
            var r := Cut(bs, i, n, true, false);
            && a + n < |cells| && k < |r|
            && var after := cells[a + n := Cell(8 * (bs[i].cells - n), cells[a].next)][a := Cell(8 * n + 1, a + n)];
            Addr(r, k) < |after| && after[Addr(r, k)] == Header(r, k)
  {
    hide Cut, Addr, Linked;
    AddrGrows(bs, i, |bs|);
    CutKeepsAddresses(bs, i, n, true, false);
    if k < i {
      LinkedAt(cells, bs, k);
      AddrGrows(bs, k, i);
    } else if k > i + 1 {
      LinkedAt(cells, bs, k - 1);
      AddrGrows(bs, i, k - 1);
    } else {
      LinkedAt(cells, bs, i);
    }
  }

  lemma LinkedAfterCut(cells: seq<Cell>, bs: seq<Block>, i: nat, n: nat)
    requires Tiles(bs, |cells|) && Linked(cells, bs) && i < |bs| && 1 <= n < bs[i].cells
    ensures var a := Addr(bs, i);
            && a + n < |cells|
            && Linked(cells[a + n := Cell(8 * (bs[i].cells - n), cells[a].next)][a := Cell(8 * n + 1, a + n)],
                      Cut(bs, i, n, true, false))
  {
    hide Addr, Header;
    HeaderAfterCut(cells, bs, i, n, 0);
    forall k: nat | k <= |bs| {
      HeaderAfterCut(cells, bs, i, n, k);
    }
  }

  lemma LinkedAfterMark(cells: seq<Cell>, bs: seq<Block>, i: nat, u: bool)
    requires Tiles(bs, |cells|) && Linked(cells, bs) && i < |bs|
    ensures var a := Addr(bs, i);
            && a < |cells|
            && Linked(cells[a := Cell(8 * bs[i].cells + (if u then 1 else 0), cells[a].next)], Mark(bs, i, u))
  {
    hide Addr;
    var a := Addr(bs, i);
    MarkKeepsAddresses(bs, i, u);
    var r := Mark(bs, i, u);
    var after := cells[a := Cell(8 * bs[i].cells + (if u then 1 else 0), cells[a].next)];
    forall k | 0 <= k < |r|
      ensures Addr(r, k) < |after| && after[Addr(r, k)] == Header(r, k)
    {
      if k < i {
        AddrGrows(bs, k, i);
      } else if k > i {
        AddrGrows(bs, i, k);
      }
    }
  }

  lemma LinkedAfterJoin(cells: seq<Cell>, bs: seq<Block>, i: nat)
    requires Tiles(bs, |cells|) && Linked(cells, bs) && i + 1 < |bs| && !bs[i].used && !bs[i + 1].used
    ensures var a := Addr(bs, i);
            && a < |cells| && cells[a].next == Addr(bs, i + 1) < |cells|
            && Linked(cells[a := Cell(cells[a].size + cells[cells[a].next].size, cells[cells[a].next].next)],
                      Join(bs, i))
  {
    hide Addr, Join;
    var a := Addr(bs, i);
    JoinKeepsAddresses(bs, i);
    var r := Join(bs, i);
    var after := cells[a := Cell(cells[a].size + cells[Addr(bs, i + 1)].size, cells[Addr(bs, i + 1)].next)];
    forall k | 0 <= k < |r|
      ensures Addr(r, k) < |after| && after[Addr(r, k)] == Header(r, k)
    {
      if k < i {
        AddrGrows(bs, k, i);
      } else if k > i {
        AddrGrows(bs, i, k + 1);
      }
    }
  }

  /** Cell `k` lies in the payload of a block handed out. */
  ghost predicate InPayload(bs: seq<Block>, k: nat) {
    exists a: nat, d: nat :: Live(bs, a, d) && a < k < a + d
  }

  lemma InsideLive(bs: seq<Block>, a: nat, d: nat, k: nat)
    requires Live(bs, a, d) && a < k < a + d
    ensures InPayload(bs, k)
  {
  }

  lemma PayloadHolder(bs: seq<Block>, k: nat) returns (j: nat)
    requires InPayload(bs, k)
    ensures j < |bs| && bs[j].used && Addr(bs, j) < k < Addr(bs, j) + bs[j].cells
  {
    var a: nat, d: nat :| Live(bs, a, d) && a < k < a + d;
    j :| 0 <= j < |bs| && bs[j] == Block(d, true) && Addr(bs, j) == a;
  }

  /** A payload keeps clear of every free block and of every header, and lies inside the area. */
  lemma PayloadIsApart(bs: seq<Block>, area: nat, i: nat, k: nat)
    requires Tiles(bs, area) && i < |bs| && InPayload(bs, k)
    ensures k < area && k != Addr(bs, i)
    ensures !bs[i].used ==> !(Addr(bs, i) <= k < Addr(bs, i) + bs[i].cells)
  {
    hide Addr, InPayload;
    var j := PayloadHolder(bs, k);
    AddrGrows(bs, j, |bs|);
    if i < j { AddrGrows(bs, i, j); } else if j < i { AddrGrows(bs, j, i); }
  }

  lemma AddrOfFirst(bs: seq<Block>, area: nat)
    requires Tiles(bs, area)
    ensures Addr(bs, 0) == 0 && |bs| > 0
  {
  }

  lemma HandedBlock(bs: seq<Block>, a: nat) returns (i: nat)
    requires Handed(bs, a)
    ensures i < |bs| && bs[i].used && Addr(bs, i) == a
  {
    var d: nat :| Live(bs, a, d);
    i :| 0 <= i < |bs| && bs[i] == Block(d, true) && Addr(bs, i) == a;
  }

  lemma HeaderSays(bs: seq<Block>, i: nat)
    requires i < |bs|
    ensures var h := Header(bs, i);
            && SizeOf(h) == 8 * bs[i].cells && (IsUsed(h) <==> bs[i].used)
            && h == Cell(8 * bs[i].cells + (if bs[i].used then 1 else 0), h.next)
            && h.next == if i + 1 < |bs| then Addr(bs, i + 1) else NULL
  {
    hide Addr, SizeOf, IsUsed;
    Tagged(bs[i].cells, bs[i].used, Header(bs, i).next);
  }

  /** A multiple of eight leaves the lowest bit to the tag. */
  lemma Tagged(c: nat, u: bool, next: int)
    ensures var h := Cell(8 * c + (if u then 1 else 0), next); SizeOf(h) == 8 * c && (IsUsed(h) <==> u)
  {
    var t := if u then 1 else 0;
    var n := 8 * c + t;
    var q := n / 2;
    assert n == 2 * q + n % 2 && 0 <= n % 2 < 2;
    assert 2 * (q - 4 * c) == t - n % 2;
    assert q - 4 * c == 0;
  }

  /** Taking the used bit from block `i`: the sums and the payloads that remain. */
  lemma UnmarkIsSound(bs: seq<Block>, area: nat, i: nat)
    requires Tiles(bs, area) && i < |bs| && bs[i].used
    ensures var m := Mark(bs, i, false);
            && Tiles(m, area) && FreeCells(m) == FreeCells(bs) + bs[i].cells
            && |m| == |bs| && !m[i].used && Addr(m, i) == Addr(bs, i)
            && (forall k: nat :: InPayload(m, k) ==> InPayload(bs, k) && k != Addr(bs, i))
  {
    var m := Mark(bs, i, false);
    MarkKeepsAddresses(bs, i, false);
    MarkCells(bs, i, false);
    forall k: nat | InPayload(m, k)
      ensures InPayload(bs, k) && k != Addr(bs, i)
    {
      var a: nat, d: nat :| Live(m, a, d) && a < k < a + d;
      UnmarkLive(bs, i, a, d);
      PayloadIsApart(m, area, i, k);
    }
  }

  lemma TakeIs(bs: seq<Block>, i: nat, n: nat)
    requires i < |bs| && Fits(bs[i], n)
    ensures Take(bs, i, n) == if Splits(bs[i], n) then Cut(bs, i, n, true, false) else Mark(bs, i, true)
    ensures Splits(bs[i], n) ==> Take(bs, i, n)[i].cells == n
    ensures !Splits(bs[i], n) ==> Take(bs, i, n)[i].cells == bs[i].cells
  {
  }

  lemma JoinIsSound(bs: seq<Block>, area: nat, i: nat)
    requires Tiles(bs, area) && i + 1 < |bs| && !bs[i].used && !bs[i + 1].used
    ensures var r := Join(bs, i);
            && Tiles(r, area) && FreeCells(r) == FreeCells(bs)
            && |r| == |bs| - 1 && !r[i].used && Addr(r, i) == Addr(bs, i)
            && Absorb(r, i) == Absorb(bs, i)
            && (forall k: nat :: InPayload(r, k) ==> InPayload(bs, k))
  {
    var r := Join(bs, i);
    JoinKeepsAddresses(bs, i);
    JoinTiles(bs, area, i);
    JoinCells(bs, i);
    forall k: nat | InPayload(r, k)
      ensures InPayload(bs, k)
    {
      var a: nat, d: nat :| Live(r, a, d) && a < k < a + d;
      JoinLive(bs, i, a, d);
    }
  }

  lemma FreeIsRelease(bs: seq<Block>, area: nat)
    requires Tiles(bs, area)
    ensures |bs| > 0 && HeapSpec.Free(bs, Null) == bs
    ensures forall i :: 0 <= i < |bs| ==> HeapSpec.Free(bs, At(Addr(bs, i))) == Absorb(Mark(bs, i, false), i)
  {
    forall i | 0 <= i < |bs|
      ensures HeapSpec.Free(bs, At(Addr(bs, i))) == Absorb(Mark(bs, i, false), i)
    {
      hide Addr, Absorb, Mark;
      BlockAtFinds(bs, i, 0);
    }
  }

  /** What the loop of free learns from the header: whether the next block is free. */
  lemma NextIsFree(cells: seq<Cell>, bs: seq<Block>, i: nat)
    requires Tiles(bs, |cells|) && Linked(cells, bs) && i < |bs|
    requires Header(bs, i).next != NULL && 0 <= Header(bs, i).next < |cells| && !IsUsed(cells[Header(bs, i).next])
    ensures i + 1 < |bs| && !bs[i + 1].used
    ensures SizeOf(cells[Header(bs, i).next]) == cells[Header(bs, i).next].size
  {
    LinkedAt(cells, bs, i + 1);
    HeaderSays(bs, i + 1);
  }

  lemma NextIsInside(cells: seq<Cell>, bs: seq<Block>, i: nat)
    requires Linked(cells, bs) && i < |bs|
    ensures Header(bs, i).next == NULL || 0 <= Header(bs, i).next < |cells|
  {
    if i + 1 < |bs| { LinkedAt(cells, bs, i + 1); }
  }

  /** When the loop stops nothing is left to absorb; its third test, that the next block is adjacent,
      never decides. */
  lemma NextIsUsed(cells: seq<Cell>, bs: seq<Block>, i: nat)
    requires Tiles(bs, |cells|) && Linked(cells, bs) && i < |bs|
    requires var h := Header(bs, i); h.next == NULL || 0 <= h.next < |cells|
    requires var h := Header(bs, i);
             !(h.next != NULL && !IsUsed(cells[h.next]) && Addr(bs, i) + SizeOf(h) / 8 == h.next)
    ensures Absorb(bs, i) == bs
  {
    HeaderSays(bs, i);
    if i + 1 < |bs| {
      LinkedAt(cells, bs, i + 1);
      HeaderSays(bs, i + 1);
    }
  }

  /** What malloc hands out was nobody's before, is large enough, and nothing is taken for it. */
  lemma NewPayload(bs: seq<Block>, area: nat, size: nat)
    requires Tiles(bs, area) && HeapSpec.Malloc(bs, size).1.At?
    ensures var (r, p) := HeapSpec.Malloc(bs, size);
            && (forall k: nat :: p.header < k && 8 * (k - p.header) < size + 8 ==> InPayload(r, k) && !InPayload(bs, k))
            && (forall k: nat :: InPayload(bs, k) ==> InPayload(r, k))
  {
    hide HeapSpec.Malloc, Live, Addr;
    MallocHandsOutOne(bs, area, size);
    var (r, p) := HeapSpec.Malloc(bs, size);
    var c: nat :| 8 * (c - 1) >= size && OneMoreLive(bs, r, p.header, c) && FreeCells(r) + c == FreeCells(bs);
    forall k: nat | p.header < k && 8 * (k - p.header) < size + 8
      ensures InPayload(r, k) && !InPayload(bs, k)
    {
      assert Live(r, p.header, c) && p.header < k < p.header + c;
      if a: nat, d: nat :| Live(bs, a, d) && a < k < a + d {
        LiveBlocksAreApart(r, a, d, p.header, c);
      }
    }
  }

  ghost predicate Cleared(cells: seq<Cell>, p: int, n: nat) {
    forall k :: p <= k < p + n ==> 0 <= k < |cells| && cells[k] == ZERO
  }

  /** `n` cells from `p` on in `s` are found from `q` on in `t`. */
  ghost predicate Copied(s: seq<Cell>, p: int, t: seq<Cell>, q: int, n: nat) {
    && 0 <= p && p + n <= |s| && 0 <= q && q + n <= |t|
    && forall k :: q <= k < q + n ==> t[k] == s[k - q + p]
  }

  lemma CopiedItself(s: seq<Cell>, p: nat, n: nat)
    requires p + n <= |s|
    ensures Copied(s, p, s, p, n)
  {
  }

  lemma KeepsCopy(r: seq<Cell>, s: seq<Cell>, p: nat, t: seq<Cell>, u: seq<Cell>, q: nat, n: nat)
    requires Copied(s, p, t, q, n) && |r| == |s| && |u| == |t|
    requires forall k :: p <= k < p + n ==> r[k] == s[k]
    requires forall k :: q <= k < q + n ==> u[k] == t[k]
    ensures Copied(r, p, u, q, n)
  {
    forall k | q <= k < q + n
      ensures u[k] == r[k - q + p]
    {
      assert r[k - q + p] == s[k - q + p];
    }
  }

  /** The cells behind the header of the block named by `p`. */
  function PayloadCells(bs: seq<Block>, p: nat): nat
    requires p >= 1
  {
    var i := BlockAt(bs, p - 1, 0);
    if i < |bs| && bs[i].cells >= 1 then bs[i].cells - 1 else 0
  }

  lemma AllPayloadInside(bs: seq<Block>, area: nat)
    requires Tiles(bs, area)
    ensures forall k: nat :: InPayload(bs, k) ==> k < area
  {
    forall k: nat | InPayload(bs, k)
      ensures k < area
    {
      PayloadIsApart(bs, area, 0, k);
    }
  }

  lemma PayloadOf(bs: seq<Block>, area: nat, i: nat)
    requires Tiles(bs, area) && i < |bs| && bs[i].used
    ensures BlockAt(bs, Addr(bs, i), 0) == i
    ensures bs[i].cells >= 1 && PayloadCells(bs, Addr(bs, i) + 1) == bs[i].cells - 1
    ensures Addr(bs, i) + bs[i].cells <= area
    ensures forall k: nat :: Addr(bs, i) < k < Addr(bs, i) + bs[i].cells ==> InPayload(bs, k)
  {
    hide Addr;
    BlockAtFinds(bs, i, 0);
    AddrGrows(bs, i, |bs|);
    LiveAt(bs, i);
  }

  /** When realloc has to move block `i`, the new block lies elsewhere, has room for all of the old one,
      and keeps its payload when the old block is given back. */
  lemma MoveIsSound(bs: seq<Block>, area: nat, i: nat, size: nat)
    requires Tiles(bs, area) && i < |bs| && bs[i].used && size + 8 > 8 * bs[i].cells
    requires HeapSpec.Malloc(bs, size).1.At?
    ensures var (m, q) := HeapSpec.Malloc(bs, size);
            var p := Addr(bs, i);
            && bs[i].cells >= 1 && Handed(m, p)
            && q.header + bs[i].cells <= area
            && (p + bs[i].cells <= q.header + 1 || q.header + bs[i].cells <= p + 1)
            && (forall k: nat :: InPayload(bs, k) ==> InPayload(m, k))
            && (forall k: nat :: q.header < k < q.header + bs[i].cells ==>
                  InPayload(m, k) && !InPayload(bs, k) && InPayload(HeapSpec.Free(m, At(p)), k))
  {
    hide HeapSpec.Malloc, HeapSpec.Free, Addr, Live, FreeCells, InPayload;
    var p, held := Addr(bs, i), bs[i].cells;
    var (m, q) := HeapSpec.Malloc(bs, size);
    MallocHandsOutOne(bs, area, size);
    NewPayload(bs, area, size);
    var c: nat :| 8 * (c - 1) >= size && OneMoreLive(bs, m, q.header, c) && FreeCells(m) + c == FreeCells(bs);
    LiveAt(bs, i);
    var j := LiveBlock(m, p, held);
    LiveBlocksAreApart(m, p, held, q.header, c);
    FreeTakesOneBack(m, area, j);
    LiveIsInside(m, area, q.header, c);
    assert Live(HeapSpec.Free(m, At(p)), q.header, c);
    forall k: nat | q.header < k < q.header + held
      ensures InPayload(HeapSpec.Free(m, At(p)), k)
    {
      InsideLive(HeapSpec.Free(m, At(p)), q.header, c, k);
    }
  }

  /** What a caller holds: NULL, or the cell behind the header. */
  function Names(p: int): Pointer
    requires p == NULL || p >= 1
  {
    if p == NULL then Null else At(p - 1)
  }

  /** Memory cleared to zero bytes. */
  const ZERO := Cell(0, NULL)

  class ShimHeap {
    const area: array<Cell>
    var freeTotal: nat
    ghost var blocks: seq<Block>

    ghost predicate Valid()
      reads this, area
    {
      Tiles(blocks, area.Length) && Linked(area[..], blocks) && freeTotal == 8 * FreeCells(blocks)
    }

    /** `p` was handed out and not given back. */
    ghost predicate Owned(p: int)
      reads this
    {
      p >= 1 && Handed(blocks, p - 1)
    }

    /** esp_shim_heap_initialize */
    constructor (cells: nat)
      requires cells >= 1
      ensures Valid() && fresh(area) && area.Length == cells && blocks == Fresh(cells)
    {
      area := new Cell[cells];
      freeTotal := 8 * cells;
      blocks := Fresh(cells);
      new;
      area[0] := Cell(8 * cells, NULL);
      FreshTiles(cells);
    }

    /** A client writes into memory it was given: that never harms the heap. */
    method ClientWrite(k: nat, v: Cell)
      requires Valid() && InPayload(blocks, k)
      modifies area
      ensures Valid() && k < area.Length && area[..] == old(area[..])[k := v]
    {
      hide Addr, InPayload;
      PayloadIsApart(blocks, area.Length, 0, k);
      forall i | 0 <= i < |blocks|
        ensures Addr(blocks, i) != k
      {
        PayloadIsApart(blocks, area.Length, i, k);
      }
      area[k] := v;
    }

    /** The block at `b`, of at least `need` bytes and free, is handed out. */
    method HandOut(b: nat, need: nat, ghost i: nat, ghost n: nat)
      requires Valid() && i < |blocks| && b == Addr(blocks, i)
      requires need == 8 * n && n >= 2 && Fits(blocks[i], n)
      modifies this, area
      ensures Valid() && blocks == Take(old(blocks), i, n)
      ensures forall k: nat :: InPayload(old(blocks), k) ==> k < area.Length && area[k] == old(area[k])
    {
      hide Addr, InPayload, Live, FreeCells, Linked, Take, Header, OneMoreLive, SizeOf, IsUsed, Cut, Mark, Tiles;
      ghost var bs, cells := blocks, area[..];
      assert b < area.Length && area[b] == Header(bs, i) by { LinkedAt(cells, bs, i); }
      TakeIsSound(bs, area.Length, i, n);
      TakeIs(bs, i, n);
      HeaderSays(bs, i);
      ghost var c := bs[i].cells;
      if SizeOf(area[b]) >= need + 8 + 16 {
        LinkedAfterCut(cells, bs, i, n);
        var rest := b + need / 8;
        area[rest] := Cell(SizeOf(area[b]) - need, area[b].next);
        area[b] := Cell(need, rest);
        Tagged(n, true, rest);
      } else {
        LinkedAfterMark(cells, bs, i, true);
        Tagged(c, true, area[b].next);
      }
      area[b] := area[b].(size := area[b].size + 1);
      freeTotal := freeTotal - SizeOf(area[b]);
      blocks := Take(bs, i, n);
      assert area[..] == if c >= n + 3
                         then cells[b + n := Cell(8 * (c - n), cells[b].next)][b := Cell(8 * n + 1, b + n)]
                         else cells[b := Cell(8 * c + 1, cells[b].next)];
      forall k: nat | InPayload(bs, k)
        ensures k < area.Length && area[k] == cells[k]
      {
        PayloadIsApart(bs, area.Length, i, k);
      }
    }

    method Malloc(size: nat) returns (p: int)
      requires Valid()
      modifies this, area
      ensures Valid() && (p == NULL || p >= 1)
      ensures (blocks, Names(p)) == HeapSpec.Malloc(old(blocks), size)
      ensures forall k: nat :: InPayload(old(blocks), k) ==> k < area.Length && area[k] == old(area[k])
    {
      hide Addr, InPayload, Live, FreeCells, Take, Linked, Tiles, Header;
      var need := (if size == 0 then 1 else size) + 7;
      need := need - need % 8 + 8;
      ghost var i := 0;
      var b := 0;
      assert Addr(blocks, 0) == 0 && |blocks| > 0 by { AddrOfFirst(blocks, area.Length); }
      while b != NULL
        invariant i <= |blocks| && b == (if i < |blocks| then Addr(blocks, i) else NULL)
        invariant forall k :: 0 <= k < i ==> !Fits(blocks[k], Need(size))
        invariant unchanged(this) && unchanged(area) && Valid()
        decreases |blocks| - i
      {
        LinkedAt(area[..], blocks, i);
        HeaderSays(blocks, i);
        if !IsUsed(area[b]) && SizeOf(area[b]) >= need {
          HandOut(b, need, i, Need(size));
          p := b + 1;
          return;
        }
        b := area[b].next;
        i := i + 1;
      }
      p := NULL;
      forall k: nat | InPayload(blocks, k)
        ensures k < area.Length
      {
        PayloadIsApart(blocks, area.Length, 0, k);
      }
    }

    /** The loop of esp_shim_free: the free block at `b` absorbs the free blocks that follow it. */
    method Coalesce(b: nat, ghost i: nat)
      requires Valid() && i < |blocks| && !blocks[i].used && b == Addr(blocks, i)
      modifies this`blocks, area
      ensures Valid() && blocks == Absorb(old(blocks), i)
      ensures forall k: nat :: InPayload(blocks, k) ==> InPayload(old(blocks), k)
      ensures forall k: nat :: k < area.Length && k != b ==> area[k] == old(area[k])
    {
      hide Addr, Live, FreeCells, InPayload, Linked, Header, Absorb, Join, Tiles;
      LinkedAt(area[..], blocks, i);
      NextIsInside(area[..], blocks, i);
      while area[b].next != NULL && !IsUsed(area[area[b].next]) && b + SizeOf(area[b]) / 8 == area[b].next
        invariant Valid() && i < |blocks| && !blocks[i].used && freeTotal == old(freeTotal)
        invariant b == Addr(blocks, i) < area.Length
        invariant area[b].next == NULL || 0 <= area[b].next < area.Length
        invariant area[b] == Header(blocks, i)
        invariant Absorb(blocks, i) == Absorb(old(blocks), i)
        invariant forall k: nat :: InPayload(blocks, k) ==> InPayload(old(blocks), k)
        invariant forall k: nat :: k < area.Length && k != b ==> area[k] == old(area[k])
        decreases |blocks|
      {
        NextIsFree(area[..], blocks, i);
        LinkedAfterJoin(area[..], blocks, i);
        JoinIsSound(blocks, area.Length, i);
        HeaderSays(blocks, i);
        ghost var before := area[..];
        var next := area[b].next;
        area[b] := Cell(SizeOf(area[b]) + SizeOf(area[next]), area[next].next);
        blocks := Join(blocks, i);
        assert area[..] == before[b := Cell(before[b].size + before[next].size, before[next].next)];
        LinkedAt(area[..], blocks, i);
        NextIsInside(area[..], blocks, i);
      }
      NextIsUsed(area[..], blocks, i);
    }

    method Free(p: int)
      requires Valid() && (p == NULL || Owned(p))
      modifies this, area
      ensures Valid() && blocks == HeapSpec.Free(old(blocks), Names(p))
      ensures forall k: nat :: InPayload(blocks, k) ==>
                InPayload(old(blocks), k) && k < area.Length && area[k] == old(area[k])
    {
      hide Addr, Live, FreeCells, InPayload, Linked, Header, Absorb, Join, Mark, Tiles, Handed, HeapSpec.Free;
      FreeIsRelease(blocks, area.Length);
      if p == NULL {
        forall k: nat | InPayload(blocks, k)
          ensures k < area.Length
        {
          PayloadIsApart(blocks, area.Length, 0, k);
        }
        return;
      }
      var b := p - 1;
      ghost var i := HandedBlock(blocks, b);
      ghost var bs, cells := blocks, area[..];
      ghost var m := Mark(bs, i, false);
      assert b < area.Length && area[b] == Header(bs, i) by { LinkedAt(cells, bs, i); }
      UnmarkIsSound(bs, area.Length, i);
      assert HeapSpec.Free(bs, At(b)) == Absorb(m, i);
      LinkedAfterMark(cells, bs, i, false);
      HeaderSays(bs, i);
      area[b] := area[b].(size := SizeOf(area[b]));
      assert area[..] == cells[b := Cell(8 * bs[i].cells, cells[b].next)];
      freeTotal := freeTotal + SizeOf(area[b]);
      blocks := m;
      Coalesce(b, i);
      forall k: nat | InPayload(blocks, k)
        ensures InPayload(bs, k) && k < area.Length && area[k] == cells[k]
      {
        PayloadIsApart(bs, area.Length, i, k);
      }
    }

    /** memset to zero of `n` cells of a payload. */
    method Clear(p: nat, n: nat)
      requires Valid() && forall k: nat :: p <= k < p + n ==> InPayload(blocks, k)
      modifies area
      ensures Valid() && Cleared(area[..], p, n)
      ensures forall k: nat :: k < area.Length && !(p <= k < p + n) ==> area[k] == old(area[k])
    {
      hide Addr, InPayload, Tiles, Linked, FreeCells;
      for i := 0 to n
        invariant Valid() && Cleared(area[..], p, i)
        invariant forall k: nat :: k < area.Length && !(p <= k < p + n) ==> area[k] == old(area[k])
      {
        ClientWrite(p + i, ZERO);
      }
    }

    /** memcpy of `n` cells into a payload. */
    method Copy(q: nat, p: nat, n: nat)
      requires Valid() && forall k: nat :: q <= k < q + n ==> InPayload(blocks, k)
      requires p + n <= area.Length && q + n <= area.Length && (p + n <= q || q + n <= p)
      modifies area
      ensures Valid() && Copied(old(area[..]), p, area[..], q, n)
      ensures forall k: nat :: k < area.Length && !(q <= k < q + n) ==> area[k] == old(area[k])
    {
      hide Addr, InPayload, Tiles, Linked, FreeCells;
      for i := 0 to n
        invariant Valid() && Copied(old(area[..]), p, area[..], q, i)
        invariant forall k: nat :: k < area.Length && !(q <= k < q + n) ==> area[k] == old(area[k])
      {
        ClientWrite(q + i, area[p + i]);
      }
    }

    /** esp_shim_calloc: the whole cells of the request are cleared. */
    method Calloc(n: nat, size: nat) returns (p: int)
      requires Valid()
      modifies this, area
      ensures Valid() && (p == NULL || p >= 1)
      ensures (blocks, Names(p)) == HeapSpec.Malloc(old(blocks), n * size)
      ensures p != NULL ==> Cleared(area[..], p, n * size / 8)
      ensures forall k: nat :: InPayload(old(blocks), k) ==> k < area.Length && area[k] == old(area[k])
    {
      hide Addr, Live, FreeCells, InPayload, HeapSpec.Malloc, Tiles, Linked, Cleared;
      var bytes := n * size;
      ghost var bs := blocks;
      p := Malloc(bytes);
      if p != NULL {
        NewPayload(bs, area.Length, bytes);
        Clear(p, bytes / 8);
      }
    }

    method Realloc(p: int, size: nat) returns (q: int)
      requires Valid() && (p == NULL || Owned(p))
      modifies this, area
      ensures Valid() && (q == NULL || q >= 1)
      ensures (blocks, Names(q)) == HeapSpec.Realloc(old(blocks), Names(p), size)
      ensures forall k: nat :: InPayload(old(blocks), k) && InPayload(blocks, k) ==>
                k < area.Length && area[k] == old(area[k])
      ensures p != NULL && q != NULL ==> Copied(old(area[..]), p, area[..], q, PayloadCells(old(blocks), p))
    {
      hide Addr, Live, FreeCells, InPayload, HeapSpec.Malloc, HeapSpec.Free;
      hide Tiles, Linked, Handed, Copied, Header, PayloadCells;
      AllPayloadInside(blocks, area.Length);
      if p == NULL {
        q := Malloc(size);
        return;
      }
      if size == 0 {
        Free(p);
        q := NULL;
        return;
      }
      var b := p - 1;
      ghost var bs, cells := blocks, area[..];
      ghost var i := HandedBlock(bs, b);
      LinkedAt(cells, bs, i);
      HeaderSays(bs, i);
      PayloadOf(bs, area.Length, i);
      var held := SizeOf(area[b]) - 8;
      if held >= size {
        q := p;
        CopiedItself(cells, p, PayloadCells(bs, p));
        return;
      }
      q := Malloc(size);
      if q != NULL {
        MoveIsSound(bs, area.Length, i, size);
        ghost var before := area[..];
        Copy(q, p, held / 8);
        ghost var moved := area[..];
        Free(p);
        forall k | q <= k < q + held / 8
          ensures area[..][k] == moved[k]
        {
          assert InPayload(blocks, k);
        }
        KeepsCopy(cells, before, p, moved, area[..], q, held / 8);
      }
    }
  }
}
