/** The shim heap as the list of its blocks in address order.  Sizes are counted in cells of eight
    bytes; a block header is one cell. */
module HeapSpec {

  datatype Block = Block(cells: nat, used: bool)

  /** HB_ALIGN of the request plus the header, in bytes; a request of nothing counts as one byte. */
  function NeedBytes(size: nat): nat {
    ((if size == 0 then 1 else size) + 7) / 8 * 8 + 8
  }

  function Need(size: nat): (n: nat)
    ensures n >= 2 && 8 * n == NeedBytes(size) && 8 * (n - 1) >= size
  {
    NeedBytes(size) / 8
  }

  /** Where block `i` starts. */
  function Addr(bs: seq<Block>, i: nat): nat
    requires i <= |bs|
  {
    if i == 0 then 0 else Addr(bs, i - 1) + bs[i - 1].cells
  }

  function FreeCells(bs: seq<Block>): nat {
    if bs == [] then 0 else FreeCells(bs[..|bs| - 1]) + if bs[|bs| - 1].used then 0 else bs[|bs| - 1].cells
  }

  predicate Fits(b: Block, n: nat) {
    !b.used && b.cells >= n
  }

  /** The first block that fits, or the number of blocks. */
  function FirstFit(bs: seq<Block>, n: nat): (i: nat)
    ensures i <= |bs| && (forall k :: 0 <= k < i ==> !Fits(bs[k], n)) && (i < |bs| ==> Fits(bs[i], n))
  {
    FitFrom(bs, n, 0)
  }

  function FitFrom(bs: seq<Block>, n: nat, i: nat): (r: nat)
    requires i <= |bs|
    ensures i <= r <= |bs| && (forall k :: i <= k < r ==> !Fits(bs[k], n)) && (r < |bs| ==> Fits(bs[r], n))
    decreases |bs| - i
  {
    if i < |bs| && !Fits(bs[i], n) then FitFrom(bs, n, i + 1) else i
  }

  /** A block is split when a header and sixteen bytes would be left over. */
  predicate Splits(b: Block, n: nat) {
    b.cells >= n + 3
  }

  /** Block `i` is cut in two, the first part `n` cells long. */
  function Cut(bs: seq<Block>, i: nat, n: nat, u: bool, v: bool): seq<Block>
    requires i < |bs| && n <= bs[i].cells
  {
    bs[..i] + [Block(n, u), Block(bs[i].cells - n, v)] + bs[i + 1..]
  }

  /** Blocks `i` and `i + 1` become one. */
  function Join(bs: seq<Block>, i: nat): seq<Block>
    requires i + 1 < |bs|
  {
    bs[..i] + [Block(bs[i].cells + bs[i + 1].cells, bs[i].used)] + bs[i + 2..]
  }

  function Mark(bs: seq<Block>, i: nat, u: bool): seq<Block>
    requires i < |bs|
  {
    bs[i := bs[i].(used := u)]
  }

  /** Block `i` is handed out for a need of `n` cells. */
  function Take(bs: seq<Block>, i: nat, n: nat): seq<Block>
    requires i < |bs| && Fits(bs[i], n)
  {
    if Splits(bs[i], n) then Cut(bs, i, n, true, false) else Mark(bs, i, true)
  }

  /** Block `i` absorbs the free blocks that follow it. */
  function Absorb(bs: seq<Block>, i: nat): seq<Block>
    requires i < |bs|
    decreases |bs|
  {
    if i + 1 < |bs| && !bs[i + 1].used then Absorb(Join(bs, i), i) else bs
  }

  /** Block `i` is given back. */
  function Release(bs: seq<Block>, i: nat): seq<Block>
    requires i < |bs|
  {
    Absorb(Mark(bs, i, false), i)
  }

  /** The block that starts at `a`, searched from block `i` on, or the number of blocks. */
  function BlockAt(bs: seq<Block>, a: nat, i: nat): (r: nat)
    requires i <= |bs|
    ensures i <= r <= |bs| && (r < |bs| ==> Addr(bs, r) == a)
    decreases |bs| - i
  {
    if i < |bs| && Addr(bs, i) != a then BlockAt(bs, a, i + 1) else i
  }

  datatype Pointer = Null | At(header: nat)

  /** esp_shim_malloc */
  function Malloc(bs: seq<Block>, size: nat): (seq<Block>, Pointer) {
    var i := FirstFit(bs, Need(size));
    if i < |bs| then (Take(bs, i, Need(size)), At(Addr(bs, i))) else (bs, Null)
  }

  /** esp_shim_free; a pointer to no block is not something the caller may pass. */
  function Free(bs: seq<Block>, p: Pointer): seq<Block> {
    if p.Null? then bs
    else
      var i := BlockAt(bs, p.header, 0);
      if i < |bs| then Release(bs, i) else bs
  }

  /** esp_shim_realloc: a block that is large enough already stays; otherwise the new block is found
      before the old one is given back. */
  function Realloc(bs: seq<Block>, p: Pointer, size: nat): (seq<Block>, Pointer) {
    if p.Null? then Malloc(bs, size)
    else if size == 0 then (Free(bs, p), Null)
    else
      var i := BlockAt(bs, p.header, 0);
      if i < |bs| && 8 * bs[i].cells >= size + 8 then (bs, p)
      else
        var (r, q) := Malloc(bs, size);
        if q.Null? then (r, q) else (Free(r, p), q)
  }

  // ---------------------------------------------------------------- addresses

  /** Every block has room for its header. */
  predicate Proper(bs: seq<Block>) {
    forall i :: 0 <= i < |bs| ==> bs[i].cells >= 1
  }

  lemma {:induction false} AddrPrefix(a: seq<Block>, b: seq<Block>, i: nat)
    requires i <= |a| && i <= |b| && a[..i] == b[..i]
    ensures Addr(a, i) == Addr(b, i)
  {
    if i > 0 {
      assert a[..i][i - 1] == b[..i][i - 1];
      assert a[..i - 1] == a[..i][..i - 1] == b[..i][..i - 1] == b[..i - 1];
      AddrPrefix(a, b, i - 1);
    }
  }

  /** Two lists that agree behind some place keep their distances there. */
  lemma {:induction false} AddrSuffix(a: seq<Block>, i: nat, b: seq<Block>, j: nat, k: nat)
    requires i + k <= |a| && j + k <= |b| && a[i..] == b[j..] && Addr(a, i) == Addr(b, j)
    ensures Addr(a, i + k) == Addr(b, j + k)
  {
    if k > 0 {
      AddrSuffix(a, i, b, j, k - 1);
      assert a[i..][k - 1] == b[j..][k - 1];
    }
  }

  lemma {:induction false} AddrGrows(bs: seq<Block>, i: nat, j: nat)
    requires Proper(bs) && i < j <= |bs|
    ensures Addr(bs, i) + bs[i].cells <= Addr(bs, j)
  {
    if i < j - 1 {
      AddrGrows(bs, i, j - 1);
    }
  }

  /** No two blocks start at one address. */
  lemma BlockAtFinds(bs: seq<Block>, i: nat, k: nat)
    requires Proper(bs) && k <= i < |bs|
    ensures BlockAt(bs, Addr(bs, i), k) == i
    decreases i - k
  {
    if k < i {
      AddrGrows(bs, k, i);
      BlockAtFinds(bs, i, k + 1);
    }
  }

  lemma {:induction false} FreeCellsJoin(a: seq<Block>, b: seq<Block>)
    ensures FreeCells(a + b) == FreeCells(a) + FreeCells(b)
  {
    if b == [] {
      assert a + b == a;
    } else {
      var n := |b| - 1;
      assert (a + b)[..|a| + n] == a + b[..n];
      FreeCellsJoin(a, b[..n]);
    }
  }

  /** Replacing one stretch of the list by another. */
  lemma FreeCellsReplaced(bs: seq<Block>, i: nat, j: nat, mid: seq<Block>)
    requires i <= j <= |bs|
    ensures FreeCells(bs[..i] + mid + bs[j..]) + FreeCells(bs[i..j]) == FreeCells(bs) + FreeCells(mid)
  {
    FreeCellsJoin(bs[..i] + mid, bs[j..]);
    FreeCellsJoin(bs[..i], mid);
    assert bs == bs[..i] + (bs[i..j] + bs[j..]);
    FreeCellsJoin(bs[..i], bs[i..j] + bs[j..]);
    FreeCellsJoin(bs[i..j], bs[j..]);
  }

  lemma FreeCellsOfTwo(a: Block, b: Block)
    ensures FreeCells([a]) == (if a.used then 0 else a.cells)
    ensures FreeCells([a, b]) == (if a.used then 0 else a.cells) + if b.used then 0 else b.cells
  {
    assert [a][..0] == [] && [a, b][..1] == [a];
  }

  // ---------------------------------------------------------------- one step of the list

  /** Block `i` is cut in two: what lies behind moves up by one place and stays where it is. */
  lemma CutKeepsAddresses(bs: seq<Block>, i: nat, n: nat, u: bool, v: bool)
    requires i < |bs| && n <= bs[i].cells
    ensures var r := Cut(bs, i, n, u, v);
            && |r| == |bs| + 1
            && (forall k :: 0 <= k < i ==> r[k] == bs[k])
            && r[i] == Block(n, u) && r[i + 1] == Block(bs[i].cells - n, v)
            && (forall k :: i + 2 <= k < |r| ==> r[k] == bs[k - 1])
            && (forall k :: 0 <= k <= i ==> Addr(r, k) == Addr(bs, k))
            && Addr(r, i + 1) == Addr(bs, i) + n
            && (forall k :: i + 2 <= k <= |r| ==> Addr(r, k) == Addr(bs, k - 1))
  {
    var r := Cut(bs, i, n, u, v);
    forall k | 0 <= k <= i
      ensures Addr(r, k) == Addr(bs, k)
    {
      assert r[..k] == bs[..k];
      AddrPrefix(r, bs, k);
    }
    assert Addr(r, i + 1) == Addr(r, i) + n;
    assert Addr(r, i + 2) == Addr(r, i + 1) + (bs[i].cells - n) == Addr(bs, i + 1);
    forall k | i + 2 <= k <= |r|
      ensures Addr(r, k) == Addr(bs, k - 1)
    {
      AddrSuffix(r, i + 2, bs, i + 1, k - (i + 2));
    }
  }

  /** Block `i` is joined with the next: the reverse. */
  lemma JoinKeepsAddresses(bs: seq<Block>, i: nat)
    requires i + 1 < |bs|
    ensures var r := Join(bs, i);
            && |r| == |bs| - 1
            && (forall k :: 0 <= k < i ==> r[k] == bs[k])
            && r[i] == Block(bs[i].cells + bs[i + 1].cells, bs[i].used)
            && (forall k :: i + 1 <= k < |r| ==> r[k] == bs[k + 1])
            && (forall k :: 0 <= k <= i ==> Addr(r, k) == Addr(bs, k))
            && (forall k :: i + 1 <= k <= |r| ==> Addr(r, k) == Addr(bs, k + 1))
  {
    var r := Join(bs, i);
    forall k | 0 <= k <= i
      ensures Addr(r, k) == Addr(bs, k)
    {
      assert r[..k] == bs[..k];
      AddrPrefix(r, bs, k);
    }
    assert Addr(r, i + 1) == Addr(r, i) + r[i].cells;
    assert Addr(bs, i + 2) == Addr(bs, i + 1) + bs[i + 1].cells;
    forall k | i + 1 <= k <= |r|
      ensures Addr(r, k) == Addr(bs, k + 1)
    {
      AddrSuffix(r, i + 1, bs, i + 2, k - (i + 1));
    }
  }

  lemma MarkKeepsAddresses(bs: seq<Block>, i: nat, u: bool)
    requires i < |bs|
    ensures forall k :: 0 <= k <= |bs| ==> Addr(Mark(bs, i, u), k) == Addr(bs, k)
  {
    forall k | 0 <= k <= |bs|
      ensures Addr(Mark(bs, i, u), k) == Addr(bs, k)
    {
      SameSizes(bs, Mark(bs, i, u), k);
    }
  }

  function FreeIn(b: Block): nat {
    if b.used then 0 else b.cells
  }

  lemma CutCells(bs: seq<Block>, i: nat, n: nat, u: bool, v: bool)
    requires i < |bs| && n <= bs[i].cells
    ensures FreeCells(Cut(bs, i, n, u, v)) + FreeIn(bs[i])
         == FreeCells(bs) + FreeIn(Block(n, u)) + FreeIn(Block(bs[i].cells - n, v))
  {
    hide FreeCells;
    FreeCellsReplaced(bs, i, i + 1, [Block(n, u), Block(bs[i].cells - n, v)]);
    assert bs[i..i + 1] == [bs[i]];
    FreeCellsOfTwo(bs[i], bs[i]);
    FreeCellsOfTwo(Block(n, u), Block(bs[i].cells - n, v));
  }

  lemma JoinCells(bs: seq<Block>, i: nat)
    requires i + 1 < |bs| && bs[i].used == bs[i + 1].used
    ensures FreeCells(Join(bs, i)) == FreeCells(bs)
  {
    var b := Block(bs[i].cells + bs[i + 1].cells, bs[i].used);
    FreeCellsReplaced(bs, i, i + 2, [b]);
    assert bs[i..i + 2] == [bs[i], bs[i + 1]];
    FreeCellsOfTwo(bs[i], bs[i + 1]);
    FreeCellsOfTwo(b, b);
  }

  lemma MarkCells(bs: seq<Block>, i: nat, u: bool)
    requires i < |bs|
    ensures FreeCells(Mark(bs, i, u)) + FreeIn(bs[i]) == FreeCells(bs) + FreeIn(bs[i].(used := u))
  {
    hide FreeCells;
    var b := bs[i].(used := u);
    FreeCellsReplaced(bs, i, i + 1, [b]);
    assert bs[i..i + 1] == [bs[i]];
    assert Mark(bs, i, u) == bs[..i] + [b] + bs[i + 1..];
    FreeCellsOfTwo(bs[i], bs[i]);
    FreeCellsOfTwo(b, b);
  }

  lemma {:induction false} SameSizes(a: seq<Block>, b: seq<Block>, k: nat)
    requires k <= |a| == |b| && forall i :: 0 <= i < |a| ==> a[i].cells == b[i].cells
    ensures Addr(a, k) == Addr(b, k)
  {
    if k > 0 {
      SameSizes(a, b, k - 1);
    }
  }
}
