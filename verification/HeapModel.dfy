/** The first-fit heap of rt-thread/src/mem.c seen as a list of blocks.

    Every offset is a number of 4-byte words from `heap_ptr`: the C code keeps every
    offset and size a multiple of RT_ALIGN_SIZE (4), and a header is three words. */
module HeapModel {

  /** SIZEOF_STRUCT_MEM and MIN_SIZE_ALIGNED, both 12 bytes. */
  const HDR: nat := 3
  const MIN: nat := 3

  /** A header together with the words it governs: [start, next). */
  datatype Block = Block(start: nat, next: nat, live: bool) {
    /** The number of payload words. */
    function Capacity(): int { next - start - HDR }
  }

  /* ---- Tiling ---- */

  ghost predicate Linked(bs: seq<Block>, i: int, end: nat)
    requires 0 <= i < |bs|
  {
    && bs[i].start == (if i == 0 then 0 else bs[i - 1].next)
    && bs[i].start + HDR <= bs[i].next
    && (i == |bs| - 1 ==> bs[i].next == end)
  }

  /** The blocks partition [0, end) in address order. */
  ghost predicate Tiles(bs: seq<Block>, end: nat) {
    && |bs| > 0
    && forall i | 0 <= i < |bs| :: Linked(bs, i, end)
  }

  ghost predicate Guarded(bs: seq<Block>, i: int)
    requires 0 <= i < |bs| - 1
  {
    bs[i].live || bs[i + 1].live
  }

  /** No two neighbouring blocks are both free. */
  ghost predicate Coalesced(bs: seq<Block>) {
    forall i | 0 <= i < |bs| - 1 :: Guarded(bs, i)
  }

  /** `lf` is the offset of the lowest free block, or `end` when there is none. */
  ghost predicate IsLowestFree(bs: seq<Block>, lf: nat, end: nat) {
    && (forall i | 0 <= i < |bs| && !bs[i].live :: lf <= bs[i].start)
    && (lf == end || exists i :: 0 <= i < |bs| && !bs[i].live && bs[i].start == lf)
  }

  lemma {:induction false} Ordered(bs: seq<Block>, end: nat, i: int, j: int)
    requires Tiles(bs, end) && 0 <= i < j < |bs|
    ensures bs[i].next <= bs[j].start
    decreases j
  {
    assert Linked(bs, j, end);
    if i < j - 1 {
      Ordered(bs, end, i, j - 1);
      assert Linked(bs, j - 1, end);
    }
  }

  lemma Bounded(bs: seq<Block>, end: nat, i: int)
    requires Tiles(bs, end) && 0 <= i < |bs|
    ensures bs[i].start + HDR <= bs[i].next <= end
  {
    assert Linked(bs, i, end) && Linked(bs, |bs| - 1, end);
    if i < |bs| - 1 { Ordered(bs, end, i, |bs| - 1); }
  }

  lemma OrderedAll(bs: seq<Block>, end: nat)
    requires Tiles(bs, end)
    ensures forall i, j | 0 <= i < j < |bs| :: bs[i].next <= bs[j].start
    ensures forall i | 0 <= i < |bs| :: bs[i].start + HDR <= bs[i].next <= end
    ensures forall i, j | 0 <= i < |bs| && 0 <= j < |bs| && bs[i].start == bs[j].start :: i == j
  {
    forall i, j | 0 <= i < j < |bs| ensures bs[i].next <= bs[j].start { Ordered(bs, end, i, j); }
    forall i | 0 <= i < |bs| ensures bs[i].start + HDR <= bs[i].next <= end { Bounded(bs, end, i); }
  }

  /** The offset of the first free block, or `end`. */
  ghost function LowestFree(bs: seq<Block>, end: nat): nat {
    if bs == [] then end else if !bs[0].live then bs[0].start else LowestFree(bs[1..], end)
  }

  lemma {:induction false} LowestFreeSpec(bs: seq<Block>, end: nat)
    requires forall i, j | 0 <= i < j < |bs| :: bs[i].start <= bs[j].start
    requires forall i | 0 <= i < |bs| :: bs[i].start < end
    ensures IsLowestFree(bs, LowestFree(bs, end), end)
  {
    if bs != [] {
      var t := bs[1..];
      LowestFreeSpec(t, end);
      if bs[0].live {
        assert forall i | 0 <= i < |bs| && !bs[i].live :: bs[i] == t[i - 1];
        if LowestFree(t, end) != end {
          var k :| 0 <= k < |t| && !t[k].live && t[k].start == LowestFree(t, end);
          assert bs[k + 1] == t[k];
        }
      }
    }
  }

  /** The quantified description of the lowest free offset has exactly one solution. */
  lemma LowestFreeIs(bs: seq<Block>, lf: nat, end: nat)
    requires Tiles(bs, end)
    ensures IsLowestFree(bs, lf, end) <==> lf == LowestFree(bs, end)
  {
    forall i | 0 <= i < |bs| ensures bs[i].start < end { Bounded(bs, end, i); }
    forall i, j | 0 <= i < j < |bs| ensures bs[i].start <= bs[j].start {
      Ordered(bs, end, i, j);
      Bounded(bs, end, i);
    }
    LowestFreeSpec(bs, end);
  }

  /* ---- Replacing one or two neighbours ---- */

  function Splice(bs: seq<Block>, i: int, k: int, mid: seq<Block>): (r: seq<Block>)
    requires 0 <= i <= i + k <= |bs|
  {
    bs[..i] + mid + bs[i + k..]
  }

  /** `mid` covers exactly the words of the `k` blocks at `i`. */
  ghost predicate Covers(bs: seq<Block>, i: int, k: int, mid: seq<Block>) {
    && 0 <= i < i + k <= |bs| && 1 <= |mid| <= 2
    && mid[0].start == bs[i].start && mid[|mid| - 1].next == bs[i + k - 1].next
    && mid[0].start + HDR <= mid[0].next
    && (|mid| == 2 ==> mid[0].next == mid[1].start && mid[1].start + HDR <= mid[1].next)
  }

  lemma SpliceTiles(bs: seq<Block>, end: nat, i: int, k: int, mid: seq<Block>)
    requires Tiles(bs, end) && Covers(bs, i, k, mid)
    ensures Tiles(Splice(bs, i, k, mid), end)
  {
    var r := Splice(bs, i, k, mid);
    assert Linked(bs, i, end) && Linked(bs, i + k - 1, end);
    forall x | 0 <= x < |r| ensures Linked(r, x, end) {
      if x < i {
        assert Linked(bs, x, end);
      } else if x >= i + |mid| {
        assert r[x] == bs[x - |mid| + k];
        assert Linked(bs, x - |mid| + k, end);
      }
    }
  }

  /* ---- Accounting ---- */

  /** Words in live (or free) blocks, headers included. */
  function Extent(bs: seq<Block>, live: bool): (n: int) {
    if bs == [] then 0
    else (if bs[0].live == live then bs[0].next - bs[0].start else 0) + Extent(bs[1..], live)
  }

  lemma {:induction false} ExtentAppend(a: seq<Block>, b: seq<Block>, live: bool)
    ensures Extent(a + b, live) == Extent(a, live) + Extent(b, live)
  {
    if a == [] {
      assert a + b == b;
    } else {
      assert (a + b)[1..] == a[1..] + b;
      ExtentAppend(a[1..], b, live);
    }
  }

  function Weight(b: Block, live: bool): int { if b.live == live then b.next - b.start else 0 }

  lemma ExtentSmall(a: Block, b: Block, live: bool)
    ensures Extent([a], live) == Weight(a, live)
    ensures Extent([a, b], live) == Weight(a, live) + Weight(b, live)
  {
    assert [a][1..] == [] && [a, b][1..] == [b] && [b][1..] == [];
  }

  lemma ExtentSplice(bs: seq<Block>, i: int, k: int, mid: seq<Block>, live: bool)
    requires 0 <= i <= i + k <= |bs|
    ensures Extent(Splice(bs, i, k, mid), live) == Extent(bs, live) - Extent(bs[i..i + k], live) + Extent(mid, live)
  {
    ExtentAppend(bs[..i] + mid, bs[i + k..], live);
    ExtentAppend(bs[..i], mid, live);
    assert bs == bs[..i] + bs[i..i + k] + bs[i + k..];
    ExtentAppend(bs[..i] + bs[i..i + k], bs[i + k..], live);
    ExtentAppend(bs[..i], bs[i..i + k], live);
  }

  lemma {:induction false} ExtentTotal(bs: seq<Block>, end: nat)
    requires Tiles(bs, end)
    ensures Extent(bs, true) + Extent(bs, false) == end
    decreases |bs|
  {
    var n := |bs| - 1;
    assert Linked(bs, n, end);
    var front := bs[..n];
    assert bs == front + [bs[n]];
    ExtentAppend(front, [bs[n]], true);
    ExtentAppend(front, [bs[n]], false);
    if n > 0 {
      forall i | 0 <= i < n ensures Linked(front, i, bs[n].start) { assert Linked(bs, i, end); }
      ExtentTotal(front, bs[n].start);
    }
  }

  lemma {:induction false} ExtentNonNegative(bs: seq<Block>, live: bool)
    requires forall i | 0 <= i < |bs| :: bs[i].start <= bs[i].next
    ensures Extent(bs, live) >= 0
  {
    if bs != [] { ExtentNonNegative(bs[1..], live); }
  }
}
