/** What rt_smem_alloc, rt_smem_free and rt_smem_realloc do to the block list, and what every
    sequence of such calls preserves. */
module HeapOps {
  import opened Common
  import opened HeapModel

  /** The accounting state of one heap: `size` is mem_size_aligned and `seen` lists every value
      that `used` has held, oldest first. All in words. */
  datatype Heap = Heap(size: nat, blocks: seq<Block>, used: int, max: int, seen: seq<int>) {
    function End(): nat { size + HDR }
  }

  ghost predicate IsMaximum(m: int, s: seq<int>) {
    m in s && forall x | x in s :: x <= m
  }

  ghost predicate Inv(h: Heap) {
    && Tiles(h.blocks, h.End())
    && Coalesced(h.blocks)
    && h.used == Extent(h.blocks, true)
    && |h.seen| > 0 && h.seen[|h.seen| - 1] == h.used
    && IsMaximum(h.max, h.seen)
  }

  /** The state set up by rt_smem_init. */
  function Fresh(size: nat): (h: Heap) {
    Heap(size, [Block(0, size + HDR, false)], 0, 0, [0])
  }

  /** RT_ALIGN(size, 4) / 4 in 32-bit arithmetic: the addition wraps. */
  function AlignWords(size: Word): (n: nat) {
    ((size + 3) % TWO32) / 4
  }

  /* ---- Block-list operations ---- */

  predicate Fits(b: Block, n: nat) { !b.live && b.Capacity() >= n }

  /** Index of the lowest block from `i` on that is free and holds `n` words, or |bs|. */
  function FirstFit(bs: seq<Block>, i: nat, n: nat): (r: nat)
    requires i <= |bs|
    ensures i <= r <= |bs|
    ensures r < |bs| ==> Fits(bs[r], n)
    ensures forall j {:trigger Fits(bs[j], n)} | i <= j < r :: !Fits(bs[j], n)
    decreases |bs| - i
  {
    if i == |bs| || Fits(bs[i], n) then i else FirstFit(bs, i + 1, n)
  }

  /** Index of the header at offset `start`, or |bs|. */
  function Find(bs: seq<Block>, i: nat, start: nat): (r: nat)
    requires i <= |bs|
    ensures i <= r <= |bs|
    ensures r < |bs| ==> bs[r].start == start
    ensures forall j | i <= j < r :: bs[j].start != start
    decreases |bs| - i
  {
    if i == |bs| || bs[i].start == start then i else Find(bs, i + 1, start)
  }

  /** Turn free block `i` live for `n` words, splitting when the rest holds a header and MIN words. */
  function Take(bs: seq<Block>, i: nat, n: nat): seq<Block>
    requires i < |bs|
  {
    var b := bs[i];
    if b.Capacity() >= n + HDR + MIN then
      Splice(bs, i, 1, [Block(b.start, b.start + HDR + n, true), Block(b.start + HDR + n, b.next, false)])
    else
      Splice(bs, i, 1, [Block(b.start, b.next, true)])
  }

  function Merge(bs: seq<Block>, i: nat): seq<Block>
    requires i + 1 < |bs|
  {
    Splice(bs, i, 2, [Block(bs[i].start, bs[i + 1].next, false)])
  }

  function PlugForward(bs: seq<Block>, i: nat): seq<Block>
    requires i < |bs|
  {
    if i + 1 < |bs| && !bs[i + 1].live then Merge(bs, i) else bs
  }

  function PlugBackward(bs: seq<Block>, i: nat): seq<Block>
    requires i < |bs|
  {
    if i > 0 && !bs[i - 1].live then Merge(bs, i - 1) else bs
  }

  /** plug_holes: merge free block `i` with its free neighbours. */
  function Plug(bs: seq<Block>, i: nat): seq<Block>
    requires i < |bs|
  {
    PlugBackward(PlugForward(bs, i), i)
  }

  function Release(bs: seq<Block>, i: nat): seq<Block>
    requires i < |bs|
  {
    Plug(Freed(bs, i), i)
  }

  /** Cut live block `i` down to `n` words before its tail is plugged. */
  function Cut(bs: seq<Block>, i: nat, n: nat): seq<Block>
    requires i < |bs|
  {
    var b := bs[i];
    Splice(bs, i, 1, [Block(b.start, b.start + HDR + n, true), Block(b.start + HDR + n, b.next, false)])
  }

  function Shrink(bs: seq<Block>, i: nat, n: nat): seq<Block>
    requires i < |bs|
  {
    Plug(Cut(bs, i, n), i + 1)
  }

  /* ---- Heap operations ---- */

  /** `p` is the payload offset of a live block. */
  predicate IsLive(bs: seq<Block>, p: nat) {
    p >= HDR && var i := Find(bs, 0, p - HDR); i < |bs| && bs[i].live
  }

  function SetUsed(h: Heap, bs: seq<Block>, u: int): Heap {
    Heap(h.size, bs, u, Max(h.max, u), h.seen + [u])
  }

  /** rt_smem_alloc for a request already rounded to `n` words. */
  function AllocWords(h: Heap, n: nat): (r: (Heap, Option<nat>)) {
    var w := Max(n, MIN);
    if w > h.size then (h, None)
    else
      var i := FirstFit(h.blocks, 0, w);
      if i == |h.blocks| then (h, None)
      else
        var bs := Take(h.blocks, i, w);
        (SetUsed(h, bs, h.used + bs[i].next - bs[i].start), Some(h.blocks[i].start + HDR))
  }

  function Alloc(h: Heap, size: Word): (Heap, Option<nat>) {
    if size == 0 then (h, None) else AllocWords(h, AlignWords(size))
  }

  function Free(h: Heap, p: nat): Heap
    requires IsLive(h.blocks, p)
  {
    var i := Find(h.blocks, 0, p - HDR);
    SetUsed(h, Release(h.blocks, i), h.used - (h.blocks[i].next - h.blocks[i].start))
  }

  /** The expanding path of realloc: allocate, (copy,) free. */
  function Relocate(h: Heap, p: nat, n: nat): (Heap, Option<nat>)
    requires Inv(h) && IsLive(h.blocks, p)
  {
    var (h1, q) := AllocWords(h, n);
    if q.None? then (h, None) else
      AllocSound(h, n);
      AllocKeepsPointer(h, n, p);
      (Free(h1, p), q)
  }

  function ReallocWords(h: Heap, p: nat, n: nat): (Heap, Option<nat>)
    requires Inv(h) && IsLive(h.blocks, p)
  {
    var i := Find(h.blocks, 0, p - HDR);
    var cap := h.blocks[i].Capacity();
    if cap == n then (h, Some(p))
    else if n + HDR + MIN < cap then
      (SetUsed(h, Shrink(h.blocks, i, n), h.used - (cap - n)), Some(p))
    else Relocate(h, p, n)
  }

  function Realloc(h: Heap, p: Option<nat>, size: Word): (Heap, Option<nat>)
    requires Inv(h) && (p.Some? ==> IsLive(h.blocks, p.value))
  {
    var n := AlignWords(size);
    if n > h.size then (h, None)
    else if n == 0 then (if p.Some? then Free(h, p.value) else h, None)
    else if p.None? then AllocWords(h, n)
    else ReallocWords(h, p.value, n)
  }

  /* ---- Live blocks ---- */

  ghost function LiveSet(bs: seq<Block>): set<Block> {
    if bs == [] then {} else (if bs[0].live then {bs[0]} else {}) + LiveSet(bs[1..])
  }

  lemma {:induction false} InLiveSet(bs: seq<Block>, b: Block)
    ensures b in LiveSet(bs) <==> b in bs && b.live
  {
    if bs != [] {
      InLiveSet(bs[1..], b);
      assert b in bs <==> b == bs[0] || b in bs[1..];
    }
  }

  lemma {:induction false} LiveAppend(a: seq<Block>, b: seq<Block>)
    ensures LiveSet(a + b) == LiveSet(a) + LiveSet(b)
  {
    if a == [] {
      assert a + b == b;
    } else {
      assert (a + b)[1..] == a[1..] + b;
      LiveAppend(a[1..], b);
    }
  }

  lemma LiveSmall(a: Block, b: Block)
    ensures LiveSet([a]) == if a.live then {a} else {}
    ensures LiveSet([a, b]) == LiveSet([a]) + LiveSet([b])
  {
    assert [a][1..] == [] && [a, b] == [a] + [b];
    LiveAppend([a], [b]);
  }

  lemma SpliceLive(bs: seq<Block>, i: int, k: int, mid: seq<Block>)
    requires 0 <= i <= i + k <= |bs|
    ensures LiveSet(Splice(bs, i, k, mid)) == LiveSet(bs[..i]) + LiveSet(mid) + LiveSet(bs[i + k..])
    ensures LiveSet(bs) == LiveSet(bs[..i]) + LiveSet(bs[i..i + k]) + LiveSet(bs[i + k..])
  {
    LiveAppend(bs[..i] + mid, bs[i + k..]);
    LiveAppend(bs[..i], mid);
    assert bs == bs[..i] + bs[i..i + k] + bs[i + k..];
    LiveAppend(bs[..i] + bs[i..i + k], bs[i + k..]);
    LiveAppend(bs[..i], bs[i..i + k]);
  }

  /** Merging free blocks changes neither the live blocks nor the live extent. */
  lemma MergeKeeps(bs: seq<Block>, end: nat, i: nat)
    requires Tiles(bs, end) && i + 1 < |bs| && !bs[i].live && !bs[i + 1].live
    ensures Tiles(Merge(bs, i), end)
    ensures LiveSet(Merge(bs, i)) == LiveSet(bs)
    ensures Extent(Merge(bs, i), true) == Extent(bs, true)
    ensures LowestFree(Merge(bs, i), end) == LowestFree(bs, end)
  {
    var mid := [Block(bs[i].start, bs[i + 1].next, false)];
    OrderedAll(bs, end);
    SpliceTiles(bs, end, i, 2, mid);
    SpliceLive(bs, i, 2, mid);
    assert bs[i..i + 2] == [bs[i], bs[i + 1]];
    LiveSmall(bs[i], bs[i + 1]);
    LiveSmall(bs[i + 1], mid[0]);
    LiveSmall(mid[0], mid[0]);
    ExtentSplice(bs, i, 2, mid, true);
    ExtentSmall(bs[i], bs[i + 1], true);
    ExtentSmall(mid[0], mid[0], true);
    LowestFreeIs(bs, LowestFree(bs, end), end);
    MergeLowest(bs, end, i, LowestFree(bs, end));
    LowestFreeIs(Merge(bs, i), LowestFree(bs, end), end);
  }

  lemma MergeLowest(bs: seq<Block>, end: nat, i: nat, lf: nat)
    requires Tiles(bs, end) && i + 1 < |bs| && !bs[i].live && !bs[i + 1].live
    requires IsLowestFree(bs, lf, end)
    ensures IsLowestFree(Merge(bs, i), lf, end)
  {
    OrderedAll(bs, end);
    var r := Merge(bs, i);
    forall x | 0 <= x < |r| && !r[x].live ensures lf <= r[x].start {
      assert x <= i ==> r[x].start == bs[x].start && !bs[x].live;
      assert x > i ==> r[x] == bs[x + 1];
    }
    if lf != end {
      var x :| 0 <= x < |bs| && !bs[x].live && bs[x].start == lf;
      assert x != i + 1;
      var y := if x <= i then x else x - 1;
      assert r[y].start == lf && !r[y].live;
    }
  }

  /** Coalesced everywhere but around block `i`. */
  ghost predicate CoalescedExcept(bs: seq<Block>, i: nat) {
    forall a | 0 <= a < |bs| - 1 && a != i && a + 1 != i :: Guarded(bs, a)
  }

  lemma ForwardCoalesces(bs: seq<Block>, i: nat)
    requires i < |bs| && !bs[i].live && CoalescedExcept(bs, i)
    ensures var f := PlugForward(bs, i);
      && i < |f| && !f[i].live && f[..i] == bs[..i]
      && CoalescedExcept(f, i) && (i + 1 < |f| ==> f[i + 1].live)
  {
    var f := PlugForward(bs, i);
    if i + 1 < |bs| && !bs[i + 1].live {
      forall a | 0 <= a < |f| - 1 && a != i && a + 1 != i ensures Guarded(f, a) {
        assert Guarded(bs, if a > i then a + 1 else a);
      }
      if i + 2 < |bs| { assert Guarded(bs, i + 1); }
    }
  }

  lemma BackwardCoalesces(f: seq<Block>, i: nat)
    requires i < |f| && !f[i].live && CoalescedExcept(f, i) && (i + 1 < |f| ==> f[i + 1].live)
    ensures Coalesced(PlugBackward(f, i))
  {
    var r := PlugBackward(f, i);
    if i > 0 && !f[i - 1].live {
      forall a | 0 <= a < |r| - 1 ensures Guarded(r, a) {
        if a < i - 1 {
          assert Guarded(f, a);
        } else if a > i - 1 {
          assert Guarded(f, a + 1);
        }
      }
    } else {
      forall a | 0 <= a < |r| - 1 ensures Guarded(r, a) {
        if a != i && a + 1 != i { assert Guarded(f, a); }
      }
    }
  }

  /** plug_holes on a free block: the list is coalesced again, every live block stays, and the
      lowest-free offset is still right. */
  lemma PlugKeeps(bs: seq<Block>, end: nat, i: nat)
    requires Tiles(bs, end) && i < |bs| && !bs[i].live && CoalescedExcept(bs, i)
    ensures Tiles(Plug(bs, i), end) && Coalesced(Plug(bs, i))
    ensures LiveSet(Plug(bs, i)) == LiveSet(bs)
    ensures Extent(Plug(bs, i), true) == Extent(bs, true)
    ensures LowestFree(Plug(bs, i), end) == LowestFree(bs, end)
  {
    var f := PlugForward(bs, i);
    ForwardCoalesces(bs, i);
    if f != bs { MergeKeeps(bs, end, i); }
    BackwardCoalesces(f, i);
    if PlugBackward(f, i) != f { MergeKeeps(f, end, i - 1); }
  }

  /* ---- Each operation keeps the invariant ---- */

  lemma NotElsewhere(bs: seq<Block>, end: nat, i: nat)
    requires Tiles(bs, end) && i < |bs|
    ensures bs[i] !in LiveSet(bs[..i]) && bs[i] !in LiveSet(bs[i + 1..])
  {
    InLiveSet(bs[..i], bs[i]);
    InLiveSet(bs[i + 1..], bs[i]);
    Bounded(bs, end, i);
    forall x | 0 <= x < i ensures bs[x] != bs[i] { Ordered(bs, end, x, i); Bounded(bs, end, x); }
    forall x | i < x < |bs| ensures bs[x] != bs[i] { Ordered(bs, end, i, x); }
  }

  lemma SpliceOne(bs: seq<Block>, end: nat, i: nat, mid: seq<Block>)
    requires Tiles(bs, end) && Covers(bs, i, 1, mid)
    ensures Tiles(Splice(bs, i, 1, mid), end)
    ensures LiveSet(Splice(bs, i, 1, mid)) == LiveSet(bs) - {bs[i]} + LiveSet(mid)
    ensures Extent(Splice(bs, i, 1, mid), true) == Extent(bs, true) - Weight(bs[i], true) + Extent(mid, true)
  {
    SpliceTiles(bs, end, i, 1, mid);
    SpliceLive(bs, i, 1, mid);
    assert bs[i..i + 1] == [bs[i]];
    LiveSmall(bs[i], bs[i]);
    NotElsewhere(bs, end, i);
    ExtentSplice(bs, i, 1, mid, true);
    ExtentSmall(bs[i], bs[i], true);
  }

  /** Taking a fitting free block: tiling, coalescing, and exactly one new live block. */
  lemma TakeKeeps(bs: seq<Block>, end: nat, i: nat, n: nat)
    requires Tiles(bs, end) && Coalesced(bs) && i < |bs| && Fits(bs[i], n)
    ensures var r := Take(bs, i, n);
      && Tiles(r, end) && Coalesced(r) && i < |r|
      && r[i].live && r[i].start == bs[i].start && r[i].Capacity() >= n && r[i].next <= bs[i].next
      && LiveSet(r) == LiveSet(bs) + {r[i]}
      && Extent(r, true) == Extent(bs, true) + r[i].next - r[i].start
  {
    var r := Take(bs, i, n);
    var b := bs[i];
    if b.Capacity() >= n + HDR + MIN {
      var mid := [Block(b.start, b.start + HDR + n, true), Block(b.start + HDR + n, b.next, false)];
      SpliceOne(bs, end, i, mid);
      InLiveSet(bs, bs[i]);
      ExtentSmall(mid[0], mid[1], true);
      forall x | 0 <= x < |r| - 1 ensures Guarded(r, x) {
        if x > i { assert Guarded(bs, x - 1); }
        if x < i - 1 { assert Guarded(bs, x); }
      }
      LiveSmall(mid[0], mid[1]);
      LiveSmall(mid[1], mid[1]);
    } else {
      var mid := [Block(b.start, b.next, true)];
      SpliceOne(bs, end, i, mid);
      InLiveSet(bs, bs[i]);
      ExtentSmall(mid[0], mid[0], true);
      forall x | 0 <= x < |r| - 1 ensures Guarded(r, x) { assert Guarded(bs, x); }
      LiveSmall(mid[0], mid[0]);
    }
  }

  function Freed(bs: seq<Block>, i: nat): seq<Block>
    requires i < |bs|
  {
    Splice(bs, i, 1, [bs[i].(live := false)])
  }

  lemma FreedKeeps(bs: seq<Block>, end: nat, i: nat)
    requires Tiles(bs, end) && Coalesced(bs) && i < |bs| && bs[i].live
    ensures var r := Freed(bs, i);
      && Tiles(r, end) && i < |r| && !r[i].live && CoalescedExcept(r, i)
      && LiveSet(r) == LiveSet(bs) - {bs[i]}
      && Extent(r, true) == Extent(bs, true) - (bs[i].next - bs[i].start)
  {
    var mid := [bs[i].(live := false)];
    Bounded(bs, end, i);
    SpliceOne(bs, end, i, mid);
    ExtentSmall(mid[0], mid[0], true);
    var r := Freed(bs, i);
    assert CoalescedExcept(r, i) by {
      forall x | 0 <= x < |r| - 1 && x != i && x + 1 != i ensures Guarded(r, x) { assert Guarded(bs, x); }
    }
    LiveSmall(mid[0], mid[0]);
  }

  lemma ReleaseKeeps(bs: seq<Block>, end: nat, i: nat)
    requires Tiles(bs, end) && Coalesced(bs) && i < |bs| && bs[i].live
    ensures Tiles(Release(bs, i), end) && Coalesced(Release(bs, i))
    ensures LiveSet(Release(bs, i)) == LiveSet(bs) - {bs[i]}
    ensures Extent(Release(bs, i), true) == Extent(bs, true) - (bs[i].next - bs[i].start)
  {
    FreedKeeps(bs, end, i);
    PlugKeeps(Freed(bs, i), end, i);
  }

  lemma CutKeeps(bs: seq<Block>, end: nat, i: nat, n: nat)
    requires Tiles(bs, end) && Coalesced(bs) && i < |bs| && bs[i].live && n + HDR + MIN < bs[i].Capacity()
    ensures var r := Cut(bs, i, n);
      && Tiles(r, end) && i + 1 < |r| && !r[i + 1].live && CoalescedExcept(r, i + 1)
      && LiveSet(r) == LiveSet(bs) - {bs[i]} + {Block(bs[i].start, bs[i].start + HDR + n, true)}
      && Extent(r, true) == Extent(bs, true) - (bs[i].Capacity() - n)
  {
    var b := bs[i];
    var mid := [Block(b.start, b.start + HDR + n, true), Block(b.start + HDR + n, b.next, false)];
    SpliceOne(bs, end, i, mid);
    ExtentSmall(mid[0], mid[1], true);
    var r := Cut(bs, i, n);
    assert CoalescedExcept(r, i + 1) by {
      forall x | 0 <= x < |r| - 1 && x != i + 1 && x + 1 != i + 1 ensures Guarded(r, x) {
        if x > i { assert Guarded(bs, x - 1); }
        if x < i { assert Guarded(bs, x); }
      }
    }
    LiveSmall(mid[0], mid[1]);
    LiveSmall(mid[1], mid[1]);
  }

  lemma ShrinkKeeps(bs: seq<Block>, end: nat, i: nat, n: nat)
    requires Tiles(bs, end) && Coalesced(bs) && i < |bs| && bs[i].live && n + HDR + MIN < bs[i].Capacity()
    ensures Tiles(Shrink(bs, i, n), end) && Coalesced(Shrink(bs, i, n))
    ensures LiveSet(Shrink(bs, i, n)) == LiveSet(bs) - {bs[i]} + {Block(bs[i].start, bs[i].start + HDR + n, true)}
    ensures Extent(Shrink(bs, i, n), true) == Extent(bs, true) - (bs[i].Capacity() - n)
  {
    CutKeeps(bs, end, i, n);
    PlugKeeps(Cut(bs, i, n), end, i + 1);
  }

  lemma SeenExtends(h: Heap, bs: seq<Block>, u: int)
    requires IsMaximum(h.max, h.seen)
    ensures IsMaximum(SetUsed(h, bs, u).max, SetUsed(h, bs, u).seen)
  {
    var s := h.seen + [u];
    assert s[|h.seen|] == u;
    assert forall x | x in s :: x in h.seen || x == u;
  }

  /** Lowering `used` leaves the maximum alone. */
  lemma Lowered(h: Heap, bs: seq<Block>, u: int)
    requires |h.seen| > 0 && h.seen[|h.seen| - 1] == h.used && IsMaximum(h.max, h.seen) && u <= h.used
    ensures SetUsed(h, bs, u) == Heap(h.size, bs, u, h.max, h.seen + [u]) && IsMaximum(h.max, h.seen + [u])
  {
    SeenExtends(h, bs, u);
    assert h.used in h.seen;
  }

  /** The block whose payload starts at `p`. */
  function At(bs: seq<Block>, p: nat): Block
    requires IsLive(bs, p)
  {
    bs[Find(bs, 0, p - HDR)]
  }

  lemma LiveIsFound(bs: seq<Block>, end: nat, b: Block)
    requires Tiles(bs, end) && b in LiveSet(bs)
    ensures IsLive(bs, b.start + HDR) && At(bs, b.start + HDR) == b
  {
    InLiveSet(bs, b);
    var k :| 0 <= k < |bs| && bs[k] == b;
    var i := Find(bs, 0, b.start);
    assert i <= k;
    Bounded(bs, end, i);
    if i < k { Ordered(bs, end, i, k); }
  }

  /** When no free block from the first index on fits, none does; a request larger than the heap never fits. */
  lemma NoFit(h: Heap, w: nat)
    requires Inv(h)
    ensures (w > h.size || FirstFit(h.blocks, 0, w) == |h.blocks|) <==> forall b | b in h.blocks :: !Fits(b, w)
  {
    var bs := h.blocks;
    var i := FirstFit(bs, 0, w);
    forall b | b in bs && (w > h.size || i == |bs|) ensures !Fits(b, w) {
      var k :| 0 <= k < |bs| && bs[k] == b;
      Bounded(bs, h.End(), k);
    }
    if i < |bs| {
      Bounded(bs, h.End(), i);
      assert bs[i] in bs;
    }
  }

  lemma Lowest(bs: seq<Block>, end: nat, w: nat, f: Block)
    requires Tiles(bs, end) && f in bs && Fits(f, w)
    ensures var i := FirstFit(bs, 0, w); i < |bs| && bs[i].start <= f.start
  {
    var i := FirstFit(bs, 0, w);
    var k :| 0 <= k < |bs| && bs[k] == f;
    if i < k { Ordered(bs, end, i, k); Bounded(bs, end, i); }
  }

  lemma SameStart(bs: seq<Block>, end: nat, a: Block, b: Block)
    requires Tiles(bs, end) && a in bs && b in bs && a.start == b.start
    ensures a == b
  {
    var i :| 0 <= i < |bs| && bs[i] == a;
    var j :| 0 <= j < |bs| && bs[j] == b;
    Bounded(bs, end, i);
    Bounded(bs, end, j);
    if i < j { Ordered(bs, end, i, j); }
    if j < i { Ordered(bs, end, j, i); }
  }

  /** Allocation keeps the invariant and every live block. It returns the lowest free block that
      can hold the request, and fails exactly when no free block of the heap can. */
  lemma AllocSound(h: Heap, n: nat)
    requires Inv(h)
    ensures var (h1, q) := AllocWords(h, n); var w := Max(n, MIN);
      && Inv(h1) && h1.size == h.size
      && (q.None? <==> forall b | b in h.blocks :: !Fits(b, w))
      && (q.None? ==> h1 == h)
      && (q.Some? ==>
            && IsLive(h1.blocks, q.value)
            && var b := At(h1.blocks, q.value);
               && b.Capacity() >= w && b !in LiveSet(h.blocks)
               && LiveSet(h1.blocks) == LiveSet(h.blocks) + {b}
               && (exists f :: f in h.blocks && Fits(f, w) && f.start == b.start && b.next <= f.next)
               && (forall f | f in h.blocks && Fits(f, w) :: b.start <= f.start))
  {
    var bs, w := h.blocks, Max(n, MIN);
    NoFit(h, w);
    var i := FirstFit(bs, 0, w);
    if w <= h.size && i < |bs| {
      TakeKeeps(bs, h.End(), i, w);
      var r := Take(bs, i, w);
      LiveIsFound(r, h.End(), r[i]);
      SeenExtends(h, r, h.used + r[i].next - r[i].start);
      forall f | f in bs && Fits(f, w) ensures r[i].start <= f.start { Lowest(bs, h.End(), w, f); }
      InLiveSet(bs, r[i]);
      if r[i] in bs { SameStart(bs, h.End(), r[i], bs[i]); }
      assert bs[i] in bs;
    }
  }

  lemma StillLive(bs: seq<Block>, bs1: seq<Block>, end: nat, p: nat)
    requires Tiles(bs1, end) && IsLive(bs, p) && LiveSet(bs) <= LiveSet(bs1)
    ensures IsLive(bs1, p) && At(bs1, p) == At(bs, p)
  {
    InLiveSet(bs, At(bs, p));
    LiveIsFound(bs1, end, At(bs, p));
  }

  lemma AllocKeepsPointer(h: Heap, n: nat, p: nat)
    requires Inv(h) && IsLive(h.blocks, p)
    ensures var h1 := AllocWords(h, n).0; IsLive(h1.blocks, p) && At(h1.blocks, p) == At(h.blocks, p)
  {
    AllocSound(h, n);
    StillLive(h.blocks, AllocWords(h, n).0.blocks, h.End(), p);
  }

  lemma FreeView(h: Heap, p: nat, i: nat)
    requires Inv(h) && IsLive(h.blocks, p) && i == Find(h.blocks, 0, p - HDR)
    ensures var u := h.used - (h.blocks[i].next - h.blocks[i].start);
      var h1 := Heap(h.size, Release(h.blocks, i), u, h.max, h.seen + [u]);
      Free(h, p) == h1 && Inv(h1)
  {
    ReleaseKeeps(h.blocks, h.End(), i);
    Bounded(h.blocks, h.End(), i);
    Lowered(h, Release(h.blocks, i), h.used - (h.blocks[i].next - h.blocks[i].start));
  }

  /** Freeing keeps the invariant, removes exactly that live block and never touches the maximum. */
  lemma FreeSound(h: Heap, p: nat)
    requires Inv(h) && IsLive(h.blocks, p)
    ensures var h1 := Free(h, p);
      && Inv(h1) && h1.size == h.size
      && LiveSet(h1.blocks) == LiveSet(h.blocks) - {At(h.blocks, p)}
      && h1.max == h.max
  {
    var i := Find(h.blocks, 0, p - HDR);
    FreeView(h, p, i);
    ReleaseKeeps(h.blocks, h.End(), i);
  }
}
