/** Whole runs of the heap: every sequence of calls from rt_smem_init. */
module HeapRuns {
  import opened Common
  import opened HeapModel
  import opened HeapOps

  /** Payloads of live blocks lie inside the heap and never overlap, not even with a header. */
  lemma LiveBlocksDisjoint(h: Heap, a: Block, b: Block)
    requires Inv(h) && a in LiveSet(h.blocks) && b in LiveSet(h.blocks)
    ensures a == b || a.next <= b.start || b.next <= a.start
    ensures 0 <= a.start < a.start + HDR <= a.next <= h.End()
  {
    var bs := h.blocks;
    InLiveSet(bs, a);
    InLiveSet(bs, b);
    var i :| 0 <= i < |bs| && bs[i] == a;
    var j :| 0 <= j < |bs| && bs[j] == b;
    Bounded(bs, h.End(), i);
    if i < j { Ordered(bs, h.End(), i, j); }
    if j < i { Ordered(bs, h.End(), j, i); }
  }

  /** Used plus free words make up the heap: mem_size_aligned plus one header. */
  lemma Conservation(h: Heap)
    requires Inv(h)
    ensures h.used + Extent(h.blocks, false) == h.size + HDR
    ensures 0 <= h.used <= h.max
  {
    ExtentTotal(h.blocks, h.End());
    forall i | 0 <= i < |h.blocks| ensures h.blocks[i].start <= h.blocks[i].next { Bounded(h.blocks, h.End(), i); }
    ExtentNonNegative(h.blocks, true);
    assert h.used in h.seen;
  }

  /** RT_ALIGN covers the request exactly when the 32-bit addition does not wrap. */
  lemma AlignCovers(size: Word)
    ensures 4 * AlignWords(size) >= size <==> size <= TWO32 - 4
    ensures size <= TWO32 - 4 ==> 4 * AlignWords(size) < size + 4
  {
    if size <= TWO32 - 4 {
      assert (size + 3) % TWO32 == size + 3;
    } else {
      assert (size + 3) % TWO32 == size + 3 - TWO32;
    }
  }

  /** A block is split as soon as the rest is worth it, so what is handed out is less than a header and
      12 bytes too large. */
  lemma TakenCapacity(h: Heap, n: nat)
    requires Inv(h)
    ensures var (h1, q) := AllocWords(h, n); var w := Max(n, MIN);
      q.Some? ==> IsLive(h1.blocks, q.value) && w <= At(h1.blocks, q.value).Capacity() < w + HDR + MIN
  {
    AllocSound(h, n);
    var bs, w := h.blocks, Max(n, MIN);
    var i := FirstFit(bs, 0, w);
    if w <= h.size && i < |bs| {
      TakeKeeps(bs, h.End(), i, w);
      var r := Take(bs, i, w);
      LiveIsFound(r, h.End(), r[i]);
      InLiveSet(r, r[i]);
      assert r[i].Capacity() < w + HDR + MIN;
    }
  }

  /** For every heap and size: served iff some free block holds the rounded size, or 12 bytes; and the block
      holds the bytes asked for iff the rounding did not wrap. */
  lemma AllocServes(h: Heap, size: Word)
    requires Inv(h) && size != 0
    ensures var (h1, q) := Alloc(h, size); var w := Max(AlignWords(size), MIN);
      && (q.Some? <==> exists f :: f in h.blocks && Fits(f, w))
      && (q.Some? ==>
            && IsLive(h1.blocks, q.value) && w <= At(h1.blocks, q.value).Capacity() < w + HDR + MIN
            && (4 * At(h1.blocks, q.value).Capacity() >= size <==> size <= TWO32 - 4))
  {
    AlignCovers(size);
    AllocSound(h, AlignWords(size));
    TakenCapacity(h, AlignWords(size));
    if size > TWO32 - 4 {
      WrappedSmall(size);
    }
  }

  lemma WrappedSmall(size: Word)
    requires size > TWO32 - 4
    ensures AlignWords(size) == 0
  {}

  /** Every size that wraps is served, from any free block that holds 12 bytes, with 12 to 32 bytes. */
  lemma WrappedRequestIsServed(h: Heap, size: Word)
    requires Inv(h) && size > TWO32 - 4
    ensures var (h1, q) := Alloc(h, size);
      && (q.Some? <==> exists f :: f in h.blocks && Fits(f, MIN))
      && (q.Some? ==> IsLive(h1.blocks, q.value) && 12 <= 4 * At(h1.blocks, q.value).Capacity() <= 32)
  {
    WrappedSmall(size);
    AllocServes(h, size);
  }

  /** A request of 2^32 - 1 bytes on a fresh heap. */
  lemma WrappedRequestExample()
    ensures var (h, p) := Alloc(Fresh(100), 0xFFFF_FFFF);
      p == Some(HDR) && IsLive(h.blocks, HDR) && At(h.blocks, HDR).Capacity() == 3
  {
    assert AlignWords(0xFFFF_FFFF) == 0;
    var h := Fresh(100);
    assert FirstFit(h.blocks, 0, 3) == 0;
    var r := Take(h.blocks, 0, 3);
    assert r[0] == Block(0, 6, true);
    assert Find(r, 0, 0) == 0;
  }

  /** The words live before a realloc, apart from the block being resized. */
  ghost function Others(h: Heap, p: Option<nat>): set<Block>
    requires p.Some? ==> IsLive(h.blocks, p.value)
  {
    if p.Some? then LiveSet(h.blocks) - {At(h.blocks, p.value)} else LiveSet(h.blocks)
  }

  lemma ShrunkFound(bs: seq<Block>, end: nat, i: nat, n: nat)
    requires Tiles(bs, end) && Coalesced(bs) && i < |bs| && bs[i].live && n + HDR + MIN < bs[i].Capacity()
    ensures var p := bs[i].start + HDR; var r := Shrink(bs, i, n);
      IsLive(r, p) && At(r, p) == Block(p - HDR, p + n, true)
  {
    ShrinkKeeps(bs, end, i, n);
    LiveIsFound(Shrink(bs, i, n), end, Block(bs[i].start, bs[i].start + HDR + n, true));
  }

  lemma ShrinkView(h: Heap, p: nat, n: nat, i: nat)
    requires Inv(h) && IsLive(h.blocks, p) && i == Find(h.blocks, 0, p - HDR)
    requires n + HDR + MIN < h.blocks[i].Capacity()
    ensures var u := h.used - (h.blocks[i].Capacity() - n);
      var h1 := Heap(h.size, Shrink(h.blocks, i, n), u, h.max, h.seen + [u]);
      ReallocWords(h, p, n) == (h1, Some(p)) && Inv(h1)
  {
    ShrinkKeeps(h.blocks, h.End(), i, n);
    Lowered(h, Shrink(h.blocks, i, n), h.used - (h.blocks[i].Capacity() - n));
  }

  lemma ShrunkSet(bs: seq<Block>, end: nat, p: nat, i: nat, n: nat, r: seq<Block>)
    requires Tiles(bs, end) && Coalesced(bs) && IsLive(bs, p) && i == Find(bs, 0, p - HDR)
    requires n + HDR + MIN < bs[i].Capacity() && r == Shrink(bs, i, n)
    ensures IsLive(r, p) && At(r, p) == Block(p - HDR, p + n, true)
    ensures LiveSet(r) == LiveSet(bs) - {At(bs, p)} + {Block(p - HDR, p + n, true)}
  {
    ShrinkKeeps(bs, end, i, n);
    ShrunkFound(bs, end, i, n);
  }

  lemma ShrinkSound(h: Heap, p: nat, n: nat)
    requires Inv(h) && IsLive(h.blocks, p) && n + HDR + MIN < At(h.blocks, p).Capacity()
    ensures var (h1, q) := ReallocWords(h, p, n);
      && Inv(h1) && h1.size == h.size && h1.max == h.max && q == Some(p)
      && IsLive(h1.blocks, p) && At(h1.blocks, p) == Block(p - HDR, p + n, true)
      && LiveSet(h1.blocks) == Others(h, Some(p)) + {Block(p - HDR, p + n, true)}
  {
    var i := Find(h.blocks, 0, p - HDR);
    ShrinkView(h, p, n, i);
    ShrunkSet(h.blocks, h.End(), p, i, n, Shrink(h.blocks, i, n));
  }

  /** Two steps in one: `q` became live, then `p` was given back. */
  lemma Swapped(h: Heap, ha: Heap, hf: Heap, p: nat, q: nat)
    requires Inv(h) && Inv(ha) && Inv(hf) && IsLive(h.blocks, p)
    requires IsLive(ha.blocks, p) && At(ha.blocks, p) == At(h.blocks, p)
    requires IsLive(ha.blocks, q) && At(ha.blocks, q) !in LiveSet(h.blocks)
    requires LiveSet(ha.blocks) == LiveSet(h.blocks) + {At(ha.blocks, q)}
    requires LiveSet(hf.blocks) == LiveSet(ha.blocks) - {At(ha.blocks, p)}
    ensures q != p && IsLive(hf.blocks, q) && At(hf.blocks, q) == At(ha.blocks, q)
    ensures LiveSet(hf.blocks) == Others(h, Some(p)) + {At(ha.blocks, q)}
  {
    InLiveSet(h.blocks, At(h.blocks, p));
    InLiveSet(ha.blocks, At(ha.blocks, q));
    LiveIsFound(hf.blocks, hf.End(), At(ha.blocks, q));
  }

  lemma RelocateSound(h: Heap, p: nat, n: nat)
    requires Inv(h) && IsLive(h.blocks, p)
    ensures AllocWords(h, n).1.None? ==> Relocate(h, p, n) == (h, None)
    ensures AllocWords(h, n).1.Some? ==>
      var (hf, q) := Relocate(h, p, n);
      && q.Some? && Inv(hf) && hf.size == h.size && q.value != p
      && IsLive(hf.blocks, q.value) && At(hf.blocks, q.value).Capacity() >= n
      && At(hf.blocks, q.value) !in LiveSet(h.blocks)
      && LiveSet(hf.blocks) == Others(h, Some(p)) + {At(hf.blocks, q.value)}
  {
    AllocSound(h, n);
    var (ha, q) := AllocWords(h, n);
    if q.Some? {
      AllocKeepsPointer(h, n, p);
      FreeSound(ha, p);
      Swapped(h, ha, Free(ha, p), p, q.value);
    }
  }

  /** The outcome of a resize to `n` words: on failure nothing changed; on success the other live
      blocks stay and `q` is a live block of at least `n` words. */
  ghost predicate Resized(h: Heap, p: Option<nat>, n: nat, h1: Heap, q: Option<nat>)
    requires p.Some? ==> IsLive(h.blocks, p.value)
  {
    && Inv(h1) && h1.size == h.size
    && (q.None? ==> h1 == h)
    && (q.Some? ==>
          && IsLive(h1.blocks, q.value) && At(h1.blocks, q.value).Capacity() >= n
          && At(h1.blocks, q.value) !in Others(h, p)
          && LiveSet(h1.blocks) == Others(h, p) + {At(h1.blocks, q.value)})
  }

  lemma ShrunkIsNew(h: Heap, p: nat, n: nat)
    requires Inv(h) && IsLive(h.blocks, p)
    ensures Block(p - HDR, p + n, true) !in Others(h, Some(p))
  {
    var b := Block(p - HDR, p + n, true);
    InLiveSet(h.blocks, b);
    InLiveSet(h.blocks, At(h.blocks, p));
    if b in Others(h, Some(p)) { SameStart(h.blocks, h.End(), b, At(h.blocks, p)); }
  }

  lemma ReallocWordsSound(h: Heap, p: nat, n: nat)
    requires Inv(h) && IsLive(h.blocks, p)
    ensures var (h1, q) := ReallocWords(h, p, n); Resized(h, Some(p), n, h1, q)
  {
    var c := At(h.blocks, p).Capacity();
    if c == n {
      InLiveSet(h.blocks, At(h.blocks, p));
    } else if n + HDR + MIN < c {
      ShrinkSound(h, p, n);
      ShrunkIsNew(h, p, n);
    } else {
      RelocateSound(h, p, n);
    }
  }

  /** Realloc for every heap and size. A (rounded) size of 0 is exactly free. */
  lemma ReallocSound(h: Heap, p: Option<nat>, size: Word)
    requires Inv(h) && (p.Some? ==> IsLive(h.blocks, p.value))
    ensures var (h1, q) := Realloc(h, p, size); var n := AlignWords(size);
      && Inv(h1) && h1.size == h.size
      && (n == 0 ==> q.None? && h1 == (if p.Some? then Free(h, p.value) else h))
      && (n != 0 ==> Resized(h, p, n, h1, q))
  {
    var n := AlignWords(size);
    if n == 0 {
      if p.Some? { FreeSound(h, p.value); }
    } else if n <= h.size {
      if p.None? {
        AllocSound(h, n);
      } else {
        ReallocWordsSound(h, p.value, n);
      }
    }
  }

  /** When the answer of a realloc to n words is a block, and which: the same one if the size is the same or
      enough smaller to be cut in place; otherwise a new one exactly if some free block holds the words. */
  lemma ReallocAnswers(h: Heap, p: Option<nat>, size: Word)
    requires Inv(h) && (p.Some? ==> IsLive(h.blocks, p.value)) && 0 < AlignWords(size) <= h.size
    ensures var (h1, q) := Realloc(h, p, size); var n := AlignWords(size);
      var fit := exists f :: f in h.blocks && Fits(f, Max(n, MIN));
      && (p.None? ==> (q.Some? <==> fit))
      && (p.Some? ==>
            var c := At(h.blocks, p.value).Capacity();
            && (c == n ==> q == p && h1 == h)
            && (n + HDR + MIN < c ==> q == p && h1 != h)
            && (c != n && n + HDR + MIN >= c ==> (q.Some? <==> fit) && q != p))
  {
    var n := AlignWords(size);
    AllocSound(h, n);
    if p.Some? {
      var c := At(h.blocks, p.value).Capacity();
      if n + HDR + MIN < c {
        ShrinkSound(h, p.value, n);
        ShrinkChanges(h, p.value, n);
      } else if c != n {
        RelocateSound(h, p.value, n);
      }
    }
  }

  lemma ShrinkChanges(h: Heap, p: nat, n: nat)
    requires Inv(h) && IsLive(h.blocks, p) && n + HDR + MIN < At(h.blocks, p).Capacity()
    ensures ReallocWords(h, p, n).0 != h
  {
    ShrinkView(h, p, n, Find(h.blocks, 0, p - HDR));
  }

  /** A size beyond the whole heap is refused, and nothing changes. */
  lemma ReallocRefuses(h: Heap, p: Option<nat>, size: Word)
    requires Inv(h) && (p.Some? ==> IsLive(h.blocks, p.value)) && AlignWords(size) > h.size
    ensures Realloc(h, p, size) == (h, None)
  {}

  lemma FreeShrinksUse(h: Heap, p: nat)
    requires Inv(h) && IsLive(h.blocks, p)
    ensures Free(h, p).used < h.used && Free(h, p).blocks != h.blocks
  {
    var i := Find(h.blocks, 0, p - HDR);
    FreeSound(h, p);
    FreeView(h, p, i);
    Bounded(h.blocks, h.End(), i);
  }

  /** A null answer to a nonzero size leaves blocks and use as they were, exactly unless the rounding wrapped
      to 0 and the block was freed. */
  lemma NullKeepsHeap(h: Heap, p: Option<nat>, size: Word)
    requires Inv(h) && (p.Some? ==> IsLive(h.blocks, p.value)) && size != 0
    ensures var (h1, q) := Realloc(h, p, size);
      q.None? ==>
        && (h1.blocks == h.blocks <==> p.None? || size <= TWO32 - 4)
        && (h1.used == h.used <==> p.None? || size <= TWO32 - 4)
        && (h1 == h <==> p.None? || size <= TWO32 - 4)
  {
    ReallocSound(h, p, size);
    AlignCovers(size);
    if p.Some? {
      FreeShrinksUse(h, p.value);
    }
  }

  /* ---- Runs ---- */

  datatype Op = OpAlloc(size: Word) | OpFree(p: Option<nat>) | OpRealloc(p: Option<nat>, size: Word)

  /** The callers' obligation: only payload pointers of live blocks are passed back. */
  ghost predicate Legal(h: Heap, op: Op) {
    match op
    case OpAlloc(_) => true
    case OpFree(p) => p.Some? ==> IsLive(h.blocks, p.value)
    case OpRealloc(p, _) => p.Some? ==> IsLive(h.blocks, p.value)
  }

  ghost function Step(h: Heap, op: Op): Heap
    requires Inv(h) && Legal(h, op)
  {
    match op
    case OpAlloc(size) => Alloc(h, size).0
    case OpFree(p) => if p.Some? then Free(h, p.value) else h
    case OpRealloc(p, size) => Realloc(h, p, size).0
  }

  ghost predicate Reaches(h: Heap, ops: seq<Op>, h': Heap)
    decreases |ops|
  {
    if ops == [] then h == h'
    else Inv(h) && Legal(h, ops[0]) && Reaches(Step(h, ops[0]), ops[1..], h')
  }

  lemma FreshInv(size: nat)
    ensures Inv(Fresh(size))
  {
    var h := Fresh(size);
    assert Linked(h.blocks, 0, h.End());
    assert h.blocks[1..] == [];
    assert h.seen == [0];
    assert 0 in h.seen;
  }

  /** Every run keeps the invariant; `seen` only grows, so `max` is the largest `used` ever. */
  lemma {:induction false} RunInv(h: Heap, ops: seq<Op>, h': Heap)
    requires Inv(h) && Reaches(h, ops, h')
    ensures Inv(h') && h'.size == h.size
    ensures h.seen <= h'.seen
    decreases |ops|
  {
    if ops != [] {
      var op := ops[0];
      var h1 := Step(h, op);
      match op {
        case OpAlloc(size) => AllocSound(h, AlignWords(size));
        case OpFree(p) => if p.Some? { FreeSound(h, p.value); }
        case OpRealloc(p, size) => ReallocSound(h, p, size);
      }
      RunInv(h1, ops[1..], h');
    }
  }

  /* ---- Giving everything back ---- */

  lemma Survives(h: Heap, h1: Heap, p: nat, q: nat)
    requires Inv(h1) && IsLive(h.blocks, p) && IsLive(h.blocks, q) && p != q
    requires LiveSet(h1.blocks) == LiveSet(h.blocks) - {At(h.blocks, p)}
    ensures IsLive(h1.blocks, q) && At(h1.blocks, q) == At(h.blocks, q)
  {
    InLiveSet(h.blocks, At(h.blocks, q));
    LiveIsFound(h1.blocks, h1.End(), At(h.blocks, q));
  }

  lemma FreeKeepsOthers(h: Heap, p: nat, q: nat)
    requires Inv(h) && IsLive(h.blocks, p) && IsLive(h.blocks, q) && p != q
    ensures IsLive(Free(h, p).blocks, q) && At(Free(h, p).blocks, q) == At(h.blocks, q)
  {
    FreeSound(h, p);
    Survives(h, Free(h, p), p, q);
  }

  /** Free the pointers in `order`, one call after the other. */
  ghost function FreeAll(h: Heap, order: seq<nat>): Heap
    requires Inv(h) && Distinct(order) && forall p | p in order :: IsLive(h.blocks, p)
    decreases |order|
  {
    if order == [] then h else
      FreeSound(h, order[0]);
      assert forall p | p in order[1..] :: IsLive(Free(h, order[0]).blocks, p) by {
        forall p | p in order[1..] ensures IsLive(Free(h, order[0]).blocks, p) { FreeKeepsOthers(h, order[0], p); }
      }
      FreeAll(Free(h, order[0]), order[1..])
  }

  lemma NothingLive(h: Heap)
    requires Inv(h) && LiveSet(h.blocks) == {}
    ensures h.blocks == Fresh(h.size).blocks && h.used == 0
  {
    var bs := h.blocks;
    forall i | 0 <= i < |bs| ensures !bs[i].live { InLiveSet(bs, bs[i]); }
    assert |bs| > 1 ==> Guarded(bs, 0);
    assert Linked(bs, 0, h.End());
    ExtentSmall(bs[0], bs[0], true);
    assert bs == [bs[0]];
  }

  /** After freeing `order[0]` the rest of `order` lists exactly the blocks still live. */
  lemma FreeAdvances(h: Heap, order: seq<nat>)
    requires Inv(h) && order != [] && Distinct(order) && forall p | p in order :: IsLive(h.blocks, p)
    requires forall b | b in LiveSet(h.blocks) :: b.start + HDR in order
    ensures var h1 := Free(h, order[0]);
      && (forall q | q in order[1..] :: IsLive(h1.blocks, q))
      && (forall b | b in LiveSet(h1.blocks) :: b.start + HDR in order[1..])
  {
    var p := order[0];
    FreeSound(h, p);
    var h1 := Free(h, p);
    forall q | q in order[1..] ensures IsLive(h1.blocks, q) { FreeKeepsOthers(h, p, q); }
    forall b | b in LiveSet(h1.blocks) ensures b.start + HDR in order[1..] {
      assert b.start + HDR in order;
      InLiveSet(h.blocks, b);
      if b.start + HDR == p { SameStart(h.blocks, h.End(), b, At(h.blocks, p)); }
    }
  }

  /** Freeing all live blocks in any order restores the initial single free block. */
  lemma {:induction false} FreeAllRestores(h: Heap, order: seq<nat>)
    requires Inv(h) && Distinct(order) && forall p | p in order :: IsLive(h.blocks, p)
    requires forall b | b in LiveSet(h.blocks) :: b.start + HDR in order
    ensures FreeAll(h, order).blocks == Fresh(h.size).blocks && FreeAll(h, order).used == 0
    decreases |order|
  {
    if order == [] {
      NothingLive(h);
    } else {
      FreeSound(h, order[0]);
      FreeAdvances(h, order);
      FreeAllRestores(Free(h, order[0]), order[1..]);
    }
  }
}
