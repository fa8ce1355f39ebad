/** rt-thread/src/mem.c: the heap whose headers live inside the memory it manages.

    A header is three words: pool_ptr (the pool's address, plus 1 while the block is in use),
    next and prev. The ghost field `blocks` is the list that the headers encode. */
module SmallMem {
  import opened Common
  import opened HeapModel
  import opened HeapOps
  import opened HeapRuns

  /** MEM_USED() and MEM_FREED(). */
  function Tag(pool: int, live: bool): int { if live then pool + 1 else pool }

  ghost predicate Header(m: seq<int>, bs: seq<Block>, i: int, pool: int)
    requires 0 <= i < |bs|
  {
    && bs[i].start + 2 < |m|
    && m[bs[i].start] == Tag(pool, bs[i].live)
    && m[bs[i].start + 1] == bs[i].next
    && m[bs[i].start + 2] == (if i == 0 then 0 else bs[i - 1].start)
  }

  /** The words `m` encode the block list `bs` and the sentinel at `end`. The sentinel's prev word
      is left open: splitting does not maintain it. */
  ghost predicate Rep(m: seq<int>, bs: seq<Block>, pool: int, end: nat) {
    && |m| == end + HDR && Tiles(bs, end)
    && (forall i | 0 <= i < |bs| :: Header(m, bs, i, pool))
    && m[end] == Tag(pool, true) && m[end + 1] == end
  }

  ghost predicate SamePayload(m: seq<int>, m': seq<int>, b: Block) {
    && |m| == |m'| && b.next <= |m|
    && forall w | b.start + HDR <= w < b.next :: m'[w] == m[w]
  }

  /** Every live block of `bs` outside `except` has the same payload in `m'` as in `m`. */
  ghost predicate Kept(m: seq<int>, m': seq<int>, bs: seq<Block>, except: set<Block>) {
    forall b | b in LiveSet(bs) && b !in except :: SamePayload(m, m', b)
  }

  /** Only words of the `k` blocks at `i`, and the prev word of the header after them, differ. */
  ghost predicate OnlyAt(m: seq<int>, m': seq<int>, lo: nat, hi: nat) {
    && |m'| == |m|
    && forall w | 0 <= w < |m| && !(lo <= w < hi) && w != hi + 2 :: m'[w] == m[w]
  }

  ghost predicate HeaderIs(m: seq<int>, b: Block, prev: nat, pool: int) {
    && b.start + 2 < |m|
    && m[b.start] == Tag(pool, b.live) && m[b.start + 1] == b.next && m[b.start + 2] == prev
  }

  /** The one place where in-band writes meet the block list: replacing `k` neighbours by `mid`. */
  lemma Rewrite(m: seq<int>, m': seq<int>, bs: seq<Block>, i: nat, k: nat, mid: seq<Block>, pool: int, end: nat)
    requires Rep(m, bs, pool, end) && Covers(bs, i, k, mid)
    requires OnlyAt(m, m', bs[i].start, bs[i + k - 1].next)
    requires HeaderIs(m', mid[0], if i == 0 then 0 else bs[i - 1].start, pool)
    requires |mid| == 2 ==> HeaderIs(m', mid[1], mid[0].start, pool)
    requires i + k < |bs| ==> bs[i + k].start + 2 < |m'| && m'[bs[i + k].start + 2] == mid[|mid| - 1].start
    ensures Rep(m', Splice(bs, i, k, mid), pool, end)
  {
    SpliceTiles(bs, end, i, k, mid);
    var r := Splice(bs, i, k, mid);
    Bounded(bs, end, i + k - 1);
    forall x | 0 <= x < |r| ensures Header(m', r, x, pool) {
      if x < i {
        assert r[x] == bs[x] && (x > 0 ==> r[x - 1] == bs[x - 1]);
        Ordered(bs, end, x, i);
        Bounded(bs, end, x);
        RewriteSpan(bs, end, i, k);
        assert Header(m, bs, x, pool);
        assert forall w | bs[x].start <= w < bs[x].start + 3 :: m'[w] == m[w];
      } else if x < i + |mid| {
        assert r[x] == mid[x - i] && (i > 0 ==> r[i - 1] == bs[i - 1]);
      } else {
        var y := x - |mid| + k;
        assert r[x] == bs[y];
        assert Header(m, bs, y, pool);
        Bounded(bs, end, y);
        assert Linked(bs, i + k, end);
        if y > i + k {
          Ordered(bs, end, i + k, y);
          Bounded(bs, end, i + k);
          assert r[x - 1] == bs[y - 1];
        } else {
          assert r[x - 1] == mid[|mid| - 1];
        }
      }
    }
    RewriteSpan(bs, end, i, k);
    if i + k < |bs| {
      assert Linked(bs, i + k, end);
      Bounded(bs, end, i + k);
    } else {
      assert Linked(bs, i + k - 1, end);
    }
  }

  lemma RewriteSpan(bs: seq<Block>, end: nat, i: nat, k: nat)
    requires Tiles(bs, end) && k > 0 && i + k <= |bs|
    ensures bs[i].start < bs[i + k - 1].next <= end
  {
    Bounded(bs, end, i);
    Bounded(bs, end, i + k - 1);
    if k > 1 { Ordered(bs, end, i, i + k - 1); }
  }

  /** Such a write leaves the payload of every other live block alone. */
  lemma RewriteKeeps(m: seq<int>, m': seq<int>, bs: seq<Block>, i: nat, k: nat, end: nat, except: set<Block>)
    requires Tiles(bs, end) && |m| == end + HDR && k > 0 && i + k <= |bs|
    requires OnlyAt(m, m', bs[i].start, bs[i + k - 1].next)
    requires forall x | i <= x < i + k :: bs[x].live ==> bs[x] in except
    ensures Kept(m, m', bs, except)
  {
    forall b | b in LiveSet(bs) && b !in except ensures SamePayload(m, m', b) {
      InLiveSet(bs, b);
      var x :| 0 <= x < |bs| && bs[x] == b;
      Bounded(bs, end, x);
      if x < i {
        Ordered(bs, end, x, i);
        RewriteSpan(bs, end, i, k);
      } else {
        assert x >= i + k;
        Ordered(bs, end, i + k - 1, x);
      }
    }
  }

  lemma KeptRefl(m: seq<int>, bs: seq<Block>, end: nat)
    requires Tiles(bs, end) && |m| == end + HDR
    ensures Kept(m, m, bs, {})
  {
    forall b | b in LiveSet(bs) ensures SamePayload(m, m, b) {
      InLiveSet(bs, b);
      var x :| 0 <= x < |bs| && bs[x] == b;
      Bounded(bs, end, x);
    }
  }

  lemma KeptTrans(m: seq<int>, m1: seq<int>, m2: seq<int>, bs: seq<Block>, bs1: seq<Block>, except: set<Block>)
    requires Kept(m, m1, bs, except) && Kept(m1, m2, bs1, {}) && LiveSet(bs) - except <= LiveSet(bs1)
    ensures Kept(m, m2, bs, except)
  {
    forall b | b in LiveSet(bs) && b !in except ensures SamePayload(m, m2, b) {
      assert b in LiveSet(bs) - except;
    }
  }

  /** Freeing block `i` makes min(lfree, its offset) the lowest free offset. */
  lemma FreedLowest(bs: seq<Block>, end: nat, i: nat, lf: nat)
    requires Tiles(bs, end) && i < |bs| && lf == LowestFree(bs, end)
    requires Tiles(Freed(bs, i), end)
    ensures (if bs[i].start < lf then bs[i].start else lf) == LowestFree(Freed(bs, i), end)
  {
    LowestFreeIs(bs, lf, end);
    var r := Freed(bs, i);
    assert forall x | 0 <= x < |r| && x != i :: r[x] == bs[x];
    Bounded(bs, end, i);
    assert r[i].start == bs[i].start && !r[i].live;
    if lf != end && lf <= bs[i].start {
      var x :| 0 <= x < |bs| && !bs[x].live && bs[x].start == lf;
      assert !r[x].live && r[x].start == lf;
    }
    LowestFreeIs(r, if bs[i].start < lf then bs[i].start else lf, end);
  }

  /** Where the lowest-free pointer goes when plug_holes merges the block it points to. */
  ghost function FollowedNext(bs: seq<Block>, i: nat, lf: nat): nat
    requires i < |bs|
  {
    if i + 1 < |bs| && !bs[i + 1].live && lf == bs[i + 1].start then bs[i].start else lf
  }

  ghost function FollowedPrev(bs: seq<Block>, i: nat, lf: nat): nat
    requires i < |bs|
  {
    if i > 0 && !bs[i - 1].live && lf == bs[i].start then bs[i - 1].start else lf
  }

  ghost function Followed(bs: seq<Block>, i: nat, lf: nat): nat
    requires i < |bs|
  {
    FollowedPrev(PlugForward(bs, i), i, FollowedNext(bs, i, lf))
  }

  lemma ForwardFacts(bs: seq<Block>, end: nat, i: nat)
    requires Tiles(bs, end) && i < |bs| && !bs[i].live
    ensures var f := PlugForward(bs, i);
      i < |f| && f[i].start == bs[i].start && !f[i].live && f[..i] == bs[..i] && LiveSet(f) == LiveSet(bs)
  {
    if i + 1 < |bs| && !bs[i + 1].live { MergeKeeps(bs, end, i); }
  }

  /** A lowest-free pointer never has to move. */
  lemma LowestStays(bs: seq<Block>, end: nat, i: nat, lf: nat)
    requires Tiles(bs, end) && i < |bs| && !bs[i].live && lf == LowestFree(bs, end)
    ensures Followed(bs, i, lf) == lf
  {
    LowestFreeIs(bs, lf, end);
    Bounded(bs, end, i);
    ForwardFacts(bs, end, i);
    if i + 1 < |bs| { Ordered(bs, end, i, i + 1); }
    if i > 0 {
      Ordered(bs, end, i - 1, i);
      Bounded(bs, end, i - 1);
      assert PlugForward(bs, i)[i - 1] == bs[..i][i - 1];
    }
  }

  /** The phases of rt_smem_free: the block is marked free and lfree lowered, then holes are plugged. */
  lemma FreePhase(h: Heap, p: nat, i: nat, lf: nat)
    requires Inv(h) && IsLive(h.blocks, p) && i == Find(h.blocks, 0, p - HDR) && lf == LowestFree(h.blocks, h.End())
    ensures var bs := Freed(h.blocks, i); var lf1 := if p - HDR < lf then p - HDR else lf;
      && Tiles(bs, h.End()) && i < |bs| && bs[i].start == p - HDR && !bs[i].live && CoalescedExcept(bs, i)
      && lf1 == LowestFree(bs, h.End())
      && LiveSet(h.blocks) - {h.blocks[i]} <= LiveSet(bs)
    ensures var u := h.used - (h.blocks[i].next - (p - HDR));
      var h1 := Heap(h.size, Plug(Freed(h.blocks, i), i), u, h.max, h.seen + [u]);
      HeapOps.Free(h, p) == h1 && Inv(h1)
  {
    FreedKeeps(h.blocks, h.End(), i);
    FreedLowest(h.blocks, h.End(), i, lf);
    FreeView(h, p, i);
  }

  ghost function Halves(b: Block, n: nat): seq<Block> {
    [Block(b.start, b.start + HDR + n, b.live), Block(b.start + HDR + n, b.next, false)]
  }

  ghost function Divided(bs: seq<Block>, i: nat, n: nat): seq<Block>
    requires i < |bs|
  {
    Splice(bs, i, 1, Halves(bs[i], n))
  }

  /** The list after splitting block `i` for `w` words, if it is worth it. */
  ghost function Reserved(bs: seq<Block>, i: nat, w: nat): seq<Block>
    requires i < |bs|
  {
    if bs[i].Capacity() >= w + HDR + MIN then Divided(bs, i, w) else bs
  }

  lemma ReservedTaken(bs: seq<Block>, i: nat, w: nat)
    requires i < |bs| && Fits(bs[i], w)
    ensures var r := Reserved(bs, i, w); i < |r| && Splice(r, i, 1, [r[i].(live := true)]) == Take(bs, i, w)
  {}

  lemma DividedLive(bs: seq<Block>, end: nat, i: nat, n: nat)
    requires Tiles(bs, end) && i < |bs| && !bs[i].live
    ensures LiveSet(bs) <= LiveSet(Divided(bs, i, n))
  {
    SpliceLive(bs, i, 1, Halves(bs[i], n));
    assert bs[i..i + 1] == [bs[i]];
    LiveSmall(bs[i], bs[i]);
  }

  lemma LowestIndex(bs: seq<Block>, end: nat, lf: nat)
    requires Tiles(bs, end) && lf == LowestFree(bs, end)
    ensures var k := Find(bs, 0, lf); (k == |bs| <==> lf == end) && forall j | 0 <= j < k :: bs[j].live
  {
    LowestFreeIs(bs, lf, end);
    var k := Find(bs, 0, lf);
    forall j | 0 <= j < |bs| ensures bs[j].start < end { Bounded(bs, end, j); }
    forall j | 0 <= j < k ensures bs[j].live {
      if k < |bs| { Ordered(bs, end, j, k); Bounded(bs, end, j); }
      Bounded(bs, end, j);
    }
  }

  /** Blocks that start beyond end - HDR - w hold fewer than w words, so the search may stop there. */
  lemma TailTooSmall(bs: seq<Block>, end: nat, k: nat, w: nat)
    requires Tiles(bs, end) && k <= |bs| && (k < |bs| ==> bs[k].start + HDR + w > end)
    ensures forall j {:trigger Fits(bs[j], w)} | k <= j < |bs| :: !Fits(bs[j], w)
  {
    forall j {:trigger Fits(bs[j], w)} | k <= j < |bs| ensures !Fits(bs[j], w) {
      Bounded(bs, end, j);
      Bounded(bs, end, k);
      if k < j { Ordered(bs, end, k, j); }
    }
  }

  /** Taking block `k` keeps a lowest-free offset below it; if it was the lowest, all before are live. */
  lemma TakeLowest(bs: seq<Block>, end: nat, k: nat, w: nat, lf: nat)
    requires Tiles(bs, end) && k < |bs| && Fits(bs[k], w) && lf == LowestFree(bs, end)
    requires Tiles(Take(bs, k, w), end)
    ensures lf != bs[k].start ==> lf == LowestFree(Take(bs, k, w), end)
    ensures lf == bs[k].start ==> k < |Take(bs, k, w)| && forall j | 0 <= j < k :: Take(bs, k, w)[j].live
  {
    var r := Take(bs, k, w);
    OrderedAll(bs, end);
    LowestFreeIs(bs, lf, end);
    assert forall j | 0 <= j < k :: r[j] == bs[j];
    if lf != bs[k].start {
      forall x | 0 <= x < |r| && !r[x].live ensures lf <= r[x].start {
        assert x > k ==> r[x].start >= bs[k].start;
      }
      if lf != end {
        var x :| 0 <= x < |bs| && !bs[x].live && bs[x].start == lf;
        assert x < k;
        assert r[x] == bs[x];
      }
      LowestFreeIs(r, lf, end);
    }
  }

  lemma CutLowest(bs: seq<Block>, end: nat, i: nat, n: nat, lf: nat)
    requires Tiles(bs, end) && i < |bs| && bs[i].live && n + HDR + MIN < bs[i].Capacity() && lf == LowestFree(bs, end)
    requires Tiles(Cut(bs, i, n), end)
    ensures var q := bs[i].start + HDR + n; (if q < lf then q else lf) == LowestFree(Cut(bs, i, n), end)
  {
    LowestFreeIs(bs, lf, end);
    var r, q := Cut(bs, i, n), bs[i].start + HDR + n;
    Bounded(bs, end, i);
    assert r[i + 1].start == q && !r[i + 1].live;
    forall x | 0 <= x < |r| && !r[x].live && x != i + 1 ensures lf <= r[x].start {
      assert r[x] == if x < i then bs[x] else bs[x - 1];
    }
    if lf != end && lf <= q {
      var x :| 0 <= x < |bs| && !bs[x].live && bs[x].start == lf;
      assert r[if x < i then x else x + 1] == bs[x];
    }
    LowestFreeIs(r, if q < lf then q else lf, end);
  }

  lemma CutPhase(h: Heap, p: nat, n: nat, i: nat, lf: nat)
    requires Inv(h) && IsLive(h.blocks, p) && i == Find(h.blocks, 0, p - HDR) && lf == LowestFree(h.blocks, h.End())
    requires n + HDR + MIN < h.blocks[i].Capacity()
    ensures var bs := Cut(h.blocks, i, n); var lf1 := if p + n < lf then p + n else lf;
      && bs == Divided(h.blocks, i, n) && Block(p - HDR, p + n, true) in LiveSet(bs)
      && Tiles(bs, h.End()) && i + 1 < |bs| && !bs[i + 1].live && bs[i + 1].start == p + n
      && CoalescedExcept(bs, i + 1) && lf1 == LowestFree(bs, h.End())
      && LiveSet(h.blocks) - {h.blocks[i]} <= LiveSet(bs)
  {
    CutKeeps(h.blocks, h.End(), i, n);
    InLiveSet(Cut(h.blocks, i, n), Block(p - HDR, p + n, true));
    CutLowest(h.blocks, h.End(), i, n, lf);
  }

  /** The kept head of a shrunk block survives the merge of its tail. */
  lemma KeptHead(m: seq<int>, m1: seq<int>, m2: seq<int>, bs: seq<Block>, cs: seq<Block>, b: Block, p: nat, n: nat)
    requires Kept(m, m1, bs, {b}) && Kept(m1, m2, cs, {}) && LiveSet(bs) - {b} <= LiveSet(cs)
    requires p >= HDR && Block(p - HDR, p + n, true) in LiveSet(cs)
    requires p + n <= |m| == |m1| && m1[p..p + n] == m[p..p + n]
    ensures Kept(m, m2, bs, {b}) && |m2| == |m| && m2[p..p + n] == m[p..p + n]
  {
    KeptTrans(m, m1, m2, bs, cs, {b});
    assert SamePayload(m1, m2, Block(p - HDR, p + n, true));
    assert m2[p..p + n] == m1[p..p + n];
  }

  lemma PlugPhase(bs: seq<Block>, end: nat, i: nat, lf: nat)
    requires Tiles(bs, end) && i < |bs| && !bs[i].live && CoalescedExcept(bs, i) && lf == LowestFree(bs, end)
    ensures Followed(bs, i, lf) == lf && lf == LowestFree(Plug(bs, i), end)
  {
    LowestStays(bs, end, i, lf);
    PlugKeeps(bs, end, i);
  }

  function Min(a: int, b: int): int { if a < b then a else b }

  /** The `k` words at `q` in `m'` are the words that were at `p` in `m`. */
  ghost predicate Carried(m: seq<int>, m': seq<int>, p: nat, q: nat, k: int) {
    0 <= k && p + k <= |m| && q + k <= |m'| && m'[q..q + k] == m[p..p + k]
  }

  /** Writing inside one live payload disturbs no header and no other payload. */
  lemma PayloadWrite(m: seq<int>, m': seq<int>, bs: seq<Block>, i: nat, pool: int, end: nat)
    requires Rep(m, bs, pool, end) && i < |bs| && |m'| == |m|
    requires forall w | 0 <= w < |m| && !(bs[i].start + HDR <= w < bs[i].next) :: m'[w] == m[w]
    ensures Rep(m', bs, pool, end) && Kept(m, m', bs, {bs[i]})
  {
    assert Header(m, bs, i, pool);
    Bounded(bs, end, i);
    if i + 1 < |bs| {
      assert Header(m, bs, i + 1, pool) && Linked(bs, i + 1, end);
    }
    Rewrite(m, m', bs, i, 1, [bs[i]], pool, end);
    assert Splice(bs, i, 1, [bs[i]]) == bs;
    RewriteKeeps(m, m', bs, i, 1, end, {bs[i]});
  }

  lemma Apart(h: Heap, p: nat, q: nat)
    requires Inv(h) && IsLive(h.blocks, p) && IsLive(h.blocks, q) && p != q
    ensures var b, c := At(h.blocks, p), At(h.blocks, q);
      && p <= b.next <= h.End() && q <= c.next <= h.End() && (b.next <= c.start || c.next <= b.start)
  {
    InLiveSet(h.blocks, At(h.blocks, p));
    InLiveSet(h.blocks, At(h.blocks, q));
    LiveBlocksDisjoint(h, At(h.blocks, p), At(h.blocks, q));
    LiveBlocksDisjoint(h, At(h.blocks, q), At(h.blocks, p));
  }

  /** What the expanding path needs to know about a successful allocation next to live block `p`. */
  lemma NewHome(h: Heap, p: nat, n: nat)
    requires Inv(h) && IsLive(h.blocks, p)
    ensures AllocWords(h, n).1.None? ==> AllocWords(h, n).0 == h
    ensures AllocWords(h, n).1.Some? ==>
      var (ha, q) := AllocWords(h, n);
      && Inv(ha) && IsLive(ha.blocks, p) && IsLive(ha.blocks, q.value) && q.value != p
      && var b, c := At(ha.blocks, p), At(ha.blocks, q.value);
      && b == At(h.blocks, p) && c.Capacity() >= n && p <= b.next <= h.End() && q.value <= c.next <= h.End()
      && b in LiveSet(h.blocks) && c !in LiveSet(h.blocks) && LiveSet(ha.blocks) == LiveSet(h.blocks) + {c}
  {
    AllocSound(h, n);
    var (ha, q) := AllocWords(h, n);
    if q.Some? {
      AllocKeepsPointer(h, n, p);
      InLiveSet(h.blocks, At(h.blocks, p));
      Apart(ha, p, q.value);
    }
  }

  /** Allocate `c`, then copy `k` words of `b` into it. */
  lemma CopyFrame(m0: seq<int>, m1: seq<int>, m2: seq<int>, bs: seq<Block>, bs1: seq<Block>, b: Block, c: Block,
                  p: nat, q: nat, k: nat)
    requires p == b.start + HDR && q == c.start + HDR
    requires b in LiveSet(bs) && c !in LiveSet(bs) && LiveSet(bs1) == LiveSet(bs) + {c}
    requires Kept(m0, m1, bs, {}) && Kept(m1, m2, bs1, {c})
    requires |m0| == |m1| && p + k <= b.next <= |m0|
    requires Carried(m1, m2, p, q, k)
    ensures Kept(m0, m2, bs, {}) && Carried(m0, m2, p, q, k)
  {
    forall x | x in LiveSet(bs) ensures SamePayload(m0, m2, x) {
      assert SamePayload(m0, m1, x) && x in LiveSet(bs1) && x != c;
    }
    assert SamePayload(m0, m1, b);
    assert m1[p..p + k] == m0[p..p + k];
  }

  /** Then free `b`: the copy stays, and nobody else's words change. */
  lemma FreeFrame(m0: seq<int>, m2: seq<int>, m3: seq<int>, bs: seq<Block>, bs1: seq<Block>, b: Block, c: Block,
                  p: nat, q: nat, k: nat)
    requires p == b.start + HDR && q == c.start + HDR
    requires b in LiveSet(bs) && c !in LiveSet(bs) && LiveSet(bs1) == LiveSet(bs) + {c}
    requires Kept(m0, m2, bs, {}) && Kept(m2, m3, bs1, {b})
    requires q + k <= c.next <= |m2|
    requires Carried(m0, m2, p, q, k)
    ensures Kept(m0, m3, bs, {b}) && Carried(m0, m3, p, q, k)
  {
    forall x | x in LiveSet(bs) && x !in {b} ensures SamePayload(m0, m3, x) {
      assert SamePayload(m0, m2, x) && x in LiveSet(bs1);
    }
    assert c in LiveSet(bs1) && c != b;
    assert SamePayload(m2, m3, c);
    assert m3[q..q + k] == m2[q..q + k];
  }

  lemma RelocateFrame(h: Heap, p: nat, n: nat, m0: seq<int>, m1: seq<int>, m2: seq<int>)
    requires Inv(h) && IsLive(h.blocks, p) && AllocWords(h, n).1.Some?
    requires var (ha, q) := AllocWords(h, n);
      && IsLive(ha.blocks, p) && |m1| == h.End() + HDR
      && Kept(m0, m1, h.blocks, {}) && Kept(m1, m2, ha.blocks, {At(ha.blocks, p)})
      && Carried(m0, m1, p, q.value, Min(At(h.blocks, p).Capacity(), n))
    ensures var q := AllocWords(h, n).1.value;
      Kept(m0, m2, h.blocks, {At(h.blocks, p)}) && Carried(m0, m2, p, q, Min(At(h.blocks, p).Capacity(), n))
  {
    NewHome(h, p, n);
    var (ha, q) := AllocWords(h, n);
    FreeFrame(m0, m1, m2, h.blocks, ha.blocks, At(h.blocks, p), At(ha.blocks, q.value),
              p, q.value, Min(At(h.blocks, p).Capacity(), n));
  }

  lemma ClaimView(h: Heap, k: nat, w: nat)
    requires Inv(h) && MIN <= w <= h.size && k < |h.blocks| && k == FirstFit(h.blocks, 0, w)
    ensures var bs := Take(h.blocks, k, w);
      && k < |bs| && Tiles(bs, h.End()) && bs[k].start == h.blocks[k].start
      && AllocWords(h, w) == (SetUsed(h, bs, h.used + bs[k].next - bs[k].start), Some(h.blocks[k].start + HDR))
      && Inv(AllocWords(h, w).0)
  {
    AllocSound(h, w);
    TakeKeeps(h.blocks, h.End(), k, w);
  }

  /** The fields of struct rt_small_mem that change, over a caller-supplied memory area. */
  class SmallMem {
    const pool: int
    const memSize: nat
    const mem: array<int>
    var lfree: nat
    var used: int
    var max: int
    ghost var blocks: seq<Block>
    ghost var seen: seq<int>

    ghost function End(): nat { memSize + HDR }

    ghost function View(): Heap
      reads this
    {
      Heap(memSize, blocks, used, max, seen)
    }

    /** The headers encode `blocks`, even while neighbours wait to be coalesced. */
    ghost predicate Encoded()
      reads this, mem
    {
      pool % 2 == 0 && Rep(mem[..], blocks, pool, End())
    }

    ghost predicate Valid()
      reads this, mem
    {
      Encoded() && Inv(View()) && lfree == LowestFree(blocks, End())
    }

    /** rt_smem_init over an area of arbitrary contents. */
    constructor (pool: int, memSize: nat, area: array<int>)
      requires pool % 2 == 0 && area.Length == memSize + 2 * HDR
      modifies area
      ensures Valid() && View() == Fresh(memSize) && mem == area && this.pool == pool
    {
      this.pool, this.memSize, this.mem := pool, memSize, area;
      lfree, used, max := 0, 0, 0;
      blocks, seen := Fresh(memSize).blocks, [0];
      new;
      mem[0] := Tag(pool, false);
      mem[1] := memSize + HDR;
      mem[2] := 0;
      var end := mem[1];
      mem[end] := Tag(pool, true);
      mem[end + 1] := memSize + HDR;
      mem[end + 2] := memSize + HDR;
      FreshInv(memSize);
      assert Header(mem[..], blocks, 0, pool);
    }

    /** MEM_ISUSED */
    function InUse(p: nat): bool
      requires p < mem.Length
      reads mem
    {
      mem[p] % 2 == 1
    }

    /** One coalescing: the block at `a` swallows the block after it. */
    method Absorb(a: nat, ghost i: nat)
      requires Encoded() && i + 1 < |blocks| && blocks[i].start == a && !blocks[i].live && !blocks[i + 1].live
      modifies this`blocks, mem
      ensures Encoded() && blocks == Merge(old(blocks), i)
      ensures Kept(old(mem[..]), mem[..], old(blocks), {})
    {
      ghost var m0, bs := mem[..], blocks;
      assert Header(m0, bs, i, pool) && Header(m0, bs, i + 1, pool);
      assert Linked(bs, i + 1, End());
      Bounded(bs, End(), i);
      Bounded(bs, End(), i + 1);
      var b := mem[a + 1];
      mem[b] := 0;
      mem[a + 1] := mem[b + 1];
      mem[mem[b + 1] + 2] := a;
      ghost var mid := [Block(a, bs[i + 1].next, false)];
      blocks := Merge(bs, i);
      assert i + 2 < |bs| ==> Linked(bs, i + 2, End());
      Rewrite(m0, mem[..], bs, i, 2, mid, pool, End());
      RewriteKeeps(m0, mem[..], bs, i, 2, End(), {});
    }

    /** plug_holes, forward half. */
    method PlugNext(p: nat, ghost i: nat)
      requires Encoded() && i < |blocks| && blocks[i].start == p && !blocks[i].live
      modifies this`blocks, this`lfree, mem
      ensures Encoded() && blocks == PlugForward(old(blocks), i)
      ensures lfree == FollowedNext(old(blocks), i, old(lfree))
      ensures Kept(old(mem[..]), mem[..], old(blocks), {})
    {
      assert Header(mem[..], blocks, i, pool) && Linked(blocks, i, End());
      Bounded(blocks, End(), i);
      assert i + 1 < |blocks| ==> Linked(blocks, i + 1, End()) && Header(mem[..], blocks, i + 1, pool);
      KeptRefl(mem[..], blocks, End());
      var n := mem[p + 1];
      if p != n && !InUse(n) && n != memSize + HDR {
        if lfree == n { lfree := p; }
        Absorb(p, i);
      }
    }

    /** plug_holes, backward half. */
    method PlugPrev(p: nat, ghost i: nat)
      requires Encoded() && i < |blocks| && blocks[i].start == p && !blocks[i].live
      modifies this`blocks, this`lfree, mem
      ensures Encoded() && blocks == PlugBackward(old(blocks), i)
      ensures lfree == FollowedPrev(old(blocks), i, old(lfree))
      ensures Kept(old(mem[..]), mem[..], old(blocks), {})
    {
      assert Header(mem[..], blocks, i, pool) && Linked(blocks, i, End());
      Bounded(blocks, End(), i);
      if i > 0 {
        assert Header(mem[..], blocks, i - 1, pool);
        Bounded(blocks, End(), i - 1);
      }
      KeptRefl(mem[..], blocks, End());
      var q := mem[p + 2];
      if q != p && !InUse(q) {
        if lfree == p { lfree := q; }
        Absorb(q, i - 1);
      }
    }

    /** plug_holes */
    method PlugHoles(p: nat, ghost i: nat)
      requires Encoded() && i < |blocks| && blocks[i].start == p && !blocks[i].live
      modifies this`blocks, this`lfree, mem
      ensures Encoded() && blocks == Plug(old(blocks), i)
      ensures lfree == Followed(old(blocks), i, old(lfree))
      ensures Kept(old(mem[..]), mem[..], old(blocks), {})
    {
      ghost var m0, bs := mem[..], blocks;
      ForwardFacts(bs, End(), i);
      PlugNext(p, i);
      ghost var m1, f := mem[..], blocks;
      PlugPrev(p, i);
      KeptTrans(m0, m1, mem[..], bs, f, {});
    }

    /** plug_holes as the last step of free and of the in-place shrink. */
    method Settle(p: nat, ghost i: nat)
      requires Encoded() && i < |blocks| && blocks[i].start == p && !blocks[i].live && CoalescedExcept(blocks, i)
      requires lfree == LowestFree(blocks, End())
      requires Inv(Heap(memSize, Plug(blocks, i), used, max, seen))
      modifies this`blocks, this`lfree, mem
      ensures Valid() && blocks == Plug(old(blocks), i)
      ensures Kept(old(mem[..]), mem[..], old(blocks), {})
    {
      PlugPhase(blocks, End(), i, lfree);
      PlugHoles(p, i);
    }

    /** The header of live block `i` is marked free; neighbours are not merged yet. */
    method MarkFree(h: nat, ghost i: nat)
      requires Valid() && i < |blocks| && blocks[i].live && blocks[i].start == h
      modifies this, mem
      ensures Encoded() && blocks == Freed(old(blocks), i)
      ensures used == old(used) - (old(blocks)[i].next - h) && seen == old(seen) + [used] && max == old(max)
      ensures lfree == if h < old(lfree) then h else old(lfree)
      ensures Kept(old(mem[..]), mem[..], old(blocks), {old(blocks)[i]})
    {
      ghost var m0, bs := mem[..], blocks;
      assert Header(m0, bs, i, pool);
      Bounded(bs, End(), i);
      assert InUse(h) && mem[h] - mem[h] % 2 == pool;
      mem[h] := Tag(pool, false);
      if h < lfree { lfree := h; }
      used := used - (mem[h + 1] - h);
      seen := seen + [used];
      blocks := Freed(bs, i);
      assert i + 1 < |bs| ==> Header(m0, bs, i + 1, pool) && Linked(bs, i + 1, End());
      Rewrite(m0, mem[..], bs, i, 1, [bs[i].(live := false)], pool, End());
      RewriteKeeps(m0, mem[..], bs, i, 1, End(), {bs[i]});
    }

    /** Mark the block free, then plug holes around it. */
    method ReleaseBlock(h: nat, ghost i: nat, ghost plugged: seq<Block>)
      requires Valid() && i < |blocks| && blocks[i].live && blocks[i].start == h
      requires var fs := Freed(blocks, i);
        && i < |fs| && fs[i].start == h && !fs[i].live && CoalescedExcept(fs, i) && plugged == Plug(fs, i)
        && LowestFree(fs, End()) == (if h < lfree then h else lfree) && LiveSet(blocks) - {blocks[i]} <= LiveSet(fs)
      requires var u := used - (blocks[i].next - h); Inv(Heap(memSize, plugged, u, max, seen + [u]))
      modifies this, mem
      ensures Valid() && blocks == plugged
      ensures used == old(used) - (old(blocks)[i].next - h) && seen == old(seen) + [used] && max == old(max)
      ensures Kept(old(mem[..]), mem[..], old(blocks), {old(blocks)[i]})
    {
      ghost var m0, bs := mem[..], blocks;
      MarkFree(h, i);
      ghost var m1, fs := mem[..], blocks;
      Settle(h, i);
      KeptTrans(m0, m1, mem[..], bs, fs, {bs[i]});
    }

    /** rt_smem_free of a block. The pool is recovered from the header itself. */
    method FreeBlock(p: nat)
      requires Valid() && IsLive(blocks, p)
      modifies this, mem
      ensures Valid() && View() == HeapOps.Free(old(View()), p)
      ensures Kept(old(mem[..]), mem[..], old(blocks), {At(old(blocks), p)})
    {
      var h := p - HDR;
      ghost var i := Find(blocks, 0, h);
      FreePhase(View(), p, i, lfree);
      ReleaseBlock(h, i, Plug(Freed(blocks, i), i));
    }

    /** rt_smem_free, which ignores a null pointer. */
    method Free(p: Option<nat>)
      requires Valid() && (p.Some? ==> IsLive(blocks, p.value))
      modifies this, mem
      ensures Valid() && View() == (if p.Some? then HeapOps.Free(old(View()), p.value) else old(View()))
      ensures p.None? ==> mem[..] == old(mem[..])
      ensures p.Some? ==> Kept(old(mem[..]), mem[..], old(blocks), {At(old(blocks), p.value)})
    {
      if p.Some? { FreeBlock(p.value); }
    }

    /** The header writes of a split: a free header at `p2`, linked between `p` and its successor. */
    method LinkRest(p: nat, p2: nat)
      requires p + HDR <= p2 && p2 + 2 < mem.Length == memSize + 2 * HDR
      requires p2 + HDR <= mem[p + 1] <= memSize + HDR
      modifies mem
      ensures var next := old(mem[p + 1]);
        && OnlyAt(old(mem[..]), mem[..], p, next)
        && mem[p] == old(mem[p]) && mem[p + 1] == p2 && mem[p + 2] == old(mem[p + 2])
        && mem[p2] == Tag(pool, false) && mem[p2 + 1] == next && mem[p2 + 2] == p
        && (next != memSize + HDR ==> mem[next + 2] == p2)
        && mem[p + HDR..p2] == old(mem[p + HDR..p2])
    {
      mem[p2] := Tag(pool, false);
      mem[p2 + 1] := mem[p + 1];
      mem[p2 + 2] := p;
      mem[p + 1] := p2;
      if mem[p2 + 1] != memSize + HDR {
        mem[mem[p2 + 1] + 2] := p2;
      }
    }

    /** The block at `p` is cut after `n` payload words; the rest gets a free header of its own. */
    method Split(p: nat, n: nat, ghost i: nat)
      requires Encoded() && i < |blocks| && blocks[i].start == p && blocks[i].Capacity() >= n + HDR
      modifies this`blocks, mem
      ensures Encoded() && blocks == Divided(old(blocks), i, n)
      ensures Kept(old(mem[..]), mem[..], old(blocks), {old(blocks)[i]})
      ensures p + HDR + n <= mem.Length && mem[p + HDR..p + HDR + n] == old(mem[p + HDR..p + HDR + n])
    {
      ghost var m0, bs := mem[..], blocks;
      assert Header(m0, bs, i, pool);
      Bounded(bs, End(), i);
      LinkRest(p, p + HDR + n);
      blocks := Divided(bs, i, n);
      if i + 1 < |bs| {
        assert Linked(bs, i + 1, End());
        Bounded(bs, End(), i + 1);
      }
      Rewrite(m0, mem[..], bs, i, 1, Halves(bs[i], n), pool, End());
      RewriteKeeps(m0, mem[..], bs, i, 1, End(), {bs[i]});
    }

    method MarkUsed(p: nat, ghost i: nat)
      requires Encoded() && i < |blocks| && blocks[i].start == p && !blocks[i].live
      modifies this`blocks, mem
      ensures Encoded() && blocks == Splice(old(blocks), i, 1, [old(blocks)[i].(live := true)])
      ensures Kept(old(mem[..]), mem[..], old(blocks), {})
    {
      ghost var m0, bs := mem[..], blocks;
      assert Header(m0, bs, i, pool);
      Bounded(bs, End(), i);
      mem[p] := Tag(pool, true);
      assert i + 1 < |bs| ==> Header(m0, bs, i + 1, pool) && Linked(bs, i + 1, End());
      blocks := Splice(bs, i, 1, [bs[i].(live := true)]);
      Rewrite(m0, mem[..], bs, i, 1, [bs[i].(live := true)], pool, End());
      RewriteKeeps(m0, mem[..], bs, i, 1, End(), {});
    }

    /** Splitting and accounting in the search loop of rt_smem_alloc. */
    method Reserve(p: nat, w: nat, ghost i: nat)
      requires Encoded() && i < |blocks| && blocks[i].start == p && Fits(blocks[i], w)
      modifies this`blocks, this`used, mem
      ensures Encoded() && i < |blocks| && blocks[i].start == p && !blocks[i].live
      ensures blocks == Reserved(old(blocks), i, w)
      ensures used == old(used) + blocks[i].next - p
      ensures Kept(old(mem[..]), mem[..], old(blocks), {}) && LiveSet(old(blocks)) <= LiveSet(blocks)
    {
      ghost var bs := blocks;
      assert Header(mem[..], bs, i, pool);
      Bounded(bs, End(), i);
      if mem[p + 1] - (p + HDR) >= w + HDR + MIN {
        InLiveSet(bs, bs[i]);
        DividedLive(bs, End(), i, w);
        Split(p, w, i);
        used := used + w + HDR;
      } else {
        KeptRefl(mem[..], bs, End());
        used := used + mem[p + 1] - p;
      }
    }

    /** The body of the search loop of rt_smem_alloc once a fitting block is found. */
    method TakeBlock(p: nat, w: nat, ghost i: nat)
      requires Encoded() && i < |blocks| && blocks[i].start == p && Fits(blocks[i], w)
      modifies this`blocks, this`used, this`max, this`seen, mem
      ensures Encoded() && blocks == Take(old(blocks), i, w) && i < |blocks|
      ensures used == old(used) + blocks[i].next - p && max == Max(old(max), used) && seen == old(seen) + [used]
      ensures Kept(old(mem[..]), mem[..], old(blocks), {})
    {
      ghost var m0, bs := mem[..], blocks;
      ReservedTaken(bs, i, w);
      Reserve(p, w, i);
      if max < used { max := used; }
      seen := seen + [used];
      ghost var m1, bs1 := mem[..], blocks;
      MarkUsed(p, i);
      KeptTrans(m0, m1, mem[..], bs, bs1, {});
    }

    /** Find the next free block at or after `lfree`. */
    method AdvanceLowest(ghost i: nat)
      requires Encoded() && i < |blocks| && blocks[i].start == lfree
      requires forall j | 0 <= j < i :: blocks[j].live
      modifies this`lfree
      ensures lfree == LowestFree(blocks, End())
    {
      ghost var k := i;
      OrderedAll(blocks, End());
      while InUse(lfree) && lfree != memSize + HDR
        invariant 0 <= k <= |blocks|
        invariant lfree == (if k == |blocks| then End() else blocks[k].start)
        invariant forall j | 0 <= j < k :: blocks[j].live
        decreases |blocks| - k
      {
        assert Header(mem[..], blocks, k, pool) && Linked(blocks, k, End());
        assert k + 1 < |blocks| ==> Linked(blocks, k + 1, End());
        lfree := mem[lfree + 1];
        k := k + 1;
      }
      if k < |blocks| { assert Header(mem[..], blocks, k, pool); }
      LowestFreeIs(blocks, lfree, End());
    }

    /** The search of rt_smem_alloc: first fit from the lowest free block, up to the last offset at
        which the request could still fit. It finds the lowest fitting block of the whole heap. */
    method Search(w: nat) returns (r: Option<nat>)
      requires Valid() && w <= memSize
      ensures var k := FirstFit(blocks, 0, w); r == if k < |blocks| then Some(blocks[k].start) else None
    {
      var p := lfree;
      ghost var k := Find(blocks, 0, lfree);
      LowestIndex(blocks, End(), lfree);
      while p <= memSize - w
        invariant 0 <= k <= |blocks|
        invariant p == (if k == |blocks| then End() else blocks[k].start)
        invariant forall j {:trigger Fits(blocks[j], w)} | 0 <= j < k :: !Fits(blocks[j], w)
        decreases |blocks| - k
      {
        assert Header(mem[..], blocks, k, pool) && Linked(blocks, k, End());
        Bounded(blocks, End(), k);
        if !InUse(p) && mem[p + 1] - (p + HDR) >= w {
          assert Fits(blocks[k], w) && FirstFit(blocks, 0, w) == k;
          return Some(p);
        }
        assert k + 1 < |blocks| ==> Linked(blocks, k + 1, End());
        p := mem[p + 1];
        k := k + 1;
      }
      TailTooSmall(blocks, End(), k, w);
      return None;
    }

    /** Take the first fitting block and move the lowest-free pointer if it was that block. */
    method Claim(p: nat, w: nat, ghost k: nat)
      requires Valid() && k < |blocks| && blocks[k].start == p && Fits(blocks[k], w) && MIN <= w <= memSize
      requires FirstFit(blocks, 0, w) == k
      modifies this, mem
      ensures Valid() && (View(), Some(p + HDR)) == HeapOps.AllocWords(old(View()), w)
      ensures Kept(old(mem[..]), mem[..], old(blocks), {})
    {
      ClaimView(View(), k, w);
      TakeLowest(blocks, End(), k, w, lfree);
      TakeBlock(p, w, k);
      if p == lfree {
        AdvanceLowest(k);
      }
    }

    /** rt_smem_alloc for `n` words. */
    method AllocWords(n: nat) returns (r: Option<nat>)
      requires Valid()
      modifies this, mem
      ensures Valid() && (View(), r) == HeapOps.AllocWords(old(View()), n)
      ensures Kept(old(mem[..]), mem[..], old(blocks), {})
      ensures r.None? ==> mem[..] == old(mem[..]) && lfree == old(lfree)
    {
      var w := if n < MIN then MIN else n;
      KeptRefl(mem[..], blocks, End());
      r := None;
      if w <= memSize {
        var p := Search(w);
        if p.Some? {
          Claim(p.value, w, FirstFit(blocks, 0, w));
          r := Some(p.value + HDR);
        }
      }
    }

    /** rt_smem_alloc */
    method Alloc(size: Word) returns (r: Option<nat>)
      requires Valid()
      modifies this, mem
      ensures Valid() && (View(), r) == HeapOps.Alloc(old(View()), size)
      ensures Kept(old(mem[..]), mem[..], old(blocks), {})
      ensures r.None? ==> mem[..] == old(mem[..]) && lfree == old(lfree)
    {
      KeptRefl(mem[..], blocks, End());
      if size == 0 { return None; }
      r := AllocWords(AlignWords(size));
    }

    /** rt_memcpy between two payloads that do not overlap, a word at a time. */
    method CopyWords(dst: nat, src: nat, n: nat)
      requires dst + n <= mem.Length && src + n <= mem.Length && (dst + n <= src || src + n <= dst)
      modifies mem
      ensures mem[dst..dst + n] == old(mem[src..src + n])
      ensures forall w | 0 <= w < mem.Length && !(dst <= w < dst + n) :: mem[w] == old(mem[w])
    {
      for i := 0 to n
        invariant mem[dst..dst + i] == old(mem[src..src + i])
        invariant forall w | 0 <= w < mem.Length && !(dst <= w < dst + i) :: mem[w] == old(mem[w])
      {
        mem[dst + i] := mem[src + i];
      }
    }

    /** First phase of the in-place shrink: the tail becomes a free block of its own. */
    method CutBlock(p: nat, n: nat, ghost i: nat)
      requires Valid() && IsLive(blocks, p) && i == Find(blocks, 0, p - HDR)
      requires n + HDR + MIN < blocks[i].Capacity()
      modifies this, mem
      ensures Encoded() && blocks == Cut(old(blocks), i, n)
      ensures used == old(used) - (old(blocks)[i].Capacity() - n) && seen == old(seen) + [used] && max == old(max)
      ensures lfree == if p + n < old(lfree) then p + n else old(lfree)
      ensures Kept(old(mem[..]), mem[..], old(blocks), {old(blocks)[i]})
      ensures p + n <= mem.Length && mem[p..p + n] == old(mem[p..p + n])
    {
      var h := p - HDR;
      assert Header(mem[..], blocks, i, pool);
      Bounded(blocks, End(), i);
      var cap := mem[h + 1] - h - HDR;
      used := used - (cap - n);
      seen := seen + [used];
      Split(h, n, i);
      if h + HDR + n < lfree { lfree := h + HDR + n; }
    }

    /** Cut the tail off, then plug holes around it. */
    method ShrinkAt(p: nat, n: nat, ghost i: nat, ghost plugged: seq<Block>)
      requires Valid() && IsLive(blocks, p) && i == Find(blocks, 0, p - HDR) && n + HDR + MIN < blocks[i].Capacity()
      requires var cs := Cut(blocks, i, n);
        && i + 1 < |cs| && cs[i + 1].start == p + n && !cs[i + 1].live && CoalescedExcept(cs, i + 1)
        && plugged == Plug(cs, i + 1) && LowestFree(cs, End()) == (if p + n < lfree then p + n else lfree)
        && LiveSet(blocks) - {blocks[i]} <= LiveSet(cs) && Block(p - HDR, p + n, true) in LiveSet(cs)
      requires var u := used - (blocks[i].Capacity() - n); Inv(Heap(memSize, plugged, u, max, seen + [u]))
      modifies this, mem
      ensures Valid() && blocks == plugged
      ensures used == old(used) - (old(blocks)[i].Capacity() - n) && seen == old(seen) + [used] && max == old(max)
      ensures Kept(old(mem[..]), mem[..], old(blocks), {old(blocks)[i]})
      ensures p + n <= mem.Length && mem[p..p + n] == old(mem[p..p + n])
    {
      ghost var m0, bs := mem[..], blocks;
      CutBlock(p, n, i);
      ghost var m1, cs := mem[..], blocks;
      assert m1[p..p + n] == m0[p..p + n];
      Settle(p + n, i + 1);
      KeptHead(m0, m1, mem[..], bs, cs, bs[i], p, n);
    }

    /** The in-place shrink of rt_smem_realloc. */
    method ShrinkBlock(p: nat, n: nat)
      requires Valid() && IsLive(blocks, p) && n + HDR + MIN < At(blocks, p).Capacity()
      modifies this, mem
      ensures Valid() && (View(), Some(p)) == ReallocWords(old(View()), p, n)
      ensures Kept(old(mem[..]), mem[..], old(blocks), {At(old(blocks), p)})
      ensures p + n <= mem.Length && mem[p..p + n] == old(mem[p..p + n])
    {
      ghost var i := Find(blocks, 0, p - HDR);
      CutPhase(View(), p, n, i, lfree);
      ShrinkView(View(), p, n, i);
      ShrinkAt(p, n, i, Shrink(blocks, i, n));
    }

    /** Copy as much of block `p` as both blocks can hold into block `q`. */
    method CopyPayload(p: nat, q: nat, n: nat)
      requires Valid() && IsLive(blocks, p) && IsLive(blocks, q) && p != q && n <= At(blocks, q).Capacity()
      modifies mem
      ensures Valid() && Kept(old(mem[..]), mem[..], blocks, {At(blocks, q)})
      ensures Carried(old(mem[..]), mem[..], p, q, Min(At(blocks, p).Capacity(), n))
    {
      ghost var m0 := mem[..];
      Apart(View(), p, q);
      var cap := ReadCapacity(p);
      CopyWords(q, p, Min(cap, n));
      PayloadWrite(m0, mem[..], blocks, Find(blocks, 0, q - HDR), pool, End());
    }

    /** Allocate a new home for the contents of block `p` and fill it. */
    method AllocAndCopy(p: nat, n: nat) returns (r: Option<nat>)
      requires Valid() && IsLive(blocks, p)
      modifies this, mem
      ensures Valid() && (View(), r) == HeapOps.AllocWords(old(View()), n)
      ensures Kept(old(mem[..]), mem[..], old(blocks), {})
      ensures r.None? ==> mem[..] == old(mem[..]) && lfree == old(lfree)
      ensures r.Some? ==> Carried(old(mem[..]), mem[..], p, r.value, Min(At(old(blocks), p).Capacity(), n))
    {
      ghost var m0, bs := mem[..], blocks;
      NewHome(View(), p, n);
      r := AllocWords(n);
      if r.None? { return; }
      ghost var m1, bs1 := mem[..], blocks;
      CopyPayload(p, r.value, n);
      CopyFrame(m0, m1, mem[..], bs, bs1, At(bs, p), At(bs1, r.value), p, r.value, Min(At(bs, p).Capacity(), n));
    }

    /** The expanding path of rt_smem_realloc: allocate, copy, free. */
    method MoveBlock(p: nat, n: nat) returns (r: Option<nat>)
      requires Valid() && IsLive(blocks, p)
      modifies this, mem
      ensures Valid() && (View(), r) == Relocate(old(View()), p, n)
      ensures Kept(old(mem[..]), mem[..], old(blocks), {At(old(blocks), p)})
      ensures r.None? ==> mem[..] == old(mem[..]) && lfree == old(lfree)
      ensures r.Some? ==> Carried(old(mem[..]), mem[..], p, r.value, Min(At(old(blocks), p).Capacity(), n))
    {
      ghost var m0, view := mem[..], View();
      AllocSound(view, n);
      AllocKeepsPointer(view, n, p);
      r := AllocAndCopy(p, n);
      if r.None? { return; }
      ghost var m1 := mem[..];
      FreeBlock(p);
      RelocateFrame(view, p, n, m0, m1, mem[..]);
    }

    /** The capacity of the block at `p`, from its header. */
    method ReadCapacity(p: nat) returns (cap: int)
      requires Valid() && IsLive(blocks, p)
      ensures cap == At(blocks, p).Capacity()
    {
      var h := p - HDR;
      ghost var i := Find(blocks, 0, h);
      assert Header(mem[..], blocks, i, pool);
      cap := mem[h + 1] - h - HDR;
    }

    /** rt_smem_realloc of an existing block to `n` words. */
    method ResizeBlock(p: nat, n: nat) returns (r: Option<nat>)
      requires Valid() && IsLive(blocks, p)
      modifies this, mem
      ensures Valid() && (View(), r) == ReallocWords(old(View()), p, n)
      ensures Kept(old(mem[..]), mem[..], old(blocks), {At(old(blocks), p)})
      ensures r.None? ==> mem[..] == old(mem[..]) && lfree == old(lfree)
      ensures r.Some? ==> Carried(old(mem[..]), mem[..], p, r.value, Min(At(old(blocks), p).Capacity(), n))
    {
      KeptRefl(mem[..], blocks, End());
      var cap := ReadCapacity(p);
      if cap == n {
        Bounded(blocks, End(), Find(blocks, 0, p - HDR));
        r := Some(p);
      } else if n + HDR + MIN < cap {
        ShrinkBlock(p, n);
        r := Some(p);
      } else {
        r := MoveBlock(p, n);
      }
    }

    /** rt_smem_realloc */
    method Realloc(p: Option<nat>, size: Word) returns (r: Option<nat>)
      requires Valid() && (p.Some? ==> IsLive(blocks, p.value))
      modifies this, mem
      ensures Valid() && (View(), r) == HeapOps.Realloc(old(View()), p, size)
      ensures Kept(old(mem[..]), mem[..], old(blocks), if p.Some? then {At(old(blocks), p.value)} else {})
      ensures AlignWords(size) != 0 && r.None? ==> mem[..] == old(mem[..]) && lfree == old(lfree)
      ensures p.Some? && r.Some? ==>
        Carried(old(mem[..]), mem[..], p.value, r.value, Min(At(old(blocks), p.value).Capacity(), AlignWords(size)))
    {
      var n := AlignWords(size);
      KeptRefl(mem[..], blocks, End());
      r := None;
      if n > memSize {
      } else if n == 0 {
        Free(p);
      } else if p.None? {
        r := AllocWords(n);
      } else {
        r := ResizeBlock(p.value, n);
      }
    }

    /** A client's store into its own block. */
    method Store(p: nat, off: nat, v: int)
      requires Valid() && IsLive(blocks, p) && off < At(blocks, p).Capacity()
      modifies mem
      ensures Valid() && p + off < mem.Length && mem[..] == old(mem[..])[p + off := v]
      ensures Kept(old(mem[..]), mem[..], blocks, {At(blocks, p)})
    {
      ghost var m0, i := mem[..], Find(blocks, 0, p - HDR);
      Bounded(blocks, End(), i);
      mem[p + off] := v;
      PayloadWrite(m0, mem[..], blocks, i, pool, End());
    }
  }
}
