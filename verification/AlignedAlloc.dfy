/** rt_malloc_align and rt_free_align of rt-thread/src/kservice.c over the heap. Addresses count bytes: the
    word at offset p of the heap lies at base + 4 * p. */
module AlignedAlloc {
  import opened Common
  import opened HeapModel
  import opened HeapOps
  import opened HeapRuns
  import opened SmallMem
  import opened Bits

  /** The alignment and the request that rt_malloc_align works with. */
  function RealAlign(align: Word): Word { AlignUp(align, 4) }

  function Request(size: Word, align: Word): Word { Wrap(AlignUp(size, 4) + RealAlign(align)) }

  /** Nothing wraps: the rounded size and the rounded alignment fit a word together. */
  predicate Fitting(size: Word, align: Word) {
    size + 3 < 0x1_0000_0000 && align + 3 < 0x1_0000_0000 && AlignUp(size, 4) + RealAlign(align) < 0x1_0000_0000
  }

  /** The aligned address inside the block at `ptr`: never ptr itself, to leave room for the saved word. */
  function Place(ptr: Word, align: Word): Word {
    if And(ptr, Wrap(align - 1)) == 0 then Wrap(ptr + align) else AlignUp(ptr, align)
  }

  lemma RoundFour(x: Word)
    requires x + 3 < 0x1_0000_0000
    ensures AlignUp(x, 4) % 4 == 0 && x <= AlignUp(x, 4) < x + 4
  {
    SmallPowers();
    AlignUpIs(x, 2, 4);
  }

  lemma NearestMultiple(x: nat, r: nat)
    requires r % 4 == 0 && x <= r < x + 4
    ensures x % 4 == 0 ==> r == x
    ensures x == 1 || x == 2 ==> r == 4
  {}

  lemma RealAlignOf(align: Word)
    requires align + 3 < 0x1_0000_0000
    ensures align % 4 == 0 ==> RealAlign(align) == align
    ensures align == 1 || align == 2 ==> RealAlign(align) == 4
  {
    RoundFour(align);
    NearestMultiple(align, RealAlign(align));
  }

  lemma PowerRounds(k: nat, p: nat, r: nat)
    requires p == Pow2(k) && (p % 4 == 0 ==> r == p) && (p == 1 || p == 2 ==> r == 4)
    ensures r == Pow2(Strength(k))
  {
    SmallPowers();
    if k >= 2 {
      PowMultiple(k);
    } else {
      assert k == 0 || k == 1;
    }
  }

  lemma RealAlignIs(k: nat, align: Word)
    requires k < 32 && align == Pow2(k)
    ensures RealAlign(align) == Pow2(Strength(k))
  {
    AlignFits(k);
    RealAlignOf(align);
    PowerRounds(k, align, RealAlign(align));
  }

  lemma SmallPowers()
    ensures Pow2(2) == 4 && Pow2(1) == 2 && Pow2(0) == 1
  {}

  lemma PowMultiple(k: nat)
    requires k >= 2
    ensures Pow2(k) % 4 == 0
  {
    assert Pow2(k) == 4 * Pow2(k - 2);
  }

  /* ---- Where the result lies, for every alignment ---- */

  lemma PlaceAbove(ptr: Word, a: Word)
    requires a > 0 && ptr + a < 0x1_0000_0000 && And(ptr, a - 1) != 0
    ensures AlignUp(ptr, a) == ptr + a - 1 - And(ptr + a - 1, a - 1)
    ensures ptr < AlignUp(ptr, a) < ptr + a
  {
    UpIsDown(ptr, a);
    DownIsAnd(ptr + a - 1, a);
    AndBelow(ptr + a - 1, a - 1);
    if And(ptr + a - 1, a - 1) == a - 1 {
      AndSumFull(ptr, a - 1);
    }
  }

  lemma WordApart(x: nat, y: nat)
    requires x % 4 == 0 && y % 4 == 0 && x < y
    ensures x + 4 <= y
  {}

  lemma ClearsLowTwo(y: nat, a: nat, r: nat)
    requires a > 0 && a % 4 == 0 && r == y - And(y, a - 1)
    ensures r % 4 == 0
  {
    AndLowTwo(y, a / 4 - 1, a - 1);
    SameRest(y, And(y, a - 1), r);
  }

  lemma SameRest(x: nat, y: nat, r: nat)
    requires x % 4 == y % 4 && r == x - y
    ensures r % 4 == 0
  {}

  lemma PlaceOff(ptr: Word, a: Word, r: nat)
    requires a > 0 && a % 4 == 0 && ptr % 4 == 0 && ptr + a < 0x1_0000_0000 && And(ptr, a - 1) != 0
    requires r == AlignUp(ptr, a)
    ensures r % 4 == 0 && ptr + 4 <= r <= ptr + a
  {
    PlaceAbove(ptr, a);
    ClearsLowTwo(ptr + a - 1, a, r);
    WordApart(ptr, r);
  }

  lemma FourSum(x: nat, y: nat)
    requires x % 4 == 0 && y % 4 == 0 && y > 0
    ensures (x + y) % 4 == 0 && y >= 4
  {}

  /** At least one word and at most `a` bytes above the block, on a word boundary: for every rounded
      alignment but 0. */
  lemma PlaceIs(ptr: Word, a: Word)
    requires a > 0 && a % 4 == 0 && ptr % 4 == 0 && ptr + a < 0x1_0000_0000
    ensures Place(ptr, a) % 4 == 0 && ptr + 4 <= Place(ptr, a) <= ptr + a
  {
    NoWrap(a - 1);
    NoWrap(ptr + a);
    if And(ptr, a - 1) == 0 {
      FourSum(ptr, a);
    } else {
      PlaceOff(ptr, a, Place(ptr, a));
    }
  }

  ghost predicate Inside(ptr: Word, a: Word) { ptr + 4 <= Place(ptr, a) <= ptr + a }

  /** A rounded alignment of 0 sends every caller to address 0. */
  lemma ZeroPlace(ptr: Word)
    ensures Place(ptr, 0) == 0
  {
    Pow2Of32();
    AndOnes(ptr, 32);
    assert Wrap(-1) == 0xFFFF_FFFF;
    AndZero(Wrap(ptr - 1));
  }

  /** The result lies inside every block that holds it exactly if the rounded alignment is not 0. */
  lemma ContainmentExact(a: Word)
    requires a % 4 == 0
    ensures (forall ptr: Word | ptr % 4 == 0 && ptr + a < 0x1_0000_0000 :: Inside(ptr, a)) <==> a != 0
  {
    if a == 0 {
      ZeroPlace(0);
      assert !Inside(0, a);
    } else {
      forall ptr: Word | ptr % 4 == 0 && ptr + a < 0x1_0000_0000
        ensures Inside(ptr, a)
      {
        PlaceIs(ptr, a);
      }
    }
  }

  lemma PlaceMultiple(ptr: Word, k: nat, align: Word)
    requires 2 <= k < 32 && align == Pow2(k) && ptr + align < 0x1_0000_0000
    ensures Place(ptr, align) % align == 0
    ensures ptr < Place(ptr, align) <= ptr + align
  {
    MultipleTest(ptr, k, align);
    if And(ptr, Wrap(align - 1)) == 0 {
      NextMultiple(ptr, align);
      NoWrap(ptr + align);
    } else {
      AlignUpIs(ptr, k, align);
      NotMultiple(ptr, AlignUp(ptr, align), align);
    }
  }

  lemma NotMultiple(x: nat, y: nat, d: nat)
    requires d > 0 && x % d != 0 && y % d == 0
    ensures x != y
  {}

  /* ---- Exactly when rt_malloc_align keeps its promise ---- */

  ghost predicate IsPower(a: nat) { exists k :: a == Pow2(k) }

  ghost predicate LandsOn(ptr: Word, a: Word)
    requires a > 0
  {
    Place(ptr, a) % a == 0
  }

  /** For an alignment that is no power of two the block at its lowest bit is misplaced. */
  lemma Misplaced(a: Word, ptr: Word)
    requires 0 < a <= 0x8000_0000 && ptr == LowBit(a) && ptr < a
    ensures !LandsOn(ptr, a)
  {
    AndLowBit(a);
    NoWrap(a - 1);
    NoWrap(ptr + a);
    ModUnique(ptr + a, a, 1, ptr);
  }

  lemma LowBitWord(a: nat)
    requires a > 0 && a % 4 == 0
    ensures LowBit(a) % 4 == 0
  {
    assert LowBit(a) == 2 * (2 * LowBit(a / 2 / 2));
  }

  /** An alignment, already rounded to words, is met for every block exactly if it is a power of two. */
  lemma AlignmentExact(a: Word)
    requires a % 4 == 0 && 0 < a <= 0x8000_0000
    ensures (forall ptr: Word | ptr % 4 == 0 && ptr + a < 0x1_0000_0000 :: LandsOn(ptr, a)) <==> IsPower(a)
  {
    if LowBit(a) == a {
      var k := OnlyBit(a);
      PowerRange(k, a);
      forall ptr: Word | ptr % 4 == 0 && ptr + a < 0x1_0000_0000
        ensures LandsOn(ptr, a)
      {
        PlaceMultiple(ptr, k, a);
      }
    } else {
      LowBitWord(a);
      Misplaced(a, LowBit(a));
      forall k: nat
        ensures a != Pow2(k)
      {
        LowBitOfPow2(k);
      }
    }
  }

  lemma PowerRange(k: nat, a: nat)
    requires a == Pow2(k) && a % 4 == 0 && a <= 0x8000_0000
    ensures 2 <= k < 32
  {
    SmallPowers();
    Pow2Of32();
    if k >= 32 {
      Pow2Grows(32, k);
    }
  }

  lemma WrapBack(x: nat)
    requires 0x1_0000_0000 <= x < 0x2_0000_0000
    ensures Wrap(x) == x - 0x1_0000_0000
  {}

  lemma WrappedUp(size: Word)
    requires size + 3 >= 0x1_0000_0000
    ensures AlignUp(size, 4) == 0
  {
    SmallPowers();
    WrapBack(size + 3);
    AlignDownIs(size + 3 - 0x1_0000_0000, 2, 4);
    assert AlignUp(size, 4) == AlignDown(size + 3 - 0x1_0000_0000, 4);
  }

  /** The request covers the size and one alignment exactly if nothing wraps. */
  lemma FittingExact(size: Word, align: Word)
    requires align + 3 < 0x1_0000_0000
    ensures Request(size, align) >= RealAlign(align) + size <==> Fitting(size, align)
  {
    if size + 3 >= 0x1_0000_0000 {
      WrappedUp(size);
      NoWrap(RealAlign(align));
    } else if AlignUp(size, 4) + RealAlign(align) < 0x1_0000_0000 {
      RequestIs(size, align);
    } else {
      RoundFour(size);
      WrapBack(AlignUp(size, 4) + RealAlign(align));
    }
  }

  /** The byte address of heap offset p. */
  function Address(base: nat, p: nat): nat { base + 4 * p }

  /** The whole heap lies in the address space, on a word boundary. */
  ghost predicate Placed(heap: SmallMem, base: nat) {
    base % 4 == 0 && base + 4 * heap.mem.Length <= 0x1_0000_0000
  }

  /** An address `r` handed out for the block at p: inside it with its `size` bytes, the word before it
      holding the address of the payload. */
  ghost predicate HandedOut(heap: SmallMem, base: nat, r: nat, p: nat, size: nat)
    reads heap, heap.mem
  {
    HandedOutIn(heap.mem[..], heap.blocks, base, r, p, size)
  }

  ghost predicate HandedOutIn(m: seq<int>, bs: seq<Block>, base: nat, r: nat, p: nat, size: nat) {
    && IsLive(bs, p) && r % 4 == 0
    && Address(base, p) + 4 <= r && r + size <= Address(base, At(bs, p).next)
    && (r - base) / 4 <= |m| && m[(r - base) / 4 - 1] == Address(base, p)
  }

  function Strength(k: nat): nat { if k < 2 then 2 else k }

  lemma RequestSum(size: Word, align: Word)
    requires Fitting(size, align)
    ensures Request(size, align) == AlignUp(size, 4) + RealAlign(align)
  {
    NoWrap(AlignUp(size, 4) + RealAlign(align));
  }

  lemma SumBounds(size: nat, x: nat, a: nat, total: nat)
    requires x % 4 == 0 && size <= x && a % 4 == 0 && total == x + a < 0x1_0000_0000
    ensures a + size <= total <= TWO32 - 4
  {}

  lemma RequestIs(size: Word, align: Word)
    requires Fitting(size, align)
    ensures RealAlign(align) % 4 == 0
    ensures RealAlign(align) + size <= Request(size, align) <= TWO32 - 4
  {
    RoundFour(size);
    RoundFour(align);
    RequestSum(size, align);
    SumBounds(size, AlignUp(size, 4), RealAlign(align), Request(size, align));
  }

  /** Other live blocks keep their payload through the allocation and the store into the new block. */
  lemma KeptAll(m0: seq<int>, m1: seq<int>, m2: seq<int>, bs0: seq<Block>, bs1: seq<Block>, b: Block)
    requires Kept(m0, m1, bs0, {}) && Kept(m1, m2, bs1, {b}) && b !in LiveSet(bs0) && LiveSet(bs0) <= LiveSet(bs1)
    ensures Kept(m0, m2, bs0, {})
  {
    forall c | c in LiveSet(bs0) && c !in {}
      ensures SamePayload(m0, m2, c)
    {
      assert SamePayload(m0, m1, c) && SamePayload(m1, m2, c);
    }
  }

  ghost predicate Multiple(r: nat, d: nat) { d > 0 && r % d == 0 }

  lemma PowerOfWord(align: Word) returns (k: nat)
    requires IsPower(align)
    ensures k < 32 && align == Pow2(k)
  {
    k :| align == Pow2(k);
    Pow2Of32();
    if k >= 32 {
      Pow2Grows(32, k);
    }
  }

  lemma FourDivides(r: nat, k: nat, align: nat)
    requires align == Pow2(k) && k < 2 && r % 4 == 0
    ensures Multiple(r, align)
  {
    SmallPowers();
    assert align == 1 || align == 2;
  }

  /** A power of two is met; below 4 it counts as 4. */
  lemma PowerIsMet(ptr: Word, align: Word)
    requires IsPower(align) && ptr % 4 == 0 && ptr + RealAlign(align) < 0x1_0000_0000
    ensures Multiple(Place(ptr, RealAlign(align)), align)
  {
    var k := PowerOfWord(align);
    RealAlignIs(k, align);
    SmallPowers();
    PlaceMultiple(ptr, Strength(k), RealAlign(align));
    if k < 2 {
      FourDivides(Place(ptr, RealAlign(align)), k, align);
    }
  }

  lemma PowerMetBy(ptr: Word, align: Word, a: Word, r: nat)
    requires a == RealAlign(align) && ptr % 4 == 0 && ptr + a < 0x1_0000_0000 && r == Place(ptr, a)
    ensures IsPower(align) ==> Multiple(r, align)
  {
    if IsPower(align) {
      PowerIsMet(ptr, align);
    }
  }

  lemma BlockRoom(heap: SmallMem, base: nat, p: nat, need: nat)
    requires heap.Valid() && Placed(heap, base) && IsLive(heap.blocks, p) && 4 * At(heap.blocks, p).Capacity() >= need
    ensures Address(base, p) % 4 == 0 && Address(base, p) + need < 0x1_0000_0000
    ensures At(heap.blocks, p).next == p + At(heap.blocks, p).Capacity()
  {
    Bounded(heap.blocks, heap.End(), Find(heap.blocks, 0, p - HDR));
  }

  /** Where the aligned address lies in the block at p, in words. */
  lemma PlaceOffsets(base: nat, p: nat, cap: nat, size: nat, a: nat, ptr: nat, r: nat)
    requires base % 4 == 0 && ptr == Address(base, p) && 4 * cap >= a + size
    requires r % 4 == 0 && ptr + 4 <= r <= ptr + a
    ensures r + size <= Address(base, p + cap)
    ensures 0 <= (r - ptr) / 4 - 1 < cap && (r - base) / 4 - 1 == p + ((r - ptr) / 4 - 1)
  {}

  /** The second half of rt_malloc_align: choose the address, save the pointer in the word before it. `a` is
      the rounded alignment. */
  method SaveBefore(heap: SmallMem, base: nat, p: nat, ghost size: nat, a: Word, ghost align: Word) returns (r: nat)
    requires heap.Valid() && Placed(heap, base) && IsLive(heap.blocks, p)
    requires a == RealAlign(align) && a > 0 && a % 4 == 0 && 4 * At(heap.blocks, p).Capacity() >= a + size
    modifies heap.mem
    ensures heap.Valid() && HandedOut(heap, base, r, p, size)
    ensures IsPower(align) ==> Multiple(r, align)
    ensures Kept(old(heap.mem[..]), heap.mem[..], heap.blocks, {At(heap.blocks, p)})
  {
    BlockRoom(heap, base, p, a + size);
    var ptr: Word := Address(base, p);
    r := Place(ptr, a);
    PlaceIs(ptr, a);
    PlaceOffsets(base, p, At(heap.blocks, p).Capacity(), size, a, ptr, r);
    PowerMetBy(ptr, align, a, r);
    heap.Store(p, (r - ptr) / 4 - 1, ptr);
  }

  /** rt_malloc_align, for every alignment that does not round to 0: the `size` bytes lie inside one live
      block, the address of the block is saved in the word before, no live payload changes; and a power of
      two is met. */
  method MallocAlign(heap: SmallMem, base: nat, size: Word, align: Word) returns (r: Option<nat>, ghost p: nat)
    requires heap.Valid() && Placed(heap, base) && Fitting(size, align) && RealAlign(align) != 0
    modifies heap, heap.mem
    ensures heap.Valid()
    ensures r.Some? ==> HandedOut(heap, base, r.value, p, size) && (IsPower(align) ==> Multiple(r.value, align))
    ensures heap.View() == Alloc(old(heap.View()), Request(size, align)).0
    ensures Alloc(old(heap.View()), Request(size, align)).1 == if r.Some? then Some(p) else None
    ensures r.None? ==> heap.mem[..] == old(heap.mem[..])
    ensures Kept(old(heap.mem[..]), heap.mem[..], old(heap.blocks), {})
  {
    p := 0;
    var total := Request(size, align);
    ghost var h0, m0 := heap.View(), heap.mem[..];
    RequestIs(size, align);
    var q := heap.Alloc(total);
    ghost var m1 := heap.mem[..];
    Allocated(h0, total, heap.View(), q);
    if q.None? {
      r := None;
    } else {
      p := q.value;
      var a := SaveBefore(heap, base, q.value, size, RealAlign(align), align);
      KeptAll(m0, m1, heap.mem[..], h0.blocks, heap.blocks, At(heap.blocks, p));
      r := Some(a);
    }
  }

  lemma Allocated(h: Heap, total: Word, h1: Heap, q: Option<nat>)
    requires Inv(h) && 0 < total <= TWO32 - 4 && (h1, q) == Alloc(h, total)
    ensures q.Some? ==> IsLive(h1.blocks, q.value) && 4 * At(h1.blocks, q.value).Capacity() >= total
    ensures q.Some? ==> At(h1.blocks, q.value) !in LiveSet(h.blocks) && LiveSet(h.blocks) <= LiveSet(h1.blocks)
  {
    AllocServes(h, total);
    AllocSound(h, AlignWords(total));
  }

  /* ---- When the request wraps ---- */

  /** A request that wraps is short of the size by more than any block is too large. */
  lemma WrappedRequest(size: Word, align: Word, a: Word, total: Word)
    requires a == RealAlign(align) && 0 < a <= 0x8000_0000 && total == Request(size, align) && !Fitting(size, align)
    ensures size + 4 > total + 23 && size + 4 > 32
  {
    if align + 3 >= 0x1_0000_0000 {
      WrappedUp(align);
    } else if size + 3 >= 0x1_0000_0000 {
      WrappedUp(size);
      NoWrap(a);
    } else {
      RoundFour(size);
      WrapBack(AlignUp(size, 4) + a);
    }
  }

  lemma CapacityBytes(total: Word, w: nat, cap: int)
    requires w == Max(AlignWords(total), MIN) && cap < w + HDR + MIN
    ensures 4 * cap <= total + 23 || 4 * cap <= 32
  {}

  /** What a served request got, compared with what it needs. */
  lemma ServedRoom(h: Heap, h1: Heap, q: nat, size: Word, align: Word, a: Word)
    requires Inv(h) && (h1, Some(q)) == Alloc(h, Request(size, align))
    requires a == RealAlign(align) && 0 < a <= 0x8000_0000
    ensures IsLive(h1.blocks, q)
    ensures Fitting(size, align) ==> a + size <= 4 * At(h1.blocks, q).Capacity()
    ensures !Fitting(size, align) ==> size + 4 > 4 * At(h1.blocks, q).Capacity()
  {
    var total := Request(size, align);
    AllocServes(h, total);
    if Fitting(size, align) {
      RequestIs(size, align);
    } else {
      WrappedRequest(size, align, a, total);
      CapacityBytes(total, Max(AlignWords(total), MIN), At(h1.blocks, q).Capacity());
    }
  }

  lemma RoomExact(ptr: nat, a: nat, r: nat, size: nat, bytes: int, fits: bool)
    requires ptr + 4 <= r <= ptr + a && (fits ==> a + size <= bytes) && (!fits ==> size + 4 > bytes)
    ensures r + size <= ptr + bytes <==> fits
  {}

  /** The bytes of a served request lie inside its block exactly if nothing wraps, for every heap and every
      rounded alignment from 4 to 2^31. */
  lemma BytesFitExact(h: Heap, h1: Heap, q: nat, size: Word, align: Word, a: Word, ptr: Word, r: nat)
    requires Inv(h) && (h1, Some(q)) == Alloc(h, Request(size, align))
    requires a == RealAlign(align) && 0 < a <= 0x8000_0000 && a % 4 == 0
    requires ptr % 4 == 0 && ptr + a < 0x1_0000_0000 && r == Place(ptr, a)
    ensures IsLive(h1.blocks, q)
    ensures r + size <= ptr + 4 * At(h1.blocks, q).Capacity() <==> Fitting(size, align)
  {
    ServedRoom(h, h1, q, size, align, a);
    PlaceIs(ptr, a);
    RoomExact(ptr, a, r, size, 4 * At(h1.blocks, q).Capacity(), Fitting(size, align));
  }

  /* ---- Between the two calls ---- */

  ghost function Target(bs: seq<Block>, op: Op): set<Block> {
    match op
    case OpAlloc(_) => {}
    case OpFree(p) => if p.Some? && IsLive(bs, p.value) then {At(bs, p.value)} else {}
    case OpRealloc(p, _) => if p.Some? && IsLive(bs, p.value) then {At(bs, p.value)} else {}
  }

  predicate Touches(op: Op, p: nat) {
    match op
    case OpAlloc(_) => false
    case OpFree(q) => q == Some(p)
    case OpRealloc(q, _) => q == Some(p)
  }

  lemma DistinctBlocks(h: Heap, p: nat, q: nat)
    requires IsLive(h.blocks, p) && IsLive(h.blocks, q) && p != q
    ensures At(h.blocks, p) != At(h.blocks, q)
  {}

  lemma ReallocSpares(h: Heap, q: Option<nat>, size: Word, p: nat)
    requires Inv(h) && (q.Some? ==> IsLive(h.blocks, q.value)) && IsLive(h.blocks, p) && q != Some(p)
    ensures var h1 := Realloc(h, q, size).0; Inv(h1) && At(h.blocks, p) in LiveSet(h1.blocks)
  {
    InLiveSet(h.blocks, At(h.blocks, p));
    ReallocSound(h, q, size);
    if q.Some? {
      DistinctBlocks(h, p, q.value);
      FreeSound(h, q.value);
    }
  }

  /** A block that an operation does not name is still there afterwards. */
  lemma OthersSurvive(h: Heap, op: Op, p: nat)
    requires Inv(h) && Legal(h, op) && IsLive(h.blocks, p) && !Touches(op, p)
    ensures Inv(Step(h, op)) && At(h.blocks, p) in LiveSet(Step(h, op).blocks)
    ensures At(h.blocks, p) !in Target(h.blocks, op)
  {
    InLiveSet(h.blocks, At(h.blocks, p));
    match op
    case OpAlloc(size) => AllocSound(h, AlignWords(size));
    case OpFree(q) =>
      if q.Some? {
        DistinctBlocks(h, p, q.value);
        FreeSound(h, q.value);
      }
    case OpRealloc(q, size) =>
      ReallocSpares(h, q, size, p);
      if q.Some? {
        DistinctBlocks(h, p, q.value);
      }
  }

  lemma HandedOutSurvives(m: seq<int>, m': seq<int>, h: Heap, h': Heap, except: set<Block>, base: nat, r: nat, p: nat,
                          size: nat)
    requires Inv(h) && Inv(h') && HandedOutIn(m, h.blocks, base, r, p, size) && Kept(m, m', h.blocks, except)
    requires At(h.blocks, p) !in except && At(h.blocks, p) in LiveSet(h'.blocks)
    ensures HandedOutIn(m', h'.blocks, base, r, p, size)
  {
    var b := At(h.blocks, p);
    InLiveSet(h.blocks, b);
    LiveIsFound(h'.blocks, h'.End(), b);
    assert SamePayload(m, m', b);
  }

  /** One heap operation. */
  method Perform(heap: SmallMem, op: Op)
    requires heap.Valid() && Legal(heap.View(), op)
    modifies heap, heap.mem
    ensures heap.Valid() && heap.View() == Step(old(heap.View()), op)
    ensures Kept(old(heap.mem[..]), heap.mem[..], old(heap.blocks), Target(old(heap.blocks), op))
  {
    match op
    case OpAlloc(size) => var q := heap.Alloc(size);
    case OpFree(p) =>
      KeptRefl(heap.mem[..], heap.blocks, heap.End());
      heap.Free(p);
    case OpRealloc(p, size) => var q := heap.Realloc(p, size);
  }

  /** No operation of the run names the block at p. */
  ghost predicate Spares(h: Heap, ops: seq<Op>, p: nat)
    decreases |ops|
  {
    ops == [] || (Inv(h) && Legal(h, ops[0]) && !Touches(ops[0], p) && Spares(Step(h, ops[0]), ops[1..], p))
  }

  /** Whatever is allocated, freed or resized in between, an aligned block stays what it was: FreeAlign can
      still find its way back. */
  method PerformAll(heap: SmallMem, ops: seq<Op>, ghost base: nat, ghost r: nat, ghost p: nat, ghost size: nat)
    requires heap.Valid() && HandedOut(heap, base, r, p, size) && Spares(heap.View(), ops, p)
    modifies heap, heap.mem
    ensures heap.Valid() && HandedOut(heap, base, r, p, size) && Reaches(old(heap.View()), ops, heap.View())
    decreases |ops|
  {
    if ops != [] {
      ghost var h, m := heap.View(), heap.mem[..];
      OthersSurvive(h, ops[0], p);
      Perform(heap, ops[0]);
      HandedOutSurvives(m, heap.mem[..], h, heap.View(), Target(h.blocks, ops[0]), base, r, p, size);
      PerformAll(heap, ops[1..], base, r, p, size);
    }
  }

  /** rt_free_align: the saved word leads back to exactly the block that was allocated. */
  method FreeAlign(heap: SmallMem, base: nat, r: Option<nat>, ghost p: nat, ghost size: nat)
    requires heap.Valid() && Placed(heap, base)
    requires r.Some? ==> HandedOut(heap, base, r.value, p, size)
    modifies heap, heap.mem
    ensures heap.Valid()
    ensures heap.View() == if r.Some? then HeapOps.Free(old(heap.View()), p) else old(heap.View())
    ensures r.Some? ==> Kept(old(heap.mem[..]), heap.mem[..], old(heap.blocks), {At(old(heap.blocks), p)})
  {
    if r.None? { return; }
    var saved := heap.mem[(r.value - base) / 4 - 1];
    heap.FreeBlock((saved - base) / 4);
  }

  /** The rounding of rt_smem_alloc is the mask (size + 3) & ~3, wrap-around included. */
  lemma RoundingIsMask(size: Word)
    ensures 4 * AlignWords(size) == AlignUp(size, 4)
  {
    SmallPowers();
    AlignDownIs(Wrap(size + 3), 2, 4);
  }
}
