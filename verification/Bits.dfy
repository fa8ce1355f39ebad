/** Masks: what the bit tricks of RT_ALIGN and RT_ALIGN_DOWN (rt-thread/include/rtdef.h) compute. */
module Bits {
  import opened Common

  function Pow2(k: nat): (p: nat)
    ensures p > 0
  {
    if k == 0 then 1 else 2 * Pow2(k - 1)
  }

  /** Bitwise and. */
  function And(a: nat, b: nat): (r: nat)
    ensures r <= a
  {
    if a == 0 then 0 else (if b % 2 == 1 then a % 2 else 0) + 2 * And(a / 2, b / 2)
  }

  /** Bitwise complement of a 32-bit word. */
  function Not(a: Word): Word { 0xFFFF_FFFF - a }

  function Wrap(x: int): Word { x % 0x1_0000_0000 }

  /** RT_ALIGN_DOWN and RT_ALIGN, in 32-bit arithmetic. */
  function AlignDown(x: Word, align: Word): Word { And(x, Not(Wrap(align - 1))) }

  function AlignUp(x: Word, align: Word): Word { And(Wrap(x + align - 1), Not(Wrap(align - 1))) }

  lemma Pow2Of32()
    ensures Pow2(32) == 0x1_0000_0000
  {
    assert Pow2(8) == 256;
    assert Pow2(16) == 65536;
    assert Pow2(24) == 16777216;
  }

  /* ---- Remainders ---- */

  lemma MulBound(d: int, t: int)
    requires d > 0
    ensures t >= 1 ==> d * t >= d
    ensures t <= -1 ==> d * t <= -d
  {}

  lemma ModUnique(x: nat, d: nat, q: nat, r: nat)
    requires d > 0 && r < d && x == d * q + r
    ensures x % d == r && x / d == q
  {
    assert d * (q - x / d) == x % d - r;
    MulBound(d, q - x / d);
  }

  /** The low k bits of x. */
  function Low(x: nat, k: nat): nat { if k == 0 then 0 else 2 * Low(x / 2, k - 1) + x % 2 }

  lemma {:induction false} LowIsMod(x: nat, k: nat)
    ensures Low(x, k) == x % Pow2(k) && Low(x, k) < Pow2(k)
  {
    if k > 0 {
      LowIsMod(x / 2, k - 1);
      Halves(x, Pow2(k - 1), Low(x / 2, k - 1), Low(x, k));
    }
  }

  lemma Halves(x: nat, m: nat, r1: nat, r: nat)
    requires m > 0 && (x / 2) % m == r1 && r == 2 * r1 + x % 2
    ensures x % (2 * m) == r < 2 * m
  {
    var q := (x / 2) / m;
    assert x / 2 == m * q + r1;
    assert (2 * m) * q == 2 * (m * q);
    ModUnique(x, 2 * m, q, r);
  }

  /* ---- Masks ---- */

  lemma AndSplit(x: nat, y: nat)
    ensures And(x, 2 * y) == 2 * And(x / 2, y)
    ensures And(x, 2 * y + 1) == x % 2 + 2 * And(x / 2, y)
  {
    assert (2 * y) / 2 == y && (2 * y + 1) / 2 == y && (2 * y) % 2 == 0 && (2 * y + 1) % 2 == 1;
  }

  lemma {:induction false} AndOnes(x: nat, n: nat)
    requires x < Pow2(n)
    ensures And(x, Pow2(n) - 1) == x
  {
    if n > 0 {
      AndOnes(x / 2, n - 1);
      AndSplit(x, Pow2(n - 1) - 1);
      assert 2 * (Pow2(n - 1) - 1) + 1 == Pow2(n) - 1;
    }
  }

  /** x & (2^k - 1) keeps the low bits. */
  lemma {:induction false} LowMask(x: nat, k: nat)
    ensures And(x, Pow2(k) - 1) == Low(x, k)
  {
    if k == 0 {
      AndZero(x);
    } else {
      LowMask(x / 2, k - 1);
      AndSplit(x, Pow2(k - 1) - 1);
      assert 2 * (Pow2(k - 1) - 1) + 1 == Pow2(k) - 1;
    }
  }

  lemma {:induction false} AndZero(x: nat)
    ensures And(x, 0) == 0
  {
    if x > 0 {
      AndZero(x / 2);
    }
  }

  /** x & ~(2^k - 1), in n bits, clears the low bits. */
  lemma {:induction false} HighMask(x: nat, k: nat, n: nat)
    requires k <= n && x < Pow2(n) && Pow2(k) <= Pow2(n)
    ensures And(x, Pow2(n) - Pow2(k)) == x - Low(x, k)
  {
    if k == 0 {
      AndOnes(x, n);
    } else {
      HighMask(x / 2, k - 1, n - 1);
      AndSplit(x, Pow2(n - 1) - Pow2(k - 1));
      assert Pow2(n) - Pow2(k) == 2 * (Pow2(n - 1) - Pow2(k - 1));
    }
  }

  lemma {:induction false} Pow2Grows(k: nat, n: nat)
    requires k <= n
    ensures Pow2(k) <= Pow2(n)
  {
    if k < n {
      Pow2Grows(k, n - 1);
    }
  }

  /** The alignments a word can hold. */
  lemma AlignFits(k: nat)
    requires k < 32
    ensures 2 * Pow2(k) <= 0x1_0000_0000
  {
    Pow2Of32();
    Pow2Grows(k + 1, 32);
  }

  lemma HighMask32(x: Word, k: nat)
    requires k < 32
    ensures Pow2(k) <= 0x8000_0000
    ensures And(x, 0x1_0000_0000 - Pow2(k)) == x - Low(x, k)
  {
    AlignFits(k);
    Pow2Of32();
    HighMask(x, k, 32);
  }

  lemma MaskIs(p: Word)
    requires p > 0
    ensures Not(Wrap(p - 1)) == 0x1_0000_0000 - p
  {}

  lemma DownIsLow(x: Word, k: nat, p: Word)
    requires k < 32 && p == Pow2(k)
    ensures AlignDown(x, p) == x - Low(x, k)
  {
    MaskIs(p);
    HighMask32(x, k);
  }

  /** RT_ALIGN_DOWN for every word and every power of two. */
  lemma AlignDownIs(x: Word, k: nat, p: Word)
    requires k < 32 && p == Pow2(k)
    ensures AlignDown(x, p) == x - x % p
  {
    DownIsLow(x, k, p);
    LowIsMod(x, k);
  }

  lemma MultipleAbove(x: nat, d: nat, r: int)
    requires d > 0 && r == x + d - 1 - (x + d - 1) % d
    ensures r % d == 0 && x <= r < x + d
  {
    var y := x + d - 1;
    ModUnique(y - y % d, d, y / d, 0);
  }

  lemma UpIsDown(x: Word, p: Word)
    requires 0 < p && x + p - 1 < 0x1_0000_0000
    ensures AlignUp(x, p) == AlignDown(x + p - 1, p)
  {
    NoWrap(x + p - 1);
  }

  lemma NoWrap(y: Word)
    ensures Wrap(y) == y
  {}

  /** RT_ALIGN rounds up to the next multiple unless the sum wraps. */
  lemma AlignUpIs(x: Word, k: nat, p: Word)
    requires k < 32 && p == Pow2(k) && x + p - 1 < 0x1_0000_0000
    ensures AlignUp(x, p) % p == 0 && x <= AlignUp(x, p) < x + p
  {
    UpIsDown(x, p);
    AlignDownIs(x + p - 1, k, p);
    MultipleAbove(x, p, AlignUp(x, p));
  }

  /** When it wraps the result is smaller than the request: RT_ALIGN reaches it exactly without wrap. */
  lemma AlignUpReaches(x: Word, k: nat, p: Word)
    requires k < 32 && p == Pow2(k)
    ensures AlignUp(x, p) >= x <==> x + p - 1 < 0x1_0000_0000
  {
    if x + p - 1 < 0x1_0000_0000 {
      AlignUpIs(x, k, p);
    } else {
      assert Wrap(x + p - 1) == x + p - 1 - 0x1_0000_0000;
    }
  }

  lemma MultipleOfFour(x: nat, k: nat)
    requires k >= 2 && x % Pow2(k) == 0
    ensures x % 4 == 0
  {
    LowIsMod(x, k);
    assert Low(x, k) == 2 * (2 * Low(x / 2 / 2, k - 2) + (x / 2) % 2) + x % 2;
  }

  /** The test x & (align - 1) == 0. */
  lemma MultipleTest(x: Word, k: nat, p: Word)
    requires k < 32 && p == Pow2(k)
    ensures And(x, Wrap(p - 1)) == x % p
  {
    LowMask(x, k);
    LowIsMod(x, k);
    NoWrap(p - 1);
  }

  lemma NextMultiple(x: nat, d: nat)
    requires d > 0 && x % d == 0
    ensures (x + d) % d == 0
  {
    assert x == d * (x / d);
    assert x + d == d * (x / d + 1);
    ModUnique(x + d, d, x / d + 1, 0);
  }

  /* ---- Masks of any shape ---- */

  lemma {:induction false} AndBelow(x: nat, m: nat)
    ensures And(x, m) <= m
  {
    if x > 0 {
      AndBelow(x / 2, m / 2);
    }
  }

  /** One bit of x & ~m. */
  lemma AndNotBit(x: nat, m: nat, c: nat, h: nat, y: nat)
    requires h == m / 2 && And(x / 2, y) == x / 2 - And(x / 2, h)
    requires c == if m % 2 == 0 then 2 * y + 1 else 2 * y
    ensures And(x, c) == x - And(x, m)
  {
    AndSplit(x, h);
    AndSplit(x, y);
    assert m == 2 * h || m == 2 * h + 1;
  }

  /** x & ~m, in n bits, takes x & m away. */
  lemma {:induction false} AndNot(x: nat, m: nat, n: nat)
    requires x < Pow2(n) && m < Pow2(n)
    ensures And(x, Pow2(n) - 1 - m) == x - And(x, m)
  {
    if n > 0 {
      AndNot(x / 2, m / 2, n - 1);
      AndNotBit(x, m, Pow2(n) - 1 - m, m / 2, Pow2(n - 1) - 1 - m / 2);
    }
  }

  /** If adding the mask to t leaves every bit of the mask set, t has none of them. */
  lemma {:induction false} AndSumFull(t: nat, m: nat)
    requires And(t + m, m) == m
    ensures And(t, m) == 0
    decreases m
  {
    if m == 0 {
      AndZero(t);
    } else {
      AndSplit(t + m, m / 2);
      AndSplit(t, m / 2);
      if m % 2 == 0 {
        assert m == 2 * (m / 2) && (t + m) / 2 == t / 2 + m / 2;
      } else {
        assert m == 2 * (m / 2) + 1;
        SumParity(t, m);
      }
      AndSumFull(t / 2, m / 2);
    }
  }

  lemma SumParity(t: nat, m: nat)
    requires m % 2 == 1 && And(t + m, m) == m && And(t + m, m) == (t + m) % 2 + 2 * And((t + m) / 2, m / 2)
    ensures t % 2 == 0 && (t + m) / 2 == t / 2 + m / 2 && And(t / 2 + m / 2, m / 2) == m / 2
  {
    assert (t + m) % 2 == 1;
  }

  lemma DownIsAnd(x: Word, p: Word)
    requires p > 0
    ensures AlignDown(x, p) == x - And(x, p - 1)
  {
    MaskIs(p);
    NoWrap(p - 1);
    Pow2Of32();
    AndNot(x, p - 1, 32);
  }

  lemma LowTwo(x: nat, v: nat, r: nat)
    requires r == x % 2 + 2 * ((x / 2) % 2 + 2 * v)
    ensures r % 4 == x % 4
  {}

  /** A mask whose low two bits are set keeps those of x. */
  lemma AndLowTwo(x: nat, b: nat, m: nat)
    requires m == 2 * (2 * b + 1) + 1
    ensures And(x, m) % 4 == x % 4
  {
    AndSplit(x, 2 * b + 1);
    AndSplit(x / 2, b);
    LowTwo(x, And(x / 2 / 2, b), And(x, m));
  }

  /* ---- Powers of two ---- */

  /** The lowest bit that is set. */
  function LowBit(a: nat): (b: nat)
    requires a > 0
    ensures 0 < b <= a
  {
    if a % 2 == 1 then 1 else 2 * LowBit(a / 2)
  }

  lemma AndDouble(l: nat, y: nat)
    ensures And(2 * l, 2 * y + 1) == 2 * And(l, y)
  {
    AndSplit(2 * l, y);
    assert (2 * l) / 2 == l && (2 * l) % 2 == 0;
  }

  lemma AndOneEven(y: nat)
    ensures And(1, 2 * y) == 0
  {
    AndSplit(1, y);
  }

  lemma {:induction false} AndLowBit(a: nat)
    requires a > 0
    ensures And(LowBit(a), a - 1) == 0
  {
    var h := a / 2;
    if a % 2 == 1 {
      AndOneEven(h);
      assert a - 1 == 2 * h;
    } else {
      AndLowBit(h);
      AndDouble(LowBit(h), h - 1);
      assert a - 1 == 2 * (h - 1) + 1;
    }
  }

  lemma {:induction false} LowBitOfPow2(k: nat)
    ensures LowBit(Pow2(k)) == Pow2(k)
  {
    if k > 0 {
      LowBitOfPow2(k - 1);
    }
  }

  lemma {:induction false} OnlyBit(a: nat) returns (k: nat)
    requires a > 0 && LowBit(a) == a
    ensures a == Pow2(k)
  {
    if a == 1 {
      k := 0;
    } else {
      var j := OnlyBit(a / 2);
      k := j + 1;
    }
  }
}
