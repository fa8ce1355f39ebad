/** rt_memset, rt_memcpy and rt_memmove of rt-thread/src/kservice.c on byte-addressed, little-endian memory.
    A word access is four bytes at an aligned address. */
module Memory {

  /* ---- Words and their bytes ---- */

  function ByteOf(w: bv32, k: nat): bv8
    requires k < 4
  {
    if k == 0 then (w & 0xFF) as bv8
    else if k == 1 then ((w >> 8) & 0xFF) as bv8
    else if k == 2 then ((w >> 16) & 0xFF) as bv8
    else ((w >> 24) & 0xFF) as bv8
  }

  function Assemble(b0: bv8, b1: bv8, b2: bv8, b3: bv8): bv32 {
    (b0 as bv32) | ((b1 as bv32) << 8) | ((b2 as bv32) << 16) | ((b3 as bv32) << 24)
  }

  lemma WordBytes(b0: bv8, b1: bv8, b2: bv8, b3: bv8)
    ensures var w := Assemble(b0, b1, b2, b3);
      ByteOf(w, 0) == b0 && ByteOf(w, 1) == b1 && ByteOf(w, 2) == b2 && ByteOf(w, 3) == b3
  {}

  /** The fill pattern that rt_memset builds: d << 8 | d, then doubled. */
  function Pattern(d: bv8): bv32 {
    var low := ((d as bv32) << 8) | (d as bv32);
    low | (low << 16)
  }

  lemma PatternBytes(d: bv8)
    ensures var w := Pattern(d); ByteOf(w, 0) == d && ByteOf(w, 1) == d && ByteOf(w, 2) == d && ByteOf(w, 3) == d
  {}

  method StoreWord(mem: array<bv8>, a: nat, w: bv32)
    requires a % 4 == 0 && a + 4 <= mem.Length
    modifies mem
    ensures forall j | 0 <= j < mem.Length :: mem[j] == if a <= j < a + 4 then ByteOf(w, j - a) else old(mem[j])
  {
    mem[a] := ByteOf(w, 0);
    mem[a + 1] := ByteOf(w, 1);
    mem[a + 2] := ByteOf(w, 2);
    mem[a + 3] := ByteOf(w, 3);
  }

  method LoadWord(mem: array<bv8>, a: nat) returns (w: bv32)
    requires a % 4 == 0 && a + 4 <= mem.Length
    ensures forall k | 0 <= k < 4 :: ByteOf(w, k) == mem[a + k]
  {
    w := Assemble(mem[a], mem[a + 1], mem[a + 2], mem[a + 3]);
    WordBytes(mem[a], mem[a + 1], mem[a + 2], mem[a + 3]);
  }

  /* ---- rt_memset ---- */

  /** Section 7.24.6.1 of ISO/IEC 9899:2011: `now` is `was` with the n bytes from s on set to d. */
  ghost predicate Filled(was: seq<bv8>, now: seq<bv8>, s: nat, n: nat, d: bv8) {
    |now| == |was| && forall j | 0 <= j < |was| :: now[j] == if s <= j < s + n then d else was[j]
  }

  method SetWord(mem: array<bv8>, a: nat, d: bv8, ghost was: seq<bv8>, ghost s: nat)
    requires a % 4 == 0 && a + 4 <= mem.Length && s <= a && Filled(was, mem[..], s, a - s, d)
    modifies mem
    ensures Filled(was, mem[..], s, a + 4 - s, d)
  {
    PatternBytes(d);
    StoreWord(mem, a, Pattern(d));
  }

  /** The word loops of rt_memset; returns where the bytes begin. */
  method SetWords(mem: array<bv8>, s: nat, d: bv8, n: nat) returns (m: nat, count: nat)
    requires s % 4 == 0 && s + n <= mem.Length
    modifies mem
    ensures s <= m && m + count == s + n && Filled(old(mem[..]), mem[..], s, m - s, d)
  {
    m, count := s, n;
    while count >= 16
      invariant s <= m && m % 4 == 0 && m + count == s + n && Filled(old(mem[..]), mem[..], s, m - s, d)
    {
      SetWord(mem, m, d, old(mem[..]), s);
      SetWord(mem, m + 4, d, old(mem[..]), s);
      SetWord(mem, m + 8, d, old(mem[..]), s);
      SetWord(mem, m + 12, d, old(mem[..]), s);
      m, count := m + 16, count - 16;
    }
    while count >= 4
      invariant s <= m && m % 4 == 0 && m + count == s + n && Filled(old(mem[..]), mem[..], s, m - s, d)
    {
      SetWord(mem, m, d, old(mem[..]), s);
      m, count := m + 4, count - 4;
    }
  }

  method Memset(mem: array<bv8>, s: nat, c: int, n: nat)
    requires s + n <= mem.Length
    modifies mem
    ensures Filled(old(mem[..]), mem[..], s, n, (c % 256) as bv8)
  {
    var d := (c % 256) as bv8;
    var m: nat, count: nat := s, n;
    if !(count < 4) && s % 4 == 0 {
      m, count := SetWords(mem, s, d, n);
    }
    while count > 0
      invariant s <= m && m + count == s + n && Filled(old(mem[..]), mem[..], s, m - s, d)
    {
      mem[m] := d;
      m, count := m + 1, count - 1;
    }
  }

  /* ---- rt_memcpy and rt_memmove ---- */

  /** Sections 7.24.2.1 and 7.24.2.2: `now` is `was` with n bytes copied from src to dst. */
  ghost predicate Copied(was: seq<bv8>, now: seq<bv8>, dst: nat, src: nat, n: nat) {
    && |now| == |was| && src + n <= |was|
    && forall j | 0 <= j < |was| :: now[j] == Moved(was, dst, src, n, j)
  }

  /** Byte j after the copy. */
  function Moved(was: seq<bv8>, dst: nat, src: nat, n: nat, j: nat): bv8
    requires src + n <= |was| && j < |was|
  {
    if dst <= j < dst + n then was[src + j - dst] else was[j]
  }

  /** The k-th byte that a copy upwards reads: if the destination overlaps the source from above, it is one
      that the copy wrote before. */
  function Source(was: seq<bv8>, dst: nat, src: nat, k: nat): bv8
    requires src + k < |was|
    decreases k
  {
    if src < dst && k >= dst - src then Source(was, dst, src, k - (dst - src)) else was[src + k]
  }

  function Upward(was: seq<bv8>, dst: nat, src: nat, n: nat, j: nat): bv8
    requires src + n <= |was| && j < |was|
  {
    if dst <= j < dst + n then Source(was, dst, src, j - dst) else was[j]
  }

  /** `now` is `was` after n bytes were copied one by one, upwards. */
  ghost predicate CopiedUp(was: seq<bv8>, now: seq<bv8>, dst: nat, src: nat, n: nat) {
    && |now| == |was| && src + n <= |was|
    && forall j | 0 <= j < |was| :: now[j] == Upward(was, dst, src, n, j)
  }

  /** Copying upwards never reads a byte that was already overwritten. */
  predicate Forward(dst: nat, src: nat, n: nat) { dst <= src || src + n <= dst }

  lemma ForwardCopies(was: seq<bv8>, now: seq<bv8>, dst: nat, src: nat, n: nat)
    requires CopiedUp(was, now, dst, src, n) && Forward(dst, src, n)
    ensures Copied(was, now, dst, src, n)
  {
    forall j | 0 <= j < |was|
      ensures now[j] == Moved(was, dst, src, n, j)
    {
      assert now[j] == Upward(was, dst, src, n, j);
    }
  }

  /** Copying upwards hands over the original bytes. */
  ghost predicate HandsOver(was: seq<bv8>, dst: nat, src: nat, n: nat)
    requires src + n <= |was|
  {
    forall k | 0 <= k < n :: Source(was, dst, src, k) == was[src + k]
  }

  /** It does so for all contents exactly if the destination does not overlap the source from above. */
  lemma ForwardExact(dst: nat, src: nat, n: nat, len: nat)
    requires src + n <= len && dst + n <= len
    ensures Forward(dst, src, n) <==> forall was: seq<bv8> | |was| == len :: HandsOver(was, dst, src, n)
  {
    if !Forward(dst, src, n) {
      var was: seq<bv8> := seq(len, i => if i == src then 1 else 0);
      var k := dst - src;
      assert Source(was, dst, src, 0) == was[src];
      assert Source(was, dst, src, k) == 1 && was[src + k] == 0;
      assert !HandsOver(was, dst, src, n);
    }
  }

  /** With k bytes done, byte x is read as `Source` says, if it lies less than the distance ahead. */
  lemma ReadsSource(was: seq<bv8>, now: seq<bv8>, dst: nat, src: nat, k: nat, x: nat)
    requires CopiedUp(was, now, dst, src, k) && k <= x && src + x < |was| && (src < dst ==> x < k + (dst - src))
    ensures now[src + x] == Source(was, dst, src, x)
  {
    assert now[src + x] == Upward(was, dst, src, k, src + x);
  }

  ghost predicate WordIs(w: bv32, was: seq<bv8>, dst: nat, src: nat, k: nat) {
    src + k + 4 <= |was| && forall i | 0 <= i < 4 :: ByteOf(w, i) == Source(was, dst, src, k + i)
  }

  lemma WordRead(was: seq<bv8>, now: seq<bv8>, dst: nat, src: nat, k: nat, w: bv32)
    requires CopiedUp(was, now, dst, src, k) && src + k + 4 <= |was| && (src < dst ==> dst - src >= 4)
    requires forall i | 0 <= i < 4 :: ByteOf(w, i) == now[src + k + i]
    ensures WordIs(w, was, dst, src, k)
  {
    forall i | 0 <= i < 4
      ensures ByteOf(w, i) == Source(was, dst, src, k + i)
    {
      ReadsSource(was, now, dst, src, k, k + i);
    }
  }

  lemma WordWritten(was: seq<bv8>, now: seq<bv8>, next: seq<bv8>, dst: nat, src: nat, k: nat, w: bv32)
    requires CopiedUp(was, now, dst, src, k) && WordIs(w, was, dst, src, k) && |next| == |now|
    requires forall j | 0 <= j < |now| ::
      next[j] == if dst + k <= j < dst + k + 4 then ByteOf(w, j - (dst + k)) else now[j]
    ensures CopiedUp(was, next, dst, src, k + 4)
  {
    forall j | 0 <= j < |was|
      ensures next[j] == Upward(was, dst, src, k + 4, j)
    {
      assert now[j] == Upward(was, dst, src, k, j);
    }
  }

  lemma WordsApart(dst: nat, src: nat, k: nat)
    requires dst % 4 == src % 4 == k % 4 == 0
    ensures (dst + k) % 4 == (src + k) % 4 == 0 && (src < dst ==> dst - src >= 4)
  {}

  method CopyWord(mem: array<bv8>, dst: nat, src: nat, k: nat, n: nat, ghost was: seq<bv8>)
    requires dst % 4 == src % 4 == k % 4 == 0 && k + 4 <= n
    requires src + n <= mem.Length && dst + n <= mem.Length && CopiedUp(was, mem[..], dst, src, k)
    modifies mem
    ensures CopiedUp(was, mem[..], dst, src, k + 4)
  {
    ghost var now := mem[..];
    WordsApart(dst, src, k);
    var w := LoadWord(mem, src + k);
    WordRead(was, now, dst, src, k, w);
    StoreWord(mem, dst + k, w);
    WordWritten(was, now, mem[..], dst, src, k, w);
  }

  method CopyFour(mem: array<bv8>, dst: nat, src: nat, k: nat, n: nat, ghost was: seq<bv8>)
    requires dst % 4 == src % 4 == k % 4 == 0 && k + 16 <= n
    requires src + n <= mem.Length && dst + n <= mem.Length && CopiedUp(was, mem[..], dst, src, k)
    modifies mem
    ensures CopiedUp(was, mem[..], dst, src, k + 16)
  {
    CopyWord(mem, dst, src, k, n, was);
    CopyWord(mem, dst, src, k + 4, n, was);
    CopyWord(mem, dst, src, k + 8, n, was);
    CopyWord(mem, dst, src, k + 12, n, was);
  }

  /** The word loops of rt_memcpy; returns how many bytes are done. */
  method CopyWords(mem: array<bv8>, dst: nat, src: nat, n: nat) returns (k: nat)
    requires dst % 4 == src % 4 == 0 && src + n <= mem.Length && dst + n <= mem.Length
    modifies mem
    ensures k <= n && CopiedUp(old(mem[..]), mem[..], dst, src, k)
  {
    ghost var was := mem[..];
    k := 0;
    while n - k >= 16
      invariant k <= n && k % 4 == 0 && CopiedUp(was, mem[..], dst, src, k)
    {
      CopyFour(mem, dst, src, k, n, was);
      k := k + 16;
    }
    while n - k >= 4
      invariant k <= n && k % 4 == 0 && CopiedUp(was, mem[..], dst, src, k)
    {
      CopyWord(mem, dst, src, k, n, was);
      k := k + 4;
    }
  }

  /** rt_memcpy. Every overlap is allowed: the word loops do what the byte loop would do, which is a copy
      unless the destination overlaps the source from above. */
  method Memcpy(mem: array<bv8>, dst: nat, src: nat, n: nat)
    requires src + n <= mem.Length && dst + n <= mem.Length
    modifies mem
    ensures CopiedUp(old(mem[..]), mem[..], dst, src, n)
    ensures Forward(dst, src, n) ==> Copied(old(mem[..]), mem[..], dst, src, n)
  {
    ghost var was := mem[..];
    var k: nat := 0;
    if !(n < 16) && src % 4 == 0 && dst % 4 == 0 {
      k := CopyWords(mem, dst, src, n);
    }
    while k < n
      invariant k <= n && CopiedUp(was, mem[..], dst, src, k)
    {
      ReadsSource(was, mem[..], dst, src, k, k);
      mem[dst + k] := mem[src + k];
      k := k + 1;
    }
    if Forward(dst, src, n) {
      ForwardCopies(was, mem[..], dst, src, n);
    }
  }

  /** Every overlap is allowed. */
  method Memmove(mem: array<bv8>, dst: nat, src: nat, n: nat)
    requires src + n <= mem.Length && dst + n <= mem.Length
    modifies mem
    ensures Copied(old(mem[..]), mem[..], dst, src, n)
  {
    if src < dst && dst < src + n {
      var k: nat := n;
      while k > 0
        invariant 0 <= k <= n
        invariant forall j | 0 <= j < mem.Length ::
          mem[j] == if dst + k <= j < dst + n then old(mem[src + j - dst]) else old(mem[j])
      {
        k := k - 1;
        mem[dst + k] := mem[src + k];
      }
    } else {
      var k: nat := 0;
      while k < n
        invariant 0 <= k <= n && Copied(old(mem[..]), mem[..], dst, src, k)
      {
        mem[dst + k] := mem[src + k];
        k := k + 1;
      }
    }
  }
}
