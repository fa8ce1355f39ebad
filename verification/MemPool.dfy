/** rt-thread/src/mempool.c: a pool of equal blocks with an intrusive free list and blocking
    allocation. Every section between rt_hw_interrupt_disable and rt_hw_interrupt_enable is one step. */
module PoolModel {
  import opened Common
  import opened WaitList

  /** `free` lists the free blocks from block_list on, `waiting` the sleeping threads from the list
      head on, and `woken` the threads that rt_mp_free resumed and that have not run again yet. */
  datatype Pool = Pool(total: nat, free: seq<nat>, held: set<nat>, waiting: seq<nat>, woken: set<nat>)

  datatype Outcome = Got(block: nat) | Refused | Asleep

  datatype Event =
    | Call(t: nat, patient: bool)    // rt_mp_alloc enters its critical section
    | Resume(t: nat, patient: bool)  // a woken thread re-checks the free count
    | Timeout(k: nat)                // the timer of the k-th sleeping thread fires
    | Release(b: nat)                // rt_mp_free
    | Evict                          // one round of the loop of rt_mp_detach

  /** One pass through the critical section of rt_mp_alloc; `patient` is time != 0. */
  function Enter(s: Pool, t: nat, patient: bool): (Pool, Outcome) {
    if s.free != [] then (s.(free := s.free[1..], held := s.held + {s.free[0]}), Got(s.free[0]))
    else if patient then (s.(waiting := [t] + s.waiting), Asleep)
    else (s, Refused)
  }

  /** rt_mp_free: link the block in and resume the thread at the head of the list, if any. */
  function GiveBack(s: Pool, b: nat): Pool {
    var s1 := s.(free := [b] + s.free, held := s.held - {b});
    if s.waiting == [] then s1 else s1.(waiting := s.waiting[1..], woken := s.woken + {s.waiting[0]})
  }

  predicate Legal(s: Pool, e: Event) {
    match e
    case Call(t, _) => t > 0 && t !in s.waiting && t !in s.woken
    case Resume(t, _) => t in s.woken
    case Timeout(k) => k < |s.waiting|
    case Release(b) => b in s.held
    case Evict => s.waiting != []
  }

  function Step(s: Pool, e: Event): Pool {
    match e
    case Call(t, patient) => Enter(s, t, patient).0
    case Resume(t, patient) => Enter(s.(woken := s.woken - {t}), t, patient).0
    case Timeout(k) => if k < |s.waiting| then s.(waiting := Without(s.waiting, k)) else s
    case Release(b) => GiveBack(s, b)
    case Evict => if s.waiting == [] then s else s.(waiting := s.waiting[1..])
  }

  /** Blocks are conserved: each is either on the free list, once, or held. */
  ghost predicate Conserved(s: Pool) {
    && Distinct(s.free)
    && (forall b: nat :: b in s.free || b in s.held <==> b < s.total)
    && (forall b | b in s.free :: b !in s.held)
  }

  /** No wake-up is lost: while somebody sleeps, every free block has a woken thread coming for it. */
  ghost predicate NoLostWakeup(s: Pool) {
    s.waiting != [] ==> |s.free| <= |s.woken|
  }

  ghost predicate Inv(s: Pool) {
    && Conserved(s) && NoLostWakeup(s)
    && Distinct(s.waiting) && (forall t | t in s.waiting :: t > 0 && t !in s.woken) && 0 !in s.woken
  }

  function Init(total: nat): Pool {
    Pool(total, seq(total, i => i), {}, [], {})
  }

  /** Thread `t` is running; at most the block it was woken for has no other thread coming for it. */
  ghost predicate Enterable(s: Pool, t: nat) {
    && Conserved(s) && Distinct(s.waiting) && (forall x | x in s.waiting :: x > 0 && x !in s.woken) && 0 !in s.woken
    && (s.waiting != [] ==> |s.free| <= |s.woken| + 1)
    && t > 0 && t !in s.waiting && t !in s.woken
  }

  lemma EnterInv(s: Pool, t: nat, patient: bool)
    requires Enterable(s, t)
    ensures Inv(Enter(s, t, patient).0)
    ensures var (s1, r) := Enter(s, t, patient);
      r.Got? ==> r.block in s.free && r.block !in s.held && s1.held == s.held + {r.block} && |s1.free| == |s.free| - 1
  {
    var (s1, r) := Enter(s, t, patient);
    if s.free != [] {
      assert forall b :: b in s.free <==> b == s.free[0] || b in s1.free;
      assert s.free[0] !in s1.free;
    } else if patient {
      assert s1.waiting == [t] + s.waiting;
    }
  }

  /** What an entry to the critical section answers, and all that it changes. */
  ghost predicate Entered(s: Pool, t: nat, patient: bool, s1: Pool, r: Outcome) {
    && s1.total == s.total && s1.woken == s.woken
    && (r.Got? <==> s.free != [])
    && (r.Refused? <==> s.free == [] && !patient)
    && (r.Asleep? <==> s.free == [] && patient)
    && (r.Got? ==> [r.block] + s1.free == s.free && s1.held == s.held + {r.block} && s1.waiting == s.waiting)
    && (r.Refused? ==> s1 == s)
    && (r.Asleep? ==> s1.free == s.free && s1.held == s.held && s1.waiting == [t] + s.waiting)
  }

  lemma EnterExact(s: Pool, t: nat, patient: bool)
    ensures Entered(s, t, patient, Enter(s, t, patient).0, Enter(s, t, patient).1)
  {}

  /** What giving block b back changes: it is free, and exactly the thread at the head of the list is woken. */
  ghost predicate Returned(s: Pool, b: nat, s1: Pool) {
    && s1.total == s.total && s1.free == [b] + s.free && s1.held == s.held - {b}
    && (s.waiting == [] ==> s1.waiting == [] && s1.woken == s.woken)
    && (s.waiting != [] ==> s1.waiting == s.waiting[1..] && s1.woken == s.woken + {s.waiting[0]})
  }

  lemma GiveBackExact(s: Pool, b: nat)
    ensures Returned(s, b, GiveBack(s, b))
  {}

  lemma GiveBackInv(s: Pool, b: nat)
    requires Inv(s) && b in s.held
    ensures Inv(GiveBack(s, b))
  {
    var s1 := GiveBack(s, b);
    assert forall x :: x in s1.free <==> x == b || x in s.free;
    assert s1.free[1..] == s.free;
    if s.waiting != [] {
      var t := s.waiting[0];
      assert t !in s.woken && |s.woken + {t}| == |s.woken| + 1;
      assert forall x :: x in s.waiting <==> x == t || x in s1.waiting;
      assert t !in s1.waiting;
    }
  }

  /** Every critical section, timeout and eviction keeps the invariant. */
  lemma StepInv(s: Pool, e: Event)
    requires Inv(s) && Legal(s, e)
    ensures Inv(Step(s, e)) && Step(s, e).total == s.total
  {
    match e
    case Call(t, patient) => EnterInv(s, t, patient);
    case Resume(t, patient) =>
      assert |s.woken - {t}| == |s.woken| - 1;
      EnterInv(s.(woken := s.woken - {t}), t, patient);
    case Timeout(k) =>
      assert forall x :: x in Without(s.waiting, k) ==> x in s.waiting;
    case Release(b) => GiveBackInv(s, b);
    case Evict =>
      assert forall x :: x in s.waiting[1..] ==> x in s.waiting;
  }

  ghost predicate Reaches(s: Pool, es: seq<Event>, s': Pool)
    decreases |es|
  {
    if es == [] then s == s' else Legal(s, es[0]) && Reaches(Step(s, es[0]), es[1..], s')
  }

  /** Over every interleaving. */
  lemma {:induction false} RunInv(s: Pool, es: seq<Event>, s': Pool)
    requires Inv(s) && Reaches(s, es, s')
    ensures Inv(s') && s'.total == s.total
    decreases |es|
  {
    if es != [] {
      StepInv(s, es[0]);
      RunInv(Step(s, es[0]), es[1..], s');
    }
  }

  /* ---- rt_mp_detach tests the wait list before it disables interrupts ---- */

  /** How many events of a run can take a thread off the wait list. */
  function Departures(es: seq<Event>): nat {
    if es == [] then 0
    else (if es[0].Timeout? || es[0].Release? || es[0].Evict? then 1 else 0) + Departures(es[1..])
  }

  lemma {:induction false} SomeStay(s: Pool, es: seq<Event>, s': Pool)
    requires Reaches(s, es, s')
    ensures |s'.waiting| + Departures(es) >= |s.waiting|
    decreases |es|
  {
    if es != [] {
      SomeStay(Step(s, es[0]), es[1..], s');
    }
  }

  function Timeouts(n: nat): seq<Event> { if n == 0 then [] else [Timeout(0)] + Timeouts(n - 1) }

  lemma {:induction false} AllLeave(s: Pool, n: nat)
    requires n <= |s.waiting|
    ensures Reaches(s, Timeouts(n), s.(waiting := s.waiting[n..])) && Departures(Timeouts(n)) == n
    decreases n
  {
    if n == 0 {
      assert s.waiting[0..] == s.waiting;
    } else {
      var s1 := Step(s, Timeout(0));
      assert s1.waiting == s.waiting[1..];
      AllLeave(s1, n - 1);
      assert s1.waiting[n - 1..] == s.waiting[n..];
      assert Timeouts(n)[1..] == Timeouts(n - 1);
    }
  }

  /** A run of at most n departures leaves somebody to wake. */
  ghost predicate WakesSafely(s: Pool, es: seq<Event>, s': Pool, n: nat) {
    Reaches(s, es, s') && Departures(es) <= n ==> Legal(s', Evict)
  }

  /** Between the test and the section of rt_mp_detach threads may leave the list. The section finds a thread
      to resume after every run of at most n departures exactly if more than n were waiting at the test. */
  lemma DetachExact(s: Pool, n: nat)
    ensures (forall es, s' :: WakesSafely(s, es, s', n)) <==> n < |s.waiting|
  {
    if n < |s.waiting| {
      forall es, s'
        ensures WakesSafely(s, es, s', n)
      {
        if Reaches(s, es, s') {
          SomeStay(s, es, s');
        }
      }
    } else {
      var k := |s.waiting|;
      AllLeave(s, k);
      assert !WakesSafely(s, Timeouts(k), s.(waiting := s.waiting[k..]), n);
    }
  }

  lemma InitInv(total: nat)
    ensures Inv(Init(total))
  {
    var s := Init(total);
    forall b: nat ensures b in s.free <==> b < total {
      if b < total { assert s.free[b] == b; }
    }
  }

  lemma {:induction false} CountDistinct(s: seq<nat>, xs: set<nat>)
    requires Distinct(s) && forall x :: x in s <==> x in xs
    ensures |s| == |xs|
  {
    if s != [] {
      assert forall x :: x in s <==> x == s[0] || x in s[1..];
      assert forall x :: x in s[1..] <==> x in xs - {s[0]};
      CountDistinct(s[1..], xs - {s[0]});
    }
  }

  ghost function Below(n: nat): (s: set<nat>)
    ensures |s| == n && forall b: nat :: b in s <==> b < n
  {
    if n == 0 then {} else Below(n - 1) + {n - 1}
  }

  /** Free plus held blocks always make up the pool; and once every woken thread has run again,
      nobody sleeps next to a free block. */
  lemma Accounting(s: Pool)
    requires Inv(s)
    ensures |s.free| + |s.held| == s.total
    ensures s.woken == {} && s.waiting != [] ==> s.free == []
  {
    var fs := set b | b in s.free;
    CountDistinct(s.free, fs);
    assert Below(s.total) == fs + s.held && fs !! s.held;
  }
}

module MemPool {
  import opened Common
  import opened PoolModel
  import opened WaitList

  /** The word in front of every block: link to the next free block, or the owning pool. */
  datatype Link = Nil | At(block: nat) | Owner

  ghost function LinkTo(free: seq<nat>, i: nat): Link { if i < |free| then At(free[i]) else Nil }

  ghost predicate Hop(link: seq<Link>, free: seq<nat>, i: int)
    requires 0 <= i < |free|
  {
    free[i] < |link| && link[free[i]] == LinkTo(free, i + 1)
  }

  /** Following the links from `head` runs through exactly `free` and ends. */
  ghost predicate Chained(link: seq<Link>, head: Link, free: seq<nat>) {
    head == LinkTo(free, 0) && forall i | 0 <= i < |free| :: Hop(link, free, i)
  }

  lemma PopChain(link: seq<Link>, head: Link, free: seq<nat>)
    requires Chained(link, head, free) && free != [] && Distinct(free)
    ensures head == At(free[0]) && free[0] < |link|
    ensures Chained(link[free[0] := Owner], link[free[0]], free[1..])
  {
    assert Hop(link, free, 0);
    var l, f := link[free[0] := Owner], free[1..];
    forall i | 0 <= i < |f| ensures Hop(l, f, i) { assert Hop(link, free, i + 1); }
  }

  lemma PushChain(link: seq<Link>, head: Link, free: seq<nat>, b: nat)
    requires Chained(link, head, free) && b < |link| && b !in free
    ensures Chained(link[b := head], At(b), [b] + free)
  {
    var l, f := link[b := head], [b] + free;
    forall i | 0 <= i < |f| ensures Hop(l, f, i) {
      if i > 0 { assert Hop(link, free, i - 1); }
    }
  }

  /** Bytes from one block header to the next, in 32-bit arithmetic: the rounded block size and one pointer. */
  function Stride(blockSize: Word): Word { ((blockSize + 3) % TWO32 / 4 * 4 + 4) % TWO32 }

  /** A block has its bytes and its header exactly if nothing wraps; just above, the stride is 0 and
      rt_mp_init divides by it. */
  lemma StrideExact(blockSize: Word)
    ensures Stride(blockSize) >= blockSize + 4 <==> blockSize <= TWO32 - 8
    ensures Stride(blockSize) == 0 <==> TWO32 - 8 < blockSize <= TWO32 - 4
  {
    if blockSize <= TWO32 - 4 {
      assert (blockSize + 3) % TWO32 == blockSize + 3;
    } else {
      assert (blockSize + 3) % TWO32 == blockSize + 3 - TWO32;
    }
  }

  /** block_total_count as rt_mp_init computes it. */
  function BlockCount(size: Word, blockSize: Word): nat
    requires Stride(blockSize) != 0
  {
    Quot(size - size % 4, Stride(blockSize))
  }

  function Quot(n: nat, d: nat): nat
    requires d > 0
  {
    n / d
  }

  predicate HoldsBlock(size: Word, blockSize: Word, i: nat) { (i + 1) * Stride(blockSize) <= size - size % 4 }

  lemma MulMono(a: nat, b: nat, s: nat)
    requires a <= b
    ensures a * s <= b * s
  {}

  lemma Quotient(n: nat, s: nat, i: nat)
    requires s > 0
    ensures i < n / s <==> (i + 1) * s <= n
  {
    var q := n / s;
    assert n == q * s + n % s;
    if i < q { MulMono(i + 1, q, s); } else { MulMono(q + 1, i + 1, s); }
  }

  /** Block i, header included, lies inside the pool memory, and one more block would not. */
  lemma BlocksFit(size: Word, blockSize: Word, i: nat)
    requires Stride(blockSize) != 0
    ensures i < BlockCount(size, blockSize) <==> HoldsBlock(size, blockSize, i)
  {
    Quotient(size - size % 4, Stride(blockSize), i);
  }

  lemma AllFit(size: Word, blockSize: Word)
    requires Stride(blockSize) != 0
    ensures forall i: nat :: i < BlockCount(size, blockSize) <==> HoldsBlock(size, blockSize, i)
  {
    forall i: nat
      ensures i < BlockCount(size, blockSize) <==> HoldsBlock(size, blockSize, i)
    {
      BlocksFit(size, blockSize, i);
    }
  }

  /** The loop of rt_mp_init: every block points to the next, the last to none. */
  method LinkBlocks(link: array<Link>)
    requires link.Length >= 1
    modifies link
    ensures InOrder(link[..])
  {
    for i := 0 to link.Length
      invariant forall j | 0 <= j < i :: link[j] == At(j + 1)
    {
      link[i] := At(i + 1);
    }
    link[link.Length - 1] := Nil;
  }

  ghost predicate InOrder(link: seq<Link>) {
    forall j | 0 <= j < |link| :: link[j] == if j < |link| - 1 then At(j + 1) else Nil
  }

  lemma LinkedChain(link: seq<Link>, free: seq<nat>)
    requires InOrder(link) && |link| >= 1 && free == PoolModel.Init(|link|).free
    ensures Chained(link, At(0), free)
  {
    forall i | 0 <= i < |free|
      ensures Hop(link, free, i)
    {
      assert free[i] == i;
    }
  }

  class MemPool {
    const link: array<Link>
    const wait: WaitList
    var blockList: Link
    var freeCount: nat
    ghost var woken: set<nat>
    ghost var free: seq<nat>
    ghost var held: set<nat>

    ghost function View(): Pool
      reads this, wait
    {
      Pool(link.Length, free, held, wait.nodes, woken)
    }

    /** The memory encodes the free list and the wait list. */
    ghost predicate Encoded()
      reads this, link, wait, wait.next, wait.prev
    {
      && wait.Valid()
      && Chained(link[..], blockList, free) && freeCount == |free|
      && (forall b | b in held :: b < link.Length && link[b] == Owner)
    }

    ghost predicate Valid()
      reads this, link, wait, wait.next, wait.prev
    {
      Encoded() && Inv(View())
    }

    /** rt_mp_init over `size` bytes of arbitrary contents that hold at least one block: all blocks that fit
        are free, in order. */
    constructor (size: Word, blockSize: Word, threads: nat)
      requires Stride(blockSize) != 0 && BlockCount(size, blockSize) >= 1
      ensures Valid() && View() == PoolModel.Init(BlockCount(size, blockSize)) && wait.next.Length == threads + 1
      ensures forall i: nat :: i < link.Length <==> HoldsBlock(size, blockSize, i)
      ensures fresh(link) && fresh(wait) && fresh(wait.next) && fresh(wait.prev)
    {
      var total := BlockCount(size, blockSize);
      AllFit(size, blockSize);
      InitInv(total);
      link := new Link[total];
      wait := new WaitList(threads);
      freeCount, woken := total, {};
      free, held := PoolModel.Init(total).free, {};
      blockList := At(0);
      new;
      LinkBlocks(link);
      LinkedChain(link[..], free);
    }

    /** Unlink the first free block and stamp it with the owning pool. */
    method Pop() returns (b: nat)
      requires Encoded() && free != [] && Distinct(free)
      modifies this`blockList, this`freeCount, this`free, this`held, link
      ensures Encoded() && b == old(free)[0] && free == old(free)[1..] && held == old(held) + {b}
    {
      PopChain(link[..], blockList, free);
      freeCount := freeCount - 1;
      b := blockList.block;
      blockList := link[b];
      link[b] := Owner;
      held := held + {b};
      free := free[1..];
    }

    /** The critical section of rt_mp_alloc run by thread `t`: take a block, give up, or go to sleep. */
    method Section(t: nat, patient: bool) returns (r: Outcome)
      requires Encoded() && Enterable(View(), t) && t < wait.next.Length
      modifies this, link, wait, wait.next, wait.prev
      ensures Valid() && (View(), r) == Enter(old(View()), t, patient)
      ensures Entered(old(View()), t, patient, View(), r)
    {
      EnterInv(View(), t, patient);
      EnterExact(View(), t, patient);
      if freeCount == 0 {
        if !patient {
          r := Refused;
        } else {
          wait.InsertAfterHead(t);
          r := Asleep;
        }
      } else {
        var b := Pop();
        r := Got(b);
      }
    }

    /** rt_mp_alloc, first check. */
    method Alloc(t: nat, patient: bool) returns (r: Outcome)
      requires Valid() && Legal(View(), Call(t, patient)) && t < wait.next.Length
      modifies this, link, wait, wait.next, wait.prev
      ensures Valid() && View() == Step(old(View()), Call(t, patient))
      ensures Entered(old(View()), t, patient, View(), r)
      ensures r.Got? ==> r.block in old(free) && r.block !in old(held)
    {
      EnterInv(View(), t, patient);
      r := Section(t, patient);
    }

    /** rt_mp_alloc after rt_schedule returned to a thread that rt_mp_free resumed. */
    method Retry(t: nat, patient: bool) returns (r: Outcome)
      requires Valid() && Legal(View(), Resume(t, patient)) && t < wait.next.Length
      modifies this, link, wait, wait.next, wait.prev
      ensures Valid() && View() == Step(old(View()), Resume(t, patient))
      ensures Entered(old(View()).(woken := old(woken) - {t}), t, patient, View(), r)
      ensures r.Got? ==> r.block in old(free) && r.block !in old(held)
    {
      assert |woken - {t}| == |woken| - 1;
      woken := woken - {t};
      EnterInv(View(), t, patient);
      r := Section(t, patient);
    }

    /** The timer of sleeper `t`, the k-th, fires: it leaves the list and returns without a block. */
    method Expire(t: nat, ghost k: nat)
      requires Valid() && Legal(View(), Timeout(k)) && t == wait.nodes[k]
      modifies this, wait, wait.next, wait.prev
      ensures Valid() && View() == Step(old(View()), Timeout(k))
      ensures wait.nodes == old(wait.nodes)[..k] + old(wait.nodes)[k + 1..] && free == old(free) && held == old(held)
    {
      StepInv(View(), Timeout(k));
      wait.Remove(t, k);
    }

    /** The test of the loop of rt_mp_detach, made with interrupts enabled. */
    method DetachTest() returns (more: bool)
      requires Valid()
      ensures more <==> Legal(View(), Evict)
    {
      var empty := wait.IsEmpty();
      more := !empty;
    }

    /** The section of that loop: it takes the head of the list for a thread, so there must be one. */
    method DetachWake()
      requires Valid() && Legal(View(), Evict)
      modifies wait, wait.next, wait.prev
      ensures Valid() && View() == Step(old(View()), Evict)
      ensures wait.nodes == old(wait.nodes)[1..] && free == old(free) && held == old(held) && woken == old(woken)
    {
      StepInv(View(), Evict);
      var t := wait.First();
      wait.Remove(t, 0);
      assert Without(old(wait.nodes), 0) == old(wait.nodes)[1..];
    }

    /** rt_mp_free of a block. */
    method FreeBlock(b: nat)
      requires Valid() && b in held
      modifies this, link, wait, wait.next, wait.prev
      ensures Valid() && View() == GiveBack(old(View()), b) && Returned(old(View()), b, View())
    {
      GiveBackExact(View(), b);
      GiveBackInv(View(), b);
      assert link[b] == Owner;
      PushChain(link[..], blockList, free, b);
      freeCount := freeCount + 1;
      link[b] := blockList;
      blockList := At(b);
      free := [b] + free;
      held := held - {b};
      Wake();
    }

    /** Resume the first sleeper, if there is one. */
    method Wake()
      requires wait.Valid()
      modifies this`woken, wait, wait.next, wait.prev
      ensures wait.Valid()
      ensures wait.nodes == if old(wait.nodes) == [] then [] else old(wait.nodes)[1..]
      ensures woken == if old(wait.nodes) == [] then old(woken) else old(woken) + {old(wait.nodes)[0]}
    {
      var empty := wait.IsEmpty();
      if !empty {
        var t := wait.First();
        wait.Remove(t, 0);
        assert Without(old(wait.nodes), 0) == old(wait.nodes)[1..];
        woken := woken + {t};
      }
    }

    /** rt_mp_free, which ignores a null pointer. */
    method Free(b: Option<nat>)
      requires Valid() && (b.Some? ==> b.value in held)
      modifies this, link, wait, wait.next, wait.prev
      ensures Valid() && View() == if b.Some? then GiveBack(old(View()), b.value) else old(View())
      ensures b.Some? ==> Returned(old(View()), b.value, View())
    {
      if b.Some? {
        FreeBlock(b.value);
      }
    }
  }
}
