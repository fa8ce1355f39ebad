/** When a function has a worst case at all: the exact condition, which is narrower than the "unbounded" that
    rt-thread/tools/WCS.py reports. */
module StackCycles {
  import opened Common
  import opened CallGraph

  lemma {:induction false} StackAdd(g: Graph, a: seq<Fn>, b: seq<Fn>)
    requires (forall i | 0 <= i < |a| :: Known(g, a[i])) && forall i | 0 <= i < |b| :: Known(g, b[i])
    ensures forall i | 0 <= i < |a + b| :: Known(g, (a + b)[i])
    ensures Stack(g, a + b) == Stack(g, a) + Stack(g, b)
  {
    if a == [] {
      assert a + b == b;
    } else {
      StackAdd(g, a[1..], b);
      assert (a + b)[1..] == a[1..] + b;
    }
  }

  lemma Join(g: Graph, a: seq<Fn>, b: seq<Fn>)
    requires Chain(g, a) && Chain(g, b) && Calls(g, Last(a), b[0])
    ensures ChainFrom(g, a[0], a + b) && Last(a + b) == Last(b) && Stack(g, a + b) == Stack(g, a) + Stack(g, b)
  {
    var q := a + b;
    forall i | 0 <= i < |q| - 1
      ensures Edge(g, q, i)
    {
      if i < |a| - 1 {
        assert Edge(g, a, i);
      } else if i >= |a| {
        assert Edge(g, b, i - |a|);
      }
    }
    StackAdd(g, a, b);
  }

  /** The chain p closes a cycle from its i-th function on, and the j-th one, on that cycle, uses stack. */
  ghost predicate HeavyAt(g: Graph, f: Fn, p: seq<Fn>, i: nat, j: nat) {
    ChainFrom(g, f, p) && i < j < |p| && p[i] == Last(p) && InfoOf(g, p[j]).localStack > 0
  }

  /** `f` can reach a call cycle that uses stack. */
  ghost predicate Heavy(g: Graph, f: Fn) { exists p, i: nat, j: nat :: HeavyAt(g, f, p, i, j) }

  lemma {:induction false} StackAt(g: Graph, p: seq<Fn>, j: nat)
    requires (forall i | 0 <= i < |p| :: Known(g, p[i])) && j < |p|
    ensures InfoOf(g, p[j]).localStack <= Stack(g, p)
  {
    if j > 0 {
      StackAt(g, p[1..], j - 1);
    }
  }

  /** Walking the cycle again and again exceeds every stack size. */
  lemma {:induction false} Pumped(g: Graph, f: Fn, p: seq<Fn>, i: nat, j: nat, n: nat) returns (q: seq<Fn>)
    requires HeavyAt(g, f, p, i, j)
    ensures ChainFrom(g, f, q) && Last(q) == Last(p) && Stack(g, q) >= n
    decreases n
  {
    if n == 0 {
      q := p;
    } else {
      var r := Pumped(g, f, p, i, j, n - 1);
      var cycle := p[i + 1..|p|];
      Slice(g, p, i + 1, |p|);
      assert Edge(g, p, i);
      StackAt(g, cycle, j - i - 1);
      Join(g, r, cycle);
      q := r + cycle;
    }
  }

  lemma JoinOver(g: Graph, f: Fn, p: seq<Fn>, i: nat, j: nat, head: seq<Fn>, rest: seq<Fn>)
    requires ChainFrom(g, f, p) && i < j < |p| - 1 && p[i] == p[j] && head == p[0..i + 1] && rest == p[j + 1..|p|]
    ensures ChainFrom(g, f, head + rest) && Stack(g, head + rest) == Stack(g, head) + Stack(g, rest)
  {
    Slice(g, p, 0, i + 1);
    Slice(g, p, j + 1, |p|);
    assert Edge(g, p, j);
    Join(g, head, rest);
  }

  /** The i-th and the j-th function of a chain are the same: the part between can be cut out. */
  lemma CutChain(g: Graph, f: Fn, p: seq<Fn>, i: nat, j: nat) returns (q: seq<Fn>)
    requires ChainFrom(g, f, p) && i < j < |p| && p[i] == p[j]
    ensures ChainFrom(g, f, q) && |q| < |p| && Stack(g, q) + Stack(g, p[i + 1..j + 1]) == Stack(g, p)
  {
    var head, rest := p[0..i + 1], p[j + 1..|p|];
    StackThree(g, p, i + 1, j + 1);
    if rest == [] {
      Slice(g, p, 0, i + 1);
      q := head;
    } else {
      JoinOver(g, f, p, i, j, head, rest);
      q := head + rest;
    }
  }

  lemma StackThree(g: Graph, p: seq<Fn>, a: nat, b: nat)
    requires (forall i | 0 <= i < |p| :: Known(g, p[i])) && a <= b <= |p|
    ensures Stack(g, p) == Stack(g, p[0..a]) + Stack(g, p[a..b]) + Stack(g, p[b..|p|])
  {
    assert p == p[0..a] + p[a..b] + p[b..|p|];
    StackAdd(g, p[0..a], p[a..b]);
    StackAdd(g, p[0..a] + p[a..b], p[b..|p|]);
  }

  lemma {:induction false} NoStack(g: Graph, p: seq<Fn>)
    requires forall i | 0 <= i < |p| :: Known(g, p[i])
    requires forall i | 0 <= i < |p| :: InfoOf(g, p[i]).localStack == 0
    ensures Stack(g, p) == 0
  {
    if p != [] {
      NoStack(g, p[1..]);
    }
  }

  lemma LightCycle(g: Graph, f: Fn, p: seq<Fn>, i: nat, j: nat)
    requires !Heavy(g, f) && ChainFrom(g, f, p) && i < j < |p| && p[i] == p[j]
    ensures Stack(g, p[i + 1..j + 1]) == 0
  {
    var q := p[0..j + 1];
    Slice(g, p, 0, j + 1);
    forall k | i < k <= j
      ensures InfoOf(g, p[k]).localStack == 0
    {
      assert !HeavyAt(g, f, q, i, k);
    }
    NoStack(g, p[i + 1..j + 1]);
  }

  /** Without a heavy cycle every chain has one of the same stack that repeats no function. */
  lemma {:induction false} Simplified(g: Graph, f: Fn, p: seq<Fn>) returns (q: seq<Fn>)
    requires !Heavy(g, f) && ChainFrom(g, f, p)
    ensures ChainFrom(g, f, q) && Distinct(q) && Stack(g, q) == Stack(g, p)
    decreases |p|
  {
    if Distinct(p) {
      q := p;
    } else {
      var i, j :| 0 <= i < j < |p| && p[i] == p[j];
      LightCycle(g, f, p, i, j);
      var r := CutChain(g, f, p, i, j);
      q := Simplified(g, f, r);
    }
  }

  lemma {:induction false} LocalBound(g: Graph, s: set<Fn>) returns (m: nat)
    requires forall x | x in s :: Known(g, x)
    ensures forall x | x in s :: InfoOf(g, x).localStack <= m
  {
    m := 0;
    if s != {} {
      var x :| x in s;
      var n := LocalBound(g, s - {x});
      m := if InfoOf(g, x).localStack > n then InfoOf(g, x).localStack else n;
    }
  }

  lemma {:induction false} StackBound(g: Graph, p: seq<Fn>, m: nat)
    requires (forall i | 0 <= i < |p| :: Known(g, p[i])) && forall i | 0 <= i < |p| :: InfoOf(g, p[i]).localStack <= m
    ensures Stack(g, p) <= |p| * m
  {
    if p != [] {
      StackBound(g, p[1..], m);
    }
  }

  lemma MulMono(a: nat, b: nat, m: nat)
    requires a <= b
    ensures a * m <= b * m
  {}

  lemma DistinctBound(g: Graph, q: seq<Fn>, m: nat)
    requires Chain(g, q) && Distinct(q) && forall x | Known(g, x) :: InfoOf(g, x).localStack <= m
    ensures Stack(g, q) <= |Nodes(g)| * m
  {
    forall i | 0 <= i < |q|
      ensures q[i] in Nodes(g)
    {
      NodesAreKnown(g, q[i]);
    }
    DistinctFits(q, Nodes(g));
    StackBound(g, q, m);
    MulMono(|q|, |Nodes(g)|, m);
  }

  lemma ChainBound(g: Graph, f: Fn, p: seq<Fn>, m: nat)
    requires !Heavy(g, f) && ChainFrom(g, f, p) && forall x | Known(g, x) :: InfoOf(g, x).localStack <= m
    ensures Stack(g, p) <= |Nodes(g)| * m
  {
    var q := Simplified(g, f, p);
    DistinctBound(g, q, m);
  }

  /** A bounded function has a largest stack. */
  lemma {:induction false} LargestStack(g: Graph, f: Fn, b: nat) returns (v: nat)
    requires Known(g, f) && forall p | ChainFrom(g, f, p) :: Stack(g, p) <= b
    ensures IsWorst(g, f, v)
  {
    if exists p :: ChainFrom(g, f, p) && Stack(g, p) == b {
      v := b;
    } else {
      assert ChainFrom(g, f, [f]);
      v := LargestStack(g, f, b - 1);
    }
  }

  /** There is no worst case exactly when a cycle that uses stack can be reached. */
  lemma WorstExists(g: Graph, f: Fn)
    requires Known(g, f)
    ensures (exists v :: IsWorst(g, f, v)) <==> !Heavy(g, f)
  {
    if Heavy(g, f) {
      var p, i: nat, j: nat :| HeavyAt(g, f, p, i, j);
      forall v: nat
        ensures !IsWorst(g, f, v)
      {
        var q := Pumped(g, f, p, i, j, v + 1);
      }
    } else {
      forall x | x in Nodes(g)
        ensures Known(g, x)
      {
        NodesAreKnown(g, x);
      }
      var m := LocalBound(g, Nodes(g));
      forall x | Known(g, x)
        ensures InfoOf(g, x).localStack <= m
      {
        NodesAreKnown(g, x);
      }
      forall p | ChainFrom(g, f, p)
        ensures Stack(g, p) <= |Nodes(g)| * m
      {
        ChainBound(g, f, p, m);
      }
      var v := LargestStack(g, f, |Nodes(g)| * m);
    }
  }

  /** A cycle that uses no stack is reported unbounded although its worst case is 0. */
  lemma ZeroCycle(g: Graph, f: Fn)
    requires g == Graph(map["f" := Info("", {"f"}, false, 0)], map[]) && f == Global("f")
    ensures Troubled(g, f) && IsWorst(g, f, 0)
  {
    var p := [f, f];
    assert FindFxn(g, "", "f") == Some(f);
    assert "f" in InfoOf(g, f).calls;
    assert Calls(g, f, f);
    assert Edge(g, p, 0);
    assert p[..1] == [f];
    assert ChainFrom(g, f, p) && EndsBadly(g, p);
    forall q | ChainFrom(g, f, q)
      ensures Stack(g, q) == 0
    {
      NoStack(g, q);
    }
    assert ChainFrom(g, f, [f]) && Stack(g, [f]) == 0;
  }
}
