/** The call graph that rt-thread/tools/WCS.py analyses, and what "worst case stack" means for it. */
module CallGraph {
  import opened Common

  /** Identity of a function: globals by name, locals by name and translation unit. */
  datatype Fn = Global(name: string) | Local(name: string, tu: string)

  datatype Info = Info(tu: string, calls: set<string>, hasPtrCall: bool, localStack: nat)

  datatype Graph = Graph(globals: map<string, Info>, locals: map<string, map<string, Info>>)

  predicate Known(g: Graph, f: Fn) {
    match f
    case Global(n) => n in g.globals
    case Local(n, tu) => n in g.locals && tu in g.locals[n]
  }

  function Nodes(g: Graph): set<Fn> {
    (set n | n in g.globals :: Global(n)) +
    (set n, tu | n in g.locals && tu in g.locals[n] :: Local(n, tu))
  }

  lemma NodesAreKnown(g: Graph, f: Fn)
    ensures f in Nodes(g) <==> Known(g, f)
  {
    match f
    case Global(n) =>
    case Local(n, tu) =>
  }

  function InfoOf(g: Graph, f: Fn): Info
    requires Known(g, f)
  {
    match f
    case Global(n) => g.globals[n]
    case Local(n, tu) => g.locals[n][tu]
  }

  /** find_fxn: a global hides every local of that name; locals are visible in their own unit only. */
  function FindFxn(g: Graph, tu: string, name: string): (r: Option<Fn>)
    ensures r.Some? ==> Known(g, r.value) && r.value.name == name
    ensures r.None? ==> !Known(g, Global(name)) && !Known(g, Local(name, tu))
    ensures r.Some? && r.value.Local? ==> r.value.tu == tu && !Known(g, Global(name))
  {
    if name in g.globals then Some(Global(name))
    else if name in g.locals && tu in g.locals[name] then Some(Local(name, tu))
    else None
  }

  ghost predicate Calls(g: Graph, f: Fn, c: Fn) {
    Known(g, f) && exists n :: n in InfoOf(g, f).calls && FindFxn(g, InfoOf(g, f).tu, n) == Some(c)
  }

  /** The calls of `f` that resolve to no function. */
  ghost predicate Dangling(g: Graph, f: Fn, u: string) {
    Known(g, f) && u in InfoOf(g, f).calls && FindFxn(g, InfoOf(g, f).tu, u).None?
  }

  /* ---- Call chains ---- */

  ghost predicate Edge(g: Graph, p: seq<Fn>, i: int)
    requires 0 <= i < |p| - 1
  {
    Calls(g, p[i], p[i + 1])
  }

  ghost predicate Chain(g: Graph, p: seq<Fn>) {
    && |p| > 0 && (forall i | 0 <= i < |p| :: Known(g, p[i]))
    && forall i | 0 <= i < |p| - 1 :: Edge(g, p, i)
  }

  ghost predicate ChainFrom(g: Graph, f: Fn, p: seq<Fn>) { Chain(g, p) && p[0] == f }

  function Last(p: seq<Fn>): Fn
    requires |p| > 0
  {
    p[|p| - 1]
  }

  ghost function Stack(g: Graph, p: seq<Fn>): nat
    requires forall i | 0 <= i < |p| :: Known(g, p[i])
  {
    if p == [] then 0 else InfoOf(g, p[0]).localStack + Stack(g, p[1..])
  }

  /** The chain ends in a pointer call, or comes back to a function it already passed. */
  ghost predicate EndsBadly(g: Graph, p: seq<Fn>)
    requires Chain(g, p)
  {
    InfoOf(g, Last(p)).hasPtrCall || Last(p) in p[..|p| - 1]
  }

  /** `f` can reach a pointer call or a call cycle. */
  ghost predicate Troubled(g: Graph, f: Fn) {
    exists p :: ChainFrom(g, f, p) && EndsBadly(g, p)
  }

  ghost predicate IsWorst(g: Graph, f: Fn, v: nat) {
    && (forall p | ChainFrom(g, f, p) :: Stack(g, p) <= v)
    && exists p :: ChainFrom(g, f, p) && Stack(g, p) == v
  }

  /** Some function reachable from `f` has the dangling call `u`. */
  ghost predicate Misses(g: Graph, f: Fn, u: string) {
    exists p :: ChainFrom(g, f, p) && Dangling(g, Last(p), u)
  }

  lemma Cons(g: Graph, f: Fn, p: seq<Fn>)
    requires Chain(g, p) && Calls(g, f, p[0])
    ensures ChainFrom(g, f, [f] + p) && Last([f] + p) == Last(p)
    ensures Stack(g, [f] + p) == InfoOf(g, f).localStack + Stack(g, p)
  {
    var q := [f] + p;
    forall i | 0 <= i < |q| - 1 ensures Edge(g, q, i) { if i > 0 { assert Edge(g, p, i - 1); } }
    assert q[1..] == p;
  }

  lemma Tail(g: Graph, p: seq<Fn>)
    requires Chain(g, p) && |p| > 1
    ensures Calls(g, p[0], p[1]) && ChainFrom(g, p[1], p[1..]) && Last(p[1..]) == Last(p)
    ensures Stack(g, p) == InfoOf(g, p[0]).localStack + Stack(g, p[1..])
  {
    assert Edge(g, p, 0);
    var q := p[1..];
    forall i | 0 <= i < |q| - 1 ensures Edge(g, q, i) { assert Edge(g, p, i + 1); }
  }

  lemma Extend(g: Graph, p: seq<Fn>, c: Fn)
    requires Chain(g, p) && Known(g, c) && Calls(g, Last(p), c)
    ensures Chain(g, p + [c])
  {
    var q := p + [c];
    forall i | 0 <= i < |q| - 1 ensures Edge(g, q, i) { if i < |p| - 1 { assert Edge(g, p, i); } }
  }

  lemma Slice(g: Graph, p: seq<Fn>, lo: nat, hi: nat)
    requires Chain(g, p) && lo < hi <= |p|
    ensures ChainFrom(g, p[lo], p[lo..hi]) && Last(p[lo..hi]) == p[hi - 1]
  {
    var q := p[lo..hi];
    forall i | 0 <= i < |q| - 1 ensures Edge(g, q, i) { assert Edge(g, p, lo + i); }
  }

  /* ---- One-step laws ---- */

  /** Trouble at a callee is trouble at the caller. */
  lemma TroubleSpreads(g: Graph, f: Fn, c: Fn)
    requires Calls(g, f, c) && Troubled(g, c)
    ensures Troubled(g, f)
  {
    var p :| ChainFrom(g, c, p) && EndsBadly(g, p);
    Cons(g, f, p);
    var q := [f] + p;
    if !InfoOf(g, Last(p)).hasPtrCall {
      var k :| 0 <= k < |p| - 1 && p[..|p| - 1][k] == Last(p);
      assert q[..|q| - 1][k + 1] == Last(q);
    }
    assert EndsBadly(g, q);
  }

  /** A cycle through `f` passes through a callee and makes that callee unwell too. */
  lemma CycleDescends(g: Graph, p: seq<Fn>, k: nat)
    requires Chain(g, p) && |p| > 1 && k < |p| - 1 && p[k] == Last(p)
    ensures Troubled(g, p[1])
  {
    Tail(g, p);
    var c, t := p[1], p[1..];
    if k > 0 {
      assert t[..|t| - 1][k - 1] == Last(t);
      assert EndsBadly(g, t);
    } else {
      Extend(g, t, c);
      var q := t + [c];
      assert q[..|q| - 1][0] == c;
      assert ChainFrom(g, c, q) && EndsBadly(g, q);
    }
  }

  lemma TroubleDescends(g: Graph, p: seq<Fn>)
    requires Chain(g, p) && EndsBadly(g, p) && |p| > 1
    ensures Calls(g, p[0], p[1]) && Troubled(g, p[1])
  {
    Tail(g, p);
    if InfoOf(g, Last(p)).hasPtrCall {
      assert EndsBadly(g, p[1..]);
    } else {
      var k :| 0 <= k < |p| - 1 && p[..|p| - 1][k] == Last(p);
      CycleDescends(g, p, k);
    }
  }

  /** Trouble comes from a pointer call or from a callee. */
  lemma TroubleStep(g: Graph, f: Fn)
    requires Known(g, f)
    ensures Troubled(g, f) <==> InfoOf(g, f).hasPtrCall || exists c :: Calls(g, f, c) && Troubled(g, c)
  {
    if InfoOf(g, f).hasPtrCall {
      assert ChainFrom(g, f, [f]) && EndsBadly(g, [f]);
    }
    if c :| Calls(g, f, c) && Troubled(g, c) { TroubleSpreads(g, f, c); }
    if Troubled(g, f) {
      var p :| ChainFrom(g, f, p) && EndsBadly(g, p);
      if |p| > 1 { TroubleDescends(g, p); }
    }
  }

  lemma MissesStep(g: Graph, f: Fn, u: string)
    requires Known(g, f)
    ensures Misses(g, f, u) <==> Dangling(g, f, u) || exists c :: Calls(g, f, c) && Misses(g, c, u)
  {
    if Dangling(g, f, u) {
      assert ChainFrom(g, f, [f]) && Last([f]) == f;
    }
    if c :| Calls(g, f, c) && Misses(g, c, u) {
      var p :| ChainFrom(g, c, p) && Dangling(g, Last(p), u);
      Cons(g, f, p);
    }
    if Misses(g, f, u) {
      var p :| ChainFrom(g, f, p) && Dangling(g, Last(p), u);
      if |p| > 1 { Tail(g, p); }
    }
  }

  ghost predicate AtMost(g: Graph, f: Fn, best: nat) { exists v: nat :: v <= best && IsWorst(g, f, v) }

  /** The worst stack of a function is its own plus the worst of its callees. */
  lemma WorstStep(g: Graph, f: Fn, best: nat)
    requires Known(g, f)
    requires forall c | Calls(g, f, c) :: AtMost(g, c, best)
    requires best == 0 || exists c :: Calls(g, f, c) && IsWorst(g, c, best)
    ensures IsWorst(g, f, InfoOf(g, f).localStack + best)
  {
    var v := InfoOf(g, f).localStack + best;
    forall p | ChainFrom(g, f, p) ensures Stack(g, p) <= v {
      if |p| > 1 {
        Tail(g, p);
        var w: nat :| w <= best && IsWorst(g, p[1], w);
      } else {
        assert p[1..] == [];
      }
    }
    if best == 0 {
      assert [f][1..] == [];
      var q := [f];
      assert ChainFrom(g, f, q) && Stack(g, q) >= InfoOf(g, f).localStack;
    } else {
      var c :| Calls(g, f, c) && IsWorst(g, c, best);
      var p :| ChainFrom(g, c, p) && Stack(g, p) == best;
      Cons(g, f, p);
    }
  }

  lemma WorstUnique(g: Graph, f: Fn, v: nat, w: nat)
    requires IsWorst(g, f, v) && IsWorst(g, f, w)
    ensures v == w
  {
    var p :| ChainFrom(g, f, p) && Stack(g, p) == v;
    var q :| ChainFrom(g, f, q) && Stack(g, q) == w;
  }

  /* ---- Trouble is what makes the stack unbounded ---- */

  lemma {:induction false} DistinctFits(p: seq<Fn>, s: set<Fn>)
    requires (forall i | 0 <= i < |p| :: p[i] in s) && Distinct(p)
    ensures |p| <= |s|
  {
    if p != [] {
      var t := p[1..];
      forall i | 0 <= i < |t| ensures t[i] in s - {p[0]} { assert t[i] == p[i + 1]; }
      DistinctFits(t, s - {p[0]});
    }
  }

  /** Without trouble no chain repeats a function, so none is longer than the program has functions. */
  lemma ShortChains(g: Graph, f: Fn, p: seq<Fn>)
    requires !Troubled(g, f) && ChainFrom(g, f, p)
    ensures |p| <= |Nodes(g)|
  {
    forall i, j | 0 <= i < j < |p| ensures p[i] != p[j] {
      Slice(g, p, 0, j + 1);
      var q := p[0..j + 1];
      assert q[..|q| - 1][i] == p[i];
      assert !EndsBadly(g, q);
    }
    forall i | 0 <= i < |p| ensures p[i] in Nodes(g) { NodesAreKnown(g, p[i]); }
    DistinctFits(p, Nodes(g));
  }

  /** A cycle can be walked any number of times: chains of every length exist. */
  lemma {:induction false} LongChains(g: Graph, f: Fn, p: seq<Fn>, n: nat) returns (q: seq<Fn>)
    requires ChainFrom(g, f, p) && Last(p) in p[..|p| - 1]
    ensures ChainFrom(g, f, q) && |q| >= n && Last(q) in p
    decreases n
  {
    if n <= |p| {
      q := p;
    } else {
      var r := LongChains(g, f, p, n - 1);
      var k :| 0 <= k < |p| && p[k] == Last(r);
      var m :| 0 <= m < |p| - 1 && p[..|p| - 1][m] == Last(p);
      var k' := if k == |p| - 1 then m else k;
      assert Edge(g, p, k');
      Extend(g, r, p[k' + 1]);
      q := r + [p[k' + 1]];
    }
  }
}
