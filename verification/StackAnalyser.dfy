/** rt-thread/tools/WCS.py: resolve_all_calls and calc_all_wcs, working in place on the function
    dictionaries. The keys 'r_calls', 'unresolved_calls' and 'wcs' of all dictionaries are the three
    maps below; `parents` is the recursion stack. */
module StackAnalyser {
  import opened Common
  import opened CallGraph

  /** The value stored under 'wcs'. */
  datatype Wcs = Unbounded | Bounded(stack: nat)

  /** `w` is the right answer for `f`. */
  ghost predicate Right(g: Graph, f: Fn, w: Wcs) {
    match w
    case Unbounded => Troubled(g, f)
    case Bounded(v) => !Troubled(g, f) && IsWorst(g, f, v)
  }

  ghost predicate AllMissing(g: Graph, f: Fn, us: set<string>) {
    forall u :: u in us <==> Misses(g, f, u)
  }

  ghost predicate OwnMissing(g: Graph, f: Fn, us: set<string>) {
    forall u :: u in us <==> Dangling(g, f, u)
  }

  /** `cs` lists exactly the functions that `f` calls. */
  ghost predicate ListsCalls(g: Graph, f: Fn, cs: seq<Fn>) {
    forall c :: c in cs <==> Calls(g, f, c)
  }

  function Elems(p: seq<Fn>): set<Fn> { set x | x in p }

  /* ---- What the loop over the calls of `f` has established after `i` of them ---- */

  ghost predicate Covered(g: Graph, cs: seq<Fn>, i: nat, best: nat)
    requires i <= |cs|
  {
    && (forall j | 0 <= j < i :: !Troubled(g, cs[j]) && AtMost(g, cs[j], best))
    && (best == 0 || exists j :: 0 <= j < i && IsWorst(g, cs[j], best))
  }

  ghost predicate Gathered(g: Graph, f: Fn, cs: seq<Fn>, i: nat, us: set<string>)
    requires i <= |cs|
  {
    forall u :: u in us <==> Dangling(g, f, u) || exists j :: 0 <= j < i && Misses(g, cs[j], u)
  }

  lemma CoverMore(g: Graph, cs: seq<Fn>, i: nat, best: nat, v: nat)
    requires i < |cs| && Covered(g, cs, i, best) && !Troubled(g, cs[i]) && IsWorst(g, cs[i], v)
    ensures Covered(g, cs, i + 1, if best < v then v else best)
  {
    var m := if best < v then v else best;
    forall j | 0 <= j < i + 1 ensures !Troubled(g, cs[j]) && AtMost(g, cs[j], m) {
      if j < i {
        assert AtMost(g, cs[j], best);
        var w: nat :| w <= best && IsWorst(g, cs[j], w);
      }
    }
  }

  lemma GatherMore(g: Graph, f: Fn, cs: seq<Fn>, i: nat, us: set<string>, more: set<string>)
    requires i < |cs| && Gathered(g, f, cs, i, us) && AllMissing(g, cs[i], more)
    ensures Gathered(g, f, cs, i + 1, us + more)
  {
    forall u ensures u in us + more <==> Dangling(g, f, u) || exists j :: 0 <= j < i + 1 && Misses(g, cs[j], u) {
      if j :| 0 <= j < i + 1 && Misses(g, cs[j], u) {
        assert j == i || j < i;
      }
    }
  }

  lemma Advance(g: Graph, f: Fn, cs: seq<Fn>, i: nat, best: nat, us: set<string>, w: Wcs, more: set<string>)
    requires i < |cs| && Covered(g, cs, i, best) && Gathered(g, f, cs, i, us)
    requires w.Bounded? && Right(g, cs[i], w) && AllMissing(g, cs[i], more)
    ensures Covered(g, cs, i + 1, if best < w.stack then w.stack else best) && Gathered(g, f, cs, i + 1, us + more)
  {
    CoverMore(g, cs, i, best, w.stack);
    GatherMore(g, f, cs, i, us, more);
  }

  /** All calls covered: the sum is the right answer. */
  lemma Finish(g: Graph, f: Fn, cs: seq<Fn>, best: nat, us: set<string>)
    requires Known(g, f) && !InfoOf(g, f).hasPtrCall && ListsCalls(g, f, cs)
    requires Covered(g, cs, |cs|, best) && Gathered(g, f, cs, |cs|, us)
    ensures Right(g, f, Bounded(best + InfoOf(g, f).localStack)) && AllMissing(g, f, us)
  {
    TroubleStep(g, f);
    forall c | Calls(g, f, c) ensures !Troubled(g, c) && AtMost(g, c, best) {
      assert c in cs;
    }
    if best != 0 {
      var j :| 0 <= j < |cs| && IsWorst(g, cs[j], best);
      assert cs[j] in cs;
    }
    WorstStep(g, f, best);
    forall u ensures u in us <==> Misses(g, f, u) {
      MissesStep(g, f, u);
      if j :| 0 <= j < |cs| && Misses(g, cs[j], u) { assert cs[j] in cs; }
      if c :| Calls(g, f, c) && Misses(g, c, u) { assert c in cs; }
    }
  }

  /** Pushing `f` keeps the stack a chain and leaves fewer functions to push. */
  lemma Pushed(g: Graph, ps: seq<Fn>, f: Fn, c: Fn)
    requires Chain(g, ps + [f]) && Calls(g, f, c) && f !in ps
    ensures Known(g, c) && Chain(g, ps + [f] + [c])
    ensures Nodes(g) - Elems(ps + [f]) < Nodes(g) - Elems(ps)
  {
    Extend(g, ps + [f], c);
    assert (ps + [f])[|ps|] == f;
    NodesAreKnown(g, f);
    assert f in Nodes(g) - Elems(ps);
    assert f in ps + [f];
    assert Elems(ps + [f]) == Elems(ps) + {f};
  }

  class Analyser {
    const g: Graph
    var rCalls: map<Fn, seq<Fn>>
    var unresolved: map<Fn, set<string>>
    var wcs: map<Fn, Wcs>
    var parents: seq<Fn>

    /** What holds for one function `f`: its calls are resolved, its memo entry is right, and if it is
        neither finished nor being worked on (on the stack, or `busy`) it still has just its own
        unresolved calls. */
    ghost predicate InvAt(f: Fn, busy: set<Fn>)
      reads this
    {
      && (Known(g, f) ==> f in rCalls && f in unresolved && ListsCalls(g, f, rCalls[f]))
      && (f in wcs ==> Known(g, f) && Right(g, f, wcs[f]) && (wcs[f].Bounded? ==> AllMissing(g, f, unresolved[f])))
      && (Known(g, f) && f !in wcs && f !in parents && f !in busy ==> OwnMissing(g, f, unresolved[f]))
      && (f in parents ==> Known(g, f) && (f in wcs ==> wcs[f].Unbounded?))
    }

    ghost predicate Inv(busy: set<Fn>)
      reads this
    {
      (forall f :: InvAt(f, busy)) && Distinct(parents)
    }

    /** The functions on the stack call each other, and the last one calls `f`. */
    ghost predicate Leads(f: Fn)
      reads this
    {
      Known(g, f) && Chain(g, parents + [f])
    }

    /** Finding `f` on the stack is finding a cycle through `f`. */
    lemma OnStackIsTrouble(f: Fn)
      requires Leads(f) && f in parents
      ensures Troubled(g, f)
    {
      var k :| 0 <= k < |parents| && parents[k] == f;
      var p := parents + [f];
      Slice(g, p, k, |p|);
      var q := p[k..|p|];
      assert q[..|q| - 1][0] == f;
      assert EndsBadly(g, q);
    }

    /** Store the answer for `f`. */
    method Mark(f: Fn, w: Wcs)
      requires Inv({f}) && Known(g, f) && Right(g, f, w)
      requires w.Bounded? ==> f !in parents && f in unresolved && AllMissing(g, f, unresolved[f])
      modifies this`wcs
      ensures Inv({}) && wcs == old(wcs)[f := w]
    {
      wcs := wcs[f := w];
      forall x ensures InvAt(x, {}) { assert old(InvAt(x, {f})); }
    }

    lemma Busy(f: Fn)
      requires Inv({})
      ensures Inv({f})
    {
      forall x ensures InvAt(x, {f}) { assert InvAt(x, {}); }
    }

    /** Stack entries keep their unresolved calls while others are searched. */
    ghost predicate SameOnStack(us: map<Fn, set<string>>)
      reads this
    {
      forall x | x in parents :: x in unresolved && x in us && unresolved[x] == us[x]
    }

    /** calc_wcs: the memoised depth-first search. */
    method CalcWcs(f: Fn)
      requires Inv({}) && Leads(f)
      modifies this`unresolved, this`wcs, this`parents
      ensures Inv({}) && parents == old(parents) && f in wcs
      ensures wcs.Keys >= old(wcs).Keys && SameOnStack(old(unresolved))
      decreases Nodes(g) - Elems(parents), 2
    {
      forall x | x in parents ensures x in unresolved { assert InvAt(x, {}); }
      if f in wcs { return; }
      TroubleStep(g, f);
      Busy(f);
      if InfoOf(g, f).hasPtrCall {
        Mark(f, Unbounded);
        return;
      }
      if f in parents {
        OnStackIsTrouble(f);
        Mark(f, Unbounded);
        return;
      }
      Explore(f);
    }

    /** The state of the loop of calc_wcs for `f` after `i` of the calls `cs`. */
    ghost predicate Progress(f: Fn, cs: seq<Fn>, i: nat, best: nat)
      reads this
    {
      && f !in parents && (f in wcs ==> wcs[f].Unbounded?) && f in unresolved
      && i <= |cs| && Covered(g, cs, i, best) && Gathered(g, f, cs, i, unresolved[f])
    }

    /** The largest callee so far, and the unresolved calls it passes on. */
    method Absorb(f: Fn, c: Fn, ghost cs: seq<Fn>, ghost i: nat, best: nat) returns (callMax: nat)
      requires Inv({f}) && Progress(f, cs, i, best) && i < |cs| && cs[i] == c
      requires InvAt(c, {f}) && Known(g, c) && c in wcs && wcs[c].Bounded?
      modifies this`unresolved
      ensures Inv({f}) && Progress(f, cs, i + 1, callMax) && unresolved.Keys == old(unresolved).Keys
      ensures forall x | x in old(unresolved) && x != f :: unresolved[x] == old(unresolved)[x]
    {
      Advance(g, f, cs, i, best, unresolved[f], wcs[c], unresolved[c]);
      callMax := if best < wcs[c].stack then wcs[c].stack else best;
      Gather(f, c);
    }

    /** The loop of calc_wcs over the resolved calls of a function met for the first time. */
    method Explore(f: Fn)
      requires Inv({f}) && InvAt(f, {}) && Leads(f) && f !in wcs && f !in parents && !InfoOf(g, f).hasPtrCall
      modifies this`unresolved, this`wcs, this`parents
      ensures Inv({}) && parents == old(parents) && f in wcs
      ensures wcs.Keys >= old(wcs).Keys && SameOnStack(old(unresolved))
      decreases Nodes(g) - Elems(parents), 1
    {
      var callMax: nat := 0;
      var cs := rCalls[f];
      forall x | x in parents ensures x in unresolved { assert InvAt(x, {f}); }
      for i := 0 to |cs|
        invariant Inv({f}) && Progress(f, cs, i, callMax) && parents == old(parents)
        invariant wcs.Keys >= old(wcs).Keys && SameOnStack(old(unresolved))
      {
        var c := cs[i];
        assert Calls(g, f, c);
        Visit(f, c);
        assert InvAt(c, {f});
        if wcs[c].Unbounded? {
          TroubleSpreads(g, f, c);
          Mark(f, Unbounded);
          return;
        }
        callMax := Absorb(f, c, cs, i, callMax);
      }
      Finish(g, f, cs, callMax, unresolved[f]);
      Mark(f, Bounded(callMax + InfoOf(g, f).localStack));
    }

    /** Add the unresolved calls of `c` to those of `f`. */
    method Gather(f: Fn, c: Fn)
      requires Inv({f}) && f in unresolved && c in unresolved && f !in parents && (f in wcs ==> wcs[f].Unbounded?)
      modifies this`unresolved
      ensures Inv({f}) && unresolved == old(unresolved)[f := old(unresolved)[f] + old(unresolved)[c]]
    {
      unresolved := unresolved[f := unresolved[f] + unresolved[c]];
      forall x ensures InvAt(x, {f}) { assert old(InvAt(x, {f})); }
    }

    /** One recursive call: push, search, pop. */
    method Visit(f: Fn, c: Fn)
      requires Inv({f}) && Leads(f) && Calls(g, f, c)
      requires f !in parents && (f in wcs ==> wcs[f].Unbounded?)
      modifies this`unresolved, this`wcs, this`parents
      ensures Inv({f}) && parents == old(parents) && c in wcs && (f in wcs ==> wcs[f].Unbounded?)
      ensures wcs.Keys >= old(wcs).Keys && SameOnStack(old(unresolved))
      ensures f in unresolved && f in old(unresolved) && unresolved[f] == old(unresolved[f])
      decreases Nodes(g) - Elems(parents), 0
    {
      ghost var ps := parents;
      parents := parents + [f];
      forall x ensures InvAt(x, {}) { assert old(InvAt(x, {f})); }
      Pushed(g, ps, f, c);
      CalcWcs(c);
      label searched:
      assert InvAt(f, {}) && f in parents;
      parents := parents[..|parents| - 1];
      assert parents == ps;
      forall x ensures InvAt(x, {f}) { assert old@searched(InvAt(x, {})); }
    }

    constructor (g: Graph)
      ensures this.g == g && parents == [] && wcs == map[]
    {
      this.g, rCalls, unresolved, wcs, parents := g, map[], map[], map[], [];
    }

    /** resolve_calls: the calls are visited in whatever order the set yields them. */
    method ResolveCalls(f: Fn)
      requires Known(g, f)
      modifies this`rCalls, this`unresolved
      ensures rCalls.Keys == old(rCalls).Keys + {f} && unresolved.Keys == old(unresolved).Keys + {f}
      ensures ListsCalls(g, f, rCalls[f]) && OwnMissing(g, f, unresolved[f])
      ensures forall x | x in old(rCalls) && x != f :: rCalls[x] == old(rCalls[x])
      ensures forall x | x in old(unresolved) && x != f :: unresolved[x] == old(unresolved[x])
    {
      var tu := InfoOf(g, f).tu;
      var todo := InfoOf(g, f).calls;
      var resolved: seq<Fn>, missing: set<string> := [], {};
      while todo != {}
        invariant todo <= InfoOf(g, f).calls
        invariant forall u :: u in missing <==> u in InfoOf(g, f).calls - todo && FindFxn(g, tu, u).None?
        invariant forall c ::
          c in resolved <==> exists n :: n in InfoOf(g, f).calls - todo && FindFxn(g, tu, n) == Some(c)
        decreases todo
      {
        var call :| call in todo;
        var r := FindFxn(g, tu, call);
        ghost var before, seen := resolved, InfoOf(g, f).calls - todo;
        if r.Some? {
          resolved := resolved + [r.value];
        } else {
          missing := missing + {call};
        }
        todo := todo - {call};
        assert InfoOf(g, f).calls - todo == seen + {call};
      }
      rCalls := rCalls[f := resolved];
      unresolved := unresolved[f := missing];
    }

    /** resolve_all_calls */
    method ResolveAll()
      modifies this`rCalls, this`unresolved
      ensures forall f | Known(g, f) ::
        f in rCalls && f in unresolved && ListsCalls(g, f, rCalls[f]) && OwnMissing(g, f, unresolved[f])
    {
      var todo := Nodes(g);
      while todo != {}
        invariant todo <= Nodes(g)
        invariant forall f | f in Nodes(g) - todo ::
          f in rCalls && f in unresolved && ListsCalls(g, f, rCalls[f]) && OwnMissing(g, f, unresolved[f])
        decreases todo
      {
        var f :| f in todo;
        NodesAreKnown(g, f);
        ResolveCalls(f);
        todo := todo - {f};
      }
      forall f | Known(g, f) ensures f in Nodes(g) - todo { NodesAreKnown(g, f); }
    }

    /** calc_all_wcs: every function in turn, each with an empty stack. */
    method CalcAll()
      requires Inv({}) && parents == []
      modifies this`unresolved, this`wcs, this`parents
      ensures Inv({}) && parents == [] && forall f | Known(g, f) :: f in wcs
    {
      var todo := Nodes(g);
      while todo != {}
        invariant Inv({}) && parents == [] && todo <= Nodes(g)
        invariant forall f | f in Nodes(g) - todo :: f in wcs
        decreases todo
      {
        var f :| f in todo;
        NodesAreKnown(g, f);
        assert [] + [f] == [f];
        CalcWcs(f);
        todo := todo - {f};
      }
      forall f | Known(g, f) ensures f in Nodes(g) - todo { NodesAreKnown(g, f); }
    }
  }

  /** An entry of a manual stack file: a function that calls nothing and whose stack is given. */
  ghost predicate IsManual(g: Graph, f: Fn) {
    Known(g, f) && InfoOf(g, f).calls == {} && !InfoOf(g, f).hasPtrCall
  }

  lemma ManualRight(g: Graph, f: Fn, us: set<string>)
    requires IsManual(g, f) && OwnMissing(g, f, us)
    ensures Right(g, f, Bounded(InfoOf(g, f).localStack)) && AllMissing(g, f, us)
  {
    assert ListsCalls(g, f, []);
    assert Covered(g, [], 0, 0) && Gathered(g, f, [], 0, us);
    Finish(g, f, [], 0, us);
  }

  /** The analysis as main runs it: resolve all calls, start from the manual entries, search everything.
      It terminates on every call graph, and every answer is right whatever the order of the visits. */
  method Analyse(g: Graph, manual: set<Fn>) returns (wcs: map<Fn, Wcs>, missing: map<Fn, set<string>>)
    requires forall f | f in manual :: IsManual(g, f)
    ensures forall f | Known(g, f) :: f in wcs && Right(g, f, wcs[f])
    ensures forall f | Known(g, f) :: f in missing && (f in wcs && wcs[f].Bounded? ==> AllMissing(g, f, missing[f]))
  {
    var a := new Analyser(g);
    a.ResolveAll();
    a.wcs := map f | f in manual :: Bounded(InfoOf(g, f).localStack);
    forall f ensures a.InvAt(f, {}) {
      if f in manual { ManualRight(g, f, a.unresolved[f]); }
    }
    a.CalcAll();
    forall f | Known(g, f) ensures f in a.unresolved && Right(g, f, a.wcs[f]) { assert a.InvAt(f, {}); }
    wcs, missing := a.wcs, a.unresolved;
    forall f | Known(g, f) && wcs[f].Bounded? ensures AllMissing(g, f, missing[f]) { assert a.InvAt(f, {}); }
  }
}
