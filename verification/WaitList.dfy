/** rt-thread/include/rtservice.h: the circular doubly linked list that a memory pool keeps its
    suspended threads on. Node 0 is the list head embedded in the pool; node t > 0 is the `tlist` of
    thread t. */
module WaitList {

  /** Position i of the ring that starts and ends at the head. */
  ghost function Node(nodes: seq<nat>, i: int): nat
    requires 0 <= i <= |nodes| + 1
  {
    if i == 0 || i == |nodes| + 1 then 0 else nodes[i - 1]
  }

  ghost predicate Link(nx: seq<nat>, pv: seq<nat>, nodes: seq<nat>, i: int)
    requires 0 <= i <= |nodes|
  {
    && Node(nodes, i) < |nx| && nx[Node(nodes, i)] == Node(nodes, i + 1)
    && Node(nodes, i + 1) < |pv| && pv[Node(nodes, i + 1)] == Node(nodes, i)
  }

  /** Following `next` from the head visits exactly `nodes`, each once, and `prev` runs backwards. */
  ghost predicate Ring(nx: seq<nat>, pv: seq<nat>, nodes: seq<nat>) {
    && |nx| == |pv| > 0
    && (forall i | 0 <= i < |nodes| :: 0 < nodes[i] < |nx|)
    && (forall i, j | 0 <= i < j < |nodes| :: nodes[i] != nodes[j])
    && forall i | 0 <= i <= |nodes| :: Link(nx, pv, nodes, i)
  }

  function Without(nodes: seq<nat>, k: nat): seq<nat>
    requires k < |nodes|
  {
    nodes[..k] + nodes[k + 1..]
  }

  lemma InsertRing(nx: seq<nat>, pv: seq<nat>, nodes: seq<nat>, n: nat)
    requires Ring(nx, pv, nodes) && 0 < n < |nx| && n !in nodes
    ensures nx[0] < |pv|
    ensures Ring(nx[n := nx[0]][0 := n], pv[nx[0] := n][n := 0], [n] + nodes)
  {
    var r := [n] + nodes;
    assert Link(nx, pv, nodes, 0);
    var nx', pv' := nx[n := nx[0]][0 := n], pv[nx[0] := n][n := 0];
    forall i | 0 <= i <= |r| ensures Link(nx', pv', r, i) {
      if i >= 2 {
        assert Link(nx, pv, nodes, i - 1);
        assert Node(r, i) == Node(nodes, i - 1) && Node(r, i + 1) == Node(nodes, i);
      }
    }
  }

  lemma RemoveRing(nx: seq<nat>, pv: seq<nat>, nodes: seq<nat>, k: nat)
    requires Ring(nx, pv, nodes) && k < |nodes|
    ensures var n := nodes[k];
      && nx[n] < |pv| && pv[n] < |nx|
      && Ring(nx[pv[n] := nx[n]][n := n], pv[nx[n] := pv[n]][n := n], Without(nodes, k))
  {
    var n, r := nodes[k], Without(nodes, k);
    assert Link(nx, pv, nodes, k) && Link(nx, pv, nodes, k + 1);
    var nx', pv' := nx[pv[n] := nx[n]][n := n], pv[nx[n] := pv[n]][n := n];
    assert Node(nodes, k) != n && Node(nodes, k + 2) != n;
    forall i | 0 <= i <= |r| ensures Link(nx', pv', r, i) {
      if i < k {
        assert Link(nx, pv, nodes, i);
        assert Node(r, i) == Node(nodes, i) && Node(r, i + 1) == Node(nodes, i + 1);
        assert Node(nodes, i) != Node(nodes, k) && Node(nodes, i) != n && Node(nodes, i + 1) != n;
      } else if i == k {
        assert Node(r, i) == Node(nodes, k) && Node(r, i + 1) == Node(nodes, k + 2);
      } else {
        assert Link(nx, pv, nodes, i + 1);
        assert Node(r, i) == Node(nodes, i + 1) && Node(r, i + 1) == Node(nodes, i + 2);
        assert Node(nodes, i + 1) != Node(nodes, k) && Node(nodes, i + 1) != n && Node(nodes, i + 2) != n;
      }
    }
  }

  class WaitList {
    const next: array<nat>
    const prev: array<nat>
    ghost var nodes: seq<nat>

    ghost predicate Valid()
      reads this, next, prev
    {
      next != prev && Ring(next[..], prev[..], nodes)
    }

    /** rt_list_init */
    constructor (threads: nat)
      ensures Valid() && nodes == [] && fresh(next) && fresh(prev) && next.Length == threads + 1
    {
      next, prev := new nat[threads + 1](_ => 0), new nat[threads + 1](_ => 0);
      nodes := [];
      new;
      assert Link(next[..], prev[..], nodes, 0);
    }

    /** rt_list_insert_after, applied to the list head: the newcomer goes first. */
    method InsertAfterHead(n: nat)
      requires Valid() && 0 < n < next.Length && n !in nodes
      modifies this, next, prev
      ensures Valid() && nodes == [n] + old(nodes)
    {
      InsertRing(next[..], prev[..], nodes, n);
      prev[next[0]] := n;
      next[n] := next[0];
      next[0] := n;
      prev[n] := 0;
      nodes := [n] + nodes;
    }

    /** rt_list_remove */
    method Remove(n: nat, ghost k: nat)
      requires Valid() && k < |nodes| && nodes[k] == n
      modifies this, next, prev
      ensures Valid() && nodes == Without(old(nodes), k) && next[n] == n && prev[n] == n
    {
      RemoveRing(next[..], prev[..], nodes, k);
      assert Link(next[..], prev[..], nodes, k) && Link(next[..], prev[..], nodes, k + 1);
      prev[next[n]] := prev[n];
      next[prev[n]] := next[n];
      next[n] := n;
      prev[n] := n;
      nodes := Without(nodes, k);
    }

    /** rt_list_isempty */
    method IsEmpty() returns (empty: bool)
      requires Valid()
      ensures empty <==> nodes == []
    {
      assert Link(next[..], prev[..], nodes, 0);
      empty := next[0] == 0;
    }

    /** The first entry, list->next. */
    method First() returns (n: nat)
      requires Valid() && nodes != []
      ensures n == nodes[0]
    {
      assert Link(next[..], prev[..], nodes, 0);
      n := next[0];
    }
  }
}
