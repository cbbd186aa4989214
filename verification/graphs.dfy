/** Directed graphs as adjacency lists, what a cycle in one is, and the three-colour search for it. */
module Graphs {

  type Graph<N(==)> = map<N, seq<N>>

  // An id that is no key has no edges.
  function Out<N>(g: Graph<N>, n: N): seq<N> {
    if n in g then g[n] else []
  }

  lemma OutAfter<N(!new)>(g: Graph<N>, id: N, edges: seq<N>)
    ensures forall n {:trigger Out(g[id := edges], n)} :: Out(g[id := edges], n) == if n == id then edges else Out(g, n)
    ensures forall n {:trigger Out(g - {id}, n)} :: Out(g - {id}, n) == if n == id then [] else Out(g, n)
  {
  }

  ghost predicate Path<N>(g: Graph<N>, p: seq<N>) {
    |p| >= 1 && forall i :: 0 <= i < |p| - 1 ==> p[i + 1] in Out(g, p[i])
  }

  ghost predicate Cycle<N>(g: Graph<N>, p: seq<N>) {
    |p| >= 2 && Path(g, p) && p[0] == p[|p| - 1]
  }

  ghost predicate Cyclic<N(!new)>(g: Graph<N>) {
    exists p :: Cycle(g, p)
  }

  ghost predicate Reaches<N(!new)>(g: Graph<N>, a: N, b: N) {
    exists p :: Path(g, p) && p[0] == a && p[|p| - 1] == b
  }

  // ---- More edges, fewer edges ----

  ghost predicate Subgraph<N(!new)>(g: Graph<N>, h: Graph<N>) {
    forall n, m :: m in Out(g, n) ==> m in Out(h, n)
  }

  lemma SubgraphCycles<N(!new)>(g: Graph<N>, h: Graph<N>)
    requires Subgraph(g, h) && Cyclic(g)
    ensures Cyclic(h)
  {
    var p :| Cycle(g, p);
    assert Cycle(h, p);
  }

  lemma {:induction false} Rotate<N>(g: Graph<N>, p: seq<N>, i: nat)
    requires Cycle(g, p) && i < |p| - 1
    ensures Cycle(g, p[i..] + p[1..i + 1]) && (p[i..] + p[1..i + 1])[0] == p[i]
  {
    var q := p[i..] + p[1..i + 1];
    var n := |p| - 1;
    forall k | 0 <= k < |q| - 1 ensures q[k + 1] in Out(g, q[k]) {
      if k < n - i {
        assert q[k] == p[i + k] && q[k + 1] == p[i + k + 1];
      } else {
        assert q[k] == p[k - (n - i)] && q[k + 1] == p[k - (n - i) + 1];
      }
    }
  }

  lemma {:induction false} FirstReturn<N>(p: seq<N>, k: nat) returns (j: nat)
    requires 1 <= k < |p| && p[k] == p[0]
    ensures 1 <= j <= k && p[j] == p[0] && forall i :: 1 <= i < j ==> p[i] != p[0]
  {
    j := 1;
    while p[j] != p[0]
      invariant 1 <= j <= k && forall i :: 1 <= i < j ==> p[i] != p[0]
      decreases k - j
    {
      j := j + 1;
    }
  }

  /**
    * Testing old and new edges of one node together finds a cycle exactly when the new edges alone
    * close one, provided that there was none before.
    */
  lemma UnionFindsReplacement<N(!new)>(g: Graph<N>, from: N, to: seq<N>, both: seq<N>)
    requires !Cyclic(g)
    requires forall n :: n in both <==> n in Out(g, from) || n in to
    ensures Cyclic(g[from := both]) <==> Cyclic(g[from := to])
  {
    var union, replaced := g[from := both], g[from := to];
    if Cyclic(replaced) {
      SubgraphCycles(replaced, union);
    }
    if Cyclic(union) {
      var p :| Cycle(union, p);
      var q := ThroughNode(g, from, both, p);
      var k := FirstReturn(q, |q| - 1);
      var r := q[..k + 1];
      assert forall i :: 0 <= i < k ==> r[i + 1] in Out(union, r[i]);
      if r[1] in Out(g, from) {
        assert Cycle(g, r);
        assert false;
      } else {
        assert Cycle(replaced, r);
      }
    }
  }

  /** A cycle that needs the new edges of a node can be read from that node on. */
  lemma ThroughNode<N(!new)>(g: Graph<N>, from: N, both: seq<N>, p: seq<N>) returns (q: seq<N>)
    requires !Cyclic(g) && Cycle(g[from := both], p)
    ensures Cycle(g[from := both], q) && q[0] == from
  {
    assert (forall i :: 0 <= i < |p| - 1 ==> p[i] != from) ==> Cycle(g, p);
    var i :| 0 <= i < |p| - 1 && p[i] == from;
    Rotate(g[from := both], p, i);
    q := p[i..] + p[1..i + 1];
  }

  // ---- The search ----

  /** Every successor of a finished node was finished before it. */
  ghost predicate Ordered<N>(g: Graph<N>, done: seq<N>) {
    forall i, n :: 0 <= i < |done| && n in Out(g, done[i]) ==> n in done[..i]
  }

  lemma {:induction false} PathDescends<N>(g: Graph<N>, done: seq<N>, i: nat, p: seq<N>) returns (j: nat)
    requires Ordered(g, done) && i < |done| && Path(g, p) && |p| >= 2 && p[0] == done[i]
    ensures j < i && done[j] == p[|p| - 1]
    decreases |p|
  {
    assert p[1] in done[..i];
    j :| 0 <= j < i && done[j] == p[1];
    if |p| > 2 {
      j := PathDescends(g, done, j, p[1..]);
    }
  }

  lemma {:induction false} OrderedHasNoCycle<N>(g: Graph<N>, done: seq<N>, i: nat, p: seq<N>)
    requires Ordered(g, done) && i < |done| && Cycle(g, p)
    ensures p[0] != done[i]
    decreases i
  {
    if p[0] == done[i] {
      var j := PathDescends(g, done, i, p);
      OrderedHasNoCycle(g, done, j, p);
    }
  }

  lemma AllDoneIsAcyclic<N(!new)>(g: Graph<N>, done: seq<N>)
    requires Ordered(g, done) && forall n :: n in g ==> n in done
    ensures !Cyclic(g)
  {
    forall p ensures !Cycle(g, p) {
      if Cycle(g, p) {
        assert p[1] in Out(g, p[0]);
        var i :| 0 <= i < |done| && done[i] == p[0];
        OrderedHasNoCycle(g, done, i, p);
      }
    }
  }

  /** Finished nodes have colour 2; the nodes being visited have colour 1 and form a path. */
  ghost predicate Coloured<N(!new)>(g: Graph<N>, color: map<N, int>, done: seq<N>, stack: seq<N>) {
    && (forall n :: n in color <==> n in done || n in stack)
    && (forall n :: n in done ==> n in color && color[n] == 2)
    && (forall n :: n in stack ==> n in color && color[n] == 1)
    && Ordered(g, done)
    && (stack != [] ==> Path(g, stack))
  }

  ghost predicate Closed<N(!new)>(g: Graph<N>, all: set<N>) {
    forall n :: n in all ==> forall m :: m in Out(g, n) ==> m in all
  }

  lemma OrderedSnoc<N>(g: Graph<N>, done: seq<N>, n: N)
    requires Ordered(g, done) && forall m :: m in Out(g, n) ==> m in done
    ensures Ordered(g, done + [n])
  {
    var next := done + [n];
    forall i, m | 0 <= i < |next| && m in Out(g, next[i]) ensures m in next[..i] {
      assert i < |done| ==> next[..i] == done[..i];
      assert i == |done| ==> next[..i] == done;
    }
  }

  lemma BackEdge<N(!new)>(g: Graph<N>, stack: seq<N>, next: N)
    requires stack != [] && Path(g, stack) && next in stack && next in Out(g, stack[|stack| - 1])
    ensures Cyclic(g)
  {
    var k :| 0 <= k < |stack| && stack[k] == next;
    var p := stack[k..] + [next];
    forall i | 0 <= i < |p| - 1 ensures p[i + 1] in Out(g, p[i]) {
      assert p[i] == stack[k + i];
    }
    assert Cycle(g, p);
  }

  method DfsCycle<N(==, !new)>(g: Graph<N>, n: N, color0: map<N, int>,
                               ghost all: set<N>, ghost done0: seq<N>, ghost stack: seq<N>)
    returns (found: bool, color: map<N, int>, ghost done: seq<N>)
    requires Coloured(g, color0, done0, stack) && n !in color0
    requires n in all && Closed(g, all)
    requires stack != [] ==> n in Out(g, stack[|stack| - 1])
    ensures found ==> Cyclic(g)
    ensures !found ==> Coloured(g, color, done, stack) && done0 <= done && n in done
    decreases all - color0.Keys
  {
    color, done, found := color0[n := 1], done0, false;
    ghost var path := stack + [n];
    if n in g {
      var edges, i := g[n], 0;
      while i < |edges|
        invariant 0 <= i <= |edges|
        invariant Coloured(g, color, done, path) && done0 <= done
        invariant color0.Keys + {n} <= color.Keys
        invariant forall j :: 0 <= j < i ==> edges[j] in done
      {
        var next := edges[i];
        assert next in Out(g, n);
        if next in color && color[next] == 1 {
          BackEdge(g, path, next);
          return true, color, done;
        }
        if next !in color || color[next] == 0 {
          found, color, done := DfsCycle(g, next, color, all, done, path);
          if found {
            return;
          }
        }
        i := i + 1;
      }
    }
    OrderedSnoc(g, done, n);
    color, done := color[n := 2], done + [n];
    assert stack != [] ==> Path(g, stack) by {
      assert forall i :: 0 <= i < |stack| ==> path[i] == stack[i];
    }
  }

  /** Tells whether some node reaches itself, on every graph, with edges to ids that are no keys. */
  method FindCycle<N(==, !new)>(g: Graph<N>) returns (found: bool)
    ensures found <==> Cyclic(g)
  {
    var color: map<N, int> := map[];
    ghost var done: seq<N> := [];
    ghost var all := g.Keys + set n, m | n in g.Keys && m in g[n] :: m;
    var rest := g.Keys;
    while rest != {}
      invariant rest <= g.Keys
      invariant Coloured(g, color, done, [])
      invariant forall n :: n in g && n !in rest ==> n in done
      decreases rest
    {
      var id :| id in rest;
      rest := rest - {id};
      if id !in color || color[id] == 0 {
        ghost var before := done;
        found, color, done := DfsCycle(g, id, color, all, done, []);
        if found {
          return;
        }
        assert forall n :: n in before ==> n in done;
      }
    }
    AllDoneIsAcyclic(g, done);
    return false;
  }
}
