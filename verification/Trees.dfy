/**
 Undirected graphs as the join tree uses them: the neighbour sets of the nodes
 0, 1, ..., |g| - 1.  The one result about them is Root: a connected graph
 without cycles can be hung from node 0, each other node below one parent.
 */
module Trees {
  import opened Sequences

  type Graph = seq<set<nat>>

  ghost predicate WellFormed(g: Graph) {
    && |g| > 0
    && forall i, j {:trigger j in g[i]} :: 0 <= i < |g| && j in g[i] ==> j < |g| && j != i && i in g[j]
  }

  ghost predicate IsPath(g: Graph, p: seq<nat>) {
    && |p| > 0
    && (forall k :: 0 <= k < |p| ==> p[k] < |g|)
    && forall k :: 0 <= k < |p| - 1 ==> p[k + 1] in g[p[k]]
  }

  ghost predicate Linked(g: Graph, i: nat, j: nat) {
    exists p :: IsPath(g, p) && p[0] == i && p[|p| - 1] == j
  }

  ghost predicate Connected(g: Graph) {
    forall i: nat, j: nat :: i < |g| && j < |g| ==> Linked(g, i, j)
  }

  ghost predicate IsCycle(g: Graph, c: seq<nat>) {
    && |c| >= 3 && IsPath(g, c) && Distinct(c)
    && c[0] in g[c[|c| - 1]]
  }

  ghost predicate IsTree(g: Graph) {
    WellFormed(g) && Connected(g) && forall c :: !IsCycle(g, c)
  }

  ghost predicate Hangs(g: Graph, parent: seq<nat>, rank: seq<nat>, i: nat)
    requires |parent| == |rank| == |g| && i < |g|
  {
    parent[i] < |g| && parent[i] in g[i] && rank[parent[i]] < rank[i]
  }

  /** The tree hangs from node 0: every edge joins a node to its parent, and
      ranks grow away from the root. */
  ghost predicate Rooted(g: Graph, parent: seq<nat>, rank: seq<nat>) {
    && WellFormed(g) && |parent| == |rank| == |g|
    && (forall i :: 0 < i < |g| ==> Hangs(g, parent, rank, i))
    && forall i, j {:trigger j in g[i]} :: 0 <= i < |g| && j in g[i] ==>
      j < |g| && ((i != 0 && j == parent[i]) || (j != 0 && i == parent[j]))
  }

  /** The nodes reached so far, in order; `up[k]` is the place in that order of
      the only earlier neighbour of `order[k]`. */
  ghost predicate Grown(g: Graph, order: seq<nat>, up: seq<nat>) {
    && |order| == |up| > 0 && order[0] == 0 && Distinct(order)
    && (forall k :: 0 <= k < |order| ==> order[k] < |g|)
    && (forall k {:trigger up[k]} :: 0 < k < |order| ==> up[k] < k && order[up[k]] in g[order[k]])
    && forall k, l {:trigger order[k] in g[order[l]]} :: 0 <= k < l < |order| && order[k] in g[order[l]] ==> k == up[l]
  }

  /** A path inside the part reached so far, given by places in the order. */
  ghost predicate IsWalk(g: Graph, order: seq<nat>, w: seq<nat>, bound: nat) {
    && |w| > 0 && Distinct(w) && bound <= |order|
    && (forall k :: 0 <= k < |order| ==> order[k] < |g|)
    && (forall m :: 0 <= m < |w| ==> w[m] < bound)
    && forall m :: 0 <= m < |w| - 1 ==> order[w[m + 1]] in g[order[w[m]]]
  }

  lemma WalkBetween(g: Graph, order: seq<nat>, up: seq<nat>, k: nat, l: nat) returns (w: seq<nat>)
    requires WellFormed(g) && Grown(g, order, up) && k < |order| && l < |order|
    ensures IsWalk(g, order, w, (if k < l then l else k) + 1) && w[0] == k && w[|w| - 1] == l
    decreases k + l
  {
    if k == l {
      w := [k];
    } else if k < l {
      var q := WalkBetween(g, order, up, k, up[l]);
      w := q + [l];
    } else {
      var q := WalkBetween(g, order, up, up[k], l);
      w := [k] + q;
    }
  }

  /** In a connected graph an incomplete part has an edge leaving it. */
  lemma Leave(g: Graph, order: seq<nat>, p: seq<nat>) returns (k: nat, v: nat)
    requires WellFormed(g) && IsPath(g, p) && p[0] in order && p[|p| - 1] !in order
    ensures k < |order| && order[k] < |g| && v !in order && v in g[order[k]]
    decreases |p|
  {
    if p[1] in order {
      k, v := Leave(g, order, p[1..]);
    } else {
      k :| 0 <= k < |order| && order[k] == p[0];
      v := p[1];
    }
  }

  /** A node outside the part has at most one neighbour inside it. */
  lemma OneWayIn(g: Graph, order: seq<nat>, up: seq<nat>, v: nat, k: nat, l: nat)
    requires IsTree(g) && Grown(g, order, up) && v < |g| && v !in order
    requires k < |order| && l < |order| && order[k] in g[v] && order[l] in g[v]
    ensures k == l
  {
    if k != l {
      var w := WalkBetween(g, order, up, k, l);
      var p: seq<nat> := seq(|w|, m requires 0 <= m < |w| => order[w[m]]);
      assert v !in p;
      assert Distinct(p);
      assert IsPath(g, p + [v]);
      assert IsCycle(g, p + [v]);
    }
  }

  lemma CountNodes(n: nat, order: seq<nat>)
    requires Distinct(order) && forall k :: 0 <= k < |order| ==> order[k] < n
    ensures |order| <= n
  {
    assert |order| > 0 ==> order[0] < n;
    if n == 0 {
    } else if k :| 0 <= k < |order| && order[k] == n - 1 {
      var rest := order[..k] + order[k + 1..];
      forall l | 0 <= l < |rest| ensures rest[l] < n - 1 {
        assert rest[l] == order[if l < k then l else l + 1];
      }
      CountNodes(n - 1, rest);
    } else {
      CountNodes(n - 1, order);
    }
  }

  lemma Extend(g: Graph, order: seq<nat>, up: seq<nat>, k: nat, v: nat)
    requires IsTree(g) && Grown(g, order, up) && k < |order| && v !in order && v in g[order[k]]
    ensures Grown(g, order + [v], up + [k])
  {
    assert v < |g| && order[k] in g[v];
    forall l | 0 <= l < |order| && order[l] in g[v] ensures l == k {
      OneWayIn(g, order, up, v, k, l);
    }
  }

  lemma Grow(g: Graph, order: seq<nat>, up: seq<nat>) returns (order': seq<nat>, up': seq<nat>)
    requires IsTree(g) && Grown(g, order, up)
    ensures Grown(g, order', up') && forall i: nat :: i < |g| ==> i in order'
    decreases |g| - |order|
  {
    if i: nat :| i < |g| && i !in order {
      assert Linked(g, 0, i);
      var p :| IsPath(g, p) && p[0] == 0 && p[|p| - 1] == i;
      var k, v := Leave(g, order, p);
      Extend(g, order, up, k, v);
      CountNodes(|g|, order + [v]);
      order', up' := Grow(g, order + [v], up + [k]);
    } else {
      order', up' := order, up;
    }
  }

  lemma IndexIn(order: seq<nat>, n: nat) returns (rank: seq<nat>)
    requires forall i: nat :: i < n ==> i in order
    ensures |rank| == n && forall i :: 0 <= i < n ==> rank[i] < |order| && order[rank[i]] == i
  {
    if n == 0 {
      rank := [];
    } else {
      rank := IndexIn(order, n - 1);
      var last: nat := n - 1;
      assert last in order;
      var k :| 0 <= k < |order| && order[k] == last;
      rank := rank + [k];
    }
  }

  /** Every tree can be hung from node 0. */
  lemma Root(g: Graph) returns (parent: seq<nat>, rank: seq<nat>)
    requires IsTree(g)
    ensures Rooted(g, parent, rank)
  {
    var order, up := Grow(g, [0], [0]);
    rank := IndexIn(order, |g|);
    parent := seq(|g|, i requires 0 <= i < |g| => if rank[i] == 0 then 0 else order[up[rank[i]]]);
    forall i | 0 < i < |g|
      ensures Hangs(g, parent, rank, i)
    {
      var k := rank[i];
      assert k != 0 && order[k] == i && parent[i] == order[up[k]] && up[k] < k;
      assert order[rank[parent[i]]] == parent[i];
    }
    forall i, j | 0 <= i < |g| && j in g[i]
      ensures j < |g| && ((i != 0 && j == parent[i]) || (j != 0 && i == parent[j]))
    {
      assert order[rank[i]] == i && order[rank[j]] == j;
    }
  }
}
