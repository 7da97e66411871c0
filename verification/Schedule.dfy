/**
 The order in which the join tree sends its messages: node i still has to send
 to send[i] and still has to hear from recv[i].  Node 0 is the root and waits
 for everybody.
 */
module Schedule {
  import opened Trees

  type Marks = seq<set<nat>>

  ghost predicate Sent(g: Graph, send: Marks, i: nat, j: nat)
    requires |send| == |g|
  {
    i < |g| && j in g[i] && j !in send[i]
  }

  /** j is in i's "to send" set exactly when i is in j's "to receive" set. */
  ghost predicate Books(g: Graph, send: Marks, recv: Marks) {
    && |send| == |recv| == |g|
    && (forall i :: 0 <= i < |g| ==> send[i] <= g[i] && recv[i] <= g[i])
    && forall i, j {:trigger j in g[i]} :: 0 <= i < |g| && j in g[i] ==> j < |g| && (j in send[i] <==> i in recv[j])
  }

  /** Every message i -> j was sent after i had heard from all its neighbours
      other than j, and the root spoke only after hearing from everybody. */
  ghost predicate Safe(g: Graph, send: Marks, recv: Marks) {
    && Books(g, send, recv)
    && (forall i: nat, j: nat {:trigger Sent(g, send, i, j)} :: Sent(g, send, i, j) ==> recv[i] <= {j})
    && (|g| > 0 && send[0] != g[0] ==> recv[0] == {})
  }

  /** Both sets shrink when i -> j is recorded. */
  function Without(m: Marks, i: nat, j: nat): (r: Marks)
    requires i < |m|
    ensures |r| == |m|
  {
    m[i := m[i] - {j}]
  }

  lemma StepKeepsSafe(g: Graph, send: Marks, recv: Marks, i: nat, j: nat)
    requires WellFormed(g) && Safe(g, send, recv)
    requires i < |g| && j in send[i] && recv[i] <= {j} && (i == 0 ==> recv[0] == {})
    ensures j < |g| && i in recv[j] && Safe(g, Without(send, i, j), Without(recv, j, i))
    ensures forall k: nat, l: nat :: Sent(g, Without(send, i, j), k, l) <==> Sent(g, send, k, l) || (k == i && l == j)
  {
    assert j in g[i];
    var send', recv' := Without(send, i, j), Without(recv, j, i);
    forall k, l {:trigger l in g[k]} | 0 <= k < |g| && l in g[k]
      ensures l < |g| && (l in send'[k] <==> k in recv'[l])
    { }
    forall k: nat, l: nat {:trigger Sent(g, send', k, l)} | Sent(g, send', k, l) ensures recv'[k] <= {l} {
      if (k, l) != (i, j) {
        assert Sent(g, send, k, l);
      }
    }
  }

  // ------------------------------------------- what a safe state looks like

  /** A message away from the root means that the root has spoken. */
  lemma {:induction false} RootSpoke(g: Graph, send: Marks, recv: Marks, parent: seq<nat>, rank: seq<nat>, c: nat)
    requires Rooted(g, parent, rank) && Safe(g, send, recv)
    requires 0 < c < |g| && parent[c] < |g| && Sent(g, send, parent[c], c)
    ensures send[0] != g[0] && recv[0] == {}
    decreases rank[c]
  {
    var p := parent[c];
    assert Hangs(g, parent, rank, c);
    if p != 0 {
      assert Hangs(g, parent, rank, p);
      assert parent[p] in g[p] && p in g[parent[p]];
      assert recv[p] <= {c} && parent[p] != c;
      assert Sent(g, send, parent[p], p);
      RootSpoke(g, send, recv, parent, rank, p);
    }
  }

  /** Once the root has heard from everybody, every node has reported upwards. */
  lemma {:induction false} AllReported(g: Graph, send: Marks, recv: Marks, parent: seq<nat>, rank: seq<nat>, c: nat)
    requires Rooted(g, parent, rank) && Safe(g, send, recv) && recv[0] == {}
    requires 0 < c < |g|
    ensures Sent(g, send, c, parent[c])
    decreases rank[c]
  {
    var p := parent[c];
    assert Hangs(g, parent, rank, c);
    assert c in g[p] && p in g[c];
    if p != 0 {
      AllReported(g, send, recv, parent, rank, p);
      assert Hangs(g, parent, rank, p);
      assert recv[p] <= {parent[p]} && c != parent[p];
    }
  }

  /** As soon as some node has been answered, every node has reported upwards. */
  lemma AnswerMeansAllReported(g: Graph, send: Marks, recv: Marks, parent: seq<nat>, rank: seq<nat>, a: nat, c: nat)
    requires Rooted(g, parent, rank) && Safe(g, send, recv)
    requires 0 < a < |g| && parent[a] < |g| && Sent(g, send, parent[a], a) && 0 < c < |g|
    ensures Sent(g, send, c, parent[c])
  {
    RootSpoke(g, send, recv, parent, rank, a);
    AllReported(g, send, recv, parent, rank, c);
  }

  /** On every edge the message towards the root comes first. */
  lemma UpBeforeDown(g: Graph, send: Marks, recv: Marks, parent: seq<nat>, rank: seq<nat>, c: nat)
    requires Rooted(g, parent, rank) && Safe(g, send, recv)
    requires 0 < c < |g| && parent[c] < |g| && Sent(g, send, parent[c], c)
    ensures Sent(g, send, c, parent[c])
  {
    AnswerMeansAllReported(g, send, recv, parent, rank, c, c);
  }

  /** Nothing is addressed to a node that has answered on both sides of an edge. */
  lemma BothWaysDone(g: Graph, send: Marks, recv: Marks, i: nat, j: nat)
    requires WellFormed(g) && Safe(g, send, recv) && i < |g| && j in g[i]
    requires Sent(g, send, i, j) && Sent(g, send, j, i)
    ensures recv[i] == {} && recv[j] == {}
  {
  }

  // ------------------------------------------------------------ completeness

  /** No branch of the message loop applies to any node. */
  ghost predicate Quiet(g: Graph, send: Marks, recv: Marks)
    requires |send| == |recv| == |g|
  {
    && (forall i :: 0 < i < |g| ==> !(|send[i]| == |g[i]| && |recv[i]| == 1) && !(|recv[i]| == 0 && |send[i]| > 0))
    && (|g| > 0 && |recv[0]| == 0 ==> |send[0]| == 0)
  }

  lemma SameSize(a: set<nat>, b: set<nat>)
    requires a <= b
    ensures |a| <= |b| && (|a| == |b| ==> a == b)
  {
    if x :| x in b && x !in a {
      assert a <= b - {x};
      SameSize(a, b - {x});
    } else {
      assert a == b;
    }
  }

  /** A node all of whose children have reported, but which has not, can act. */
  lemma CanAct(g: Graph, send: Marks, recv: Marks, parent: seq<nat>, rank: seq<nat>, c: nat)
    requires Rooted(g, parent, rank) && Safe(g, send, recv)
    requires 0 < c < |g| && parent[c] in send[c]
    requires forall k :: k in g[c] && k != parent[c] ==> k !in recv[c]
    ensures recv[c] == {} || (recv[c] == {parent[c]} && send[c] == g[c])
  {
    if recv[c] != {} {
      assert recv[c] == {parent[c]};
      forall k | k in g[c] ensures k in send[c] {
        if k !in send[c] { assert Sent(g, send, c, k); }
      }
    }
  }

  lemma {:induction false} QuietReported(g: Graph, send: Marks, recv: Marks, parent: seq<nat>, rank: seq<nat>,
      bound: nat, c: nat)
    requires Rooted(g, parent, rank) && Safe(g, send, recv) && Quiet(g, send, recv)
    requires (forall i :: 0 <= i < |g| ==> rank[i] <= bound) && 0 < c < |g|
    ensures Sent(g, send, c, parent[c])
    decreases bound - rank[c]
  {
    assert Hangs(g, parent, rank, c);
    forall k | k in g[c] && k != parent[c] ensures k !in recv[c] {
      assert c == parent[k] && Hangs(g, parent, rank, k);
      QuietReported(g, send, recv, parent, rank, bound, k);
    }
    if parent[c] in send[c] {
      CanAct(g, send, recv, parent, rank, c);
    }
  }

  lemma {:induction false} QuietHeard(g: Graph, send: Marks, recv: Marks, parent: seq<nat>, rank: seq<nat>, i: nat)
    requires Rooted(g, parent, rank) && Safe(g, send, recv) && Quiet(g, send, recv) && i < |g|
    requires forall c :: 0 < c < |g| ==> Sent(g, send, c, parent[c])
    ensures recv[i] == {} && send[i] == {}
    decreases rank[i]
  {
    if i != 0 {
      assert Hangs(g, parent, rank, i);
      QuietHeard(g, send, recv, parent, rank, parent[i]);
    }
    forall k | k in g[i] ensures k !in recv[i] {
      assert i in g[k];
      assert (i != 0 && k == parent[i]) || (k != 0 && i == parent[k]);
      assert k != 0 ==> Sent(g, send, k, parent[k]);
    }
  }

  ghost function Highest(s: seq<nat>): (b: nat)
    ensures forall i :: 0 <= i < |s| ==> s[i] <= b
  {
    if s == [] then 0 else
      var h := Highest(s[..|s| - 1]);
      if h < s[|s| - 1] then s[|s| - 1] else h
  }

  /** A pass over the nodes that sends nothing leaves nothing to send. */
  lemma QuietMeansDone(g: Graph, send: Marks, recv: Marks)
    requires IsTree(g) && Safe(g, send, recv) && Quiet(g, send, recv)
    ensures forall i :: 0 <= i < |g| ==> send[i] == {} && recv[i] == {}
  {
    var parent, rank := Root(g);
    var bound := Highest(rank);
    forall c | 0 < c < |g| ensures Sent(g, send, c, parent[c]) {
      QuietReported(g, send, recv, parent, rank, bound, c);
    }
    forall i | 0 <= i < |g| ensures send[i] == {} && recv[i] == {} {
      QuietHeard(g, send, recv, parent, rank, i);
    }
  }

  // ------------------------------------------------------------- termination

  ghost function Outstanding(m: Marks): nat {
    if m == [] then 0 else |m[|m| - 1]| + Outstanding(m[..|m| - 1])
  }

  lemma {:induction false} OutstandingDrops(m: Marks, i: nat, j: nat)
    requires i < |m| && j in m[i]
    ensures Outstanding(Without(m, i, j)) == Outstanding(m) - 1
  {
    var r := Without(m, i, j);
    if i == |m| - 1 {
      assert r[..|r| - 1] == m[..|m| - 1];
    } else {
      assert r[..|r| - 1] == Without(m[..|m| - 1], i, j);
      OutstandingDrops(m[..|m| - 1], i, j);
    }
  }
}
