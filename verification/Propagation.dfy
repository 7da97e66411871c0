/**
 Whole runs of the join-tree message loop.  A state holds the "to send" and
 "to receive" sets, the clique tables, the separator tables, and the history:
 the messages sent so far and their marginal sums before clipping.
 */
module Propagation {
  import opened Trees
  import opened Tables
  import opened Schedule
  import opened Calibration

  type Edge = (nat, nat)

  datatype Network = Network(g: Graph, vars: seq<set<nat>>, card: seq<nat>)
  {
    /** The separator of two neighbouring cliques is their intersection. */
    function Sep(i: nat, j: nat): set<nat>
      requires i < |vars| && j < |vars|
    {
      vars[i] * vars[j]
    }

    ghost predicate Valid() {
      && IsTree(g) && |vars| == |g|
      && forall i :: 0 <= i < |g| ==> Legal(vars[i], card)
    }
  }

  datatype State = State(send: Marks, recv: Marks, tables: seq<Table>, seps: map<Edge, Table>,
                         raw: map<Edge, Table>, log: seq<Edge>)

  /** One separator table is shared by both directions of an edge. */
  function Key(i: nat, j: nat): Edge {
    if i < j then (i, j) else (j, i)
  }

  ghost predicate Shape(net: Network, st: State) {
    && |st.send| == |st.recv| == |st.tables| == |net.g| == |net.vars|
    && forall i, j {:trigger j in net.g[i]} :: 0 <= i < |net.g| && j in net.g[i] ==>
      j < |net.g| && Key(i, j) in st.seps && (i, j) in st.raw
  }

  ghost predicate TablesOk(net: Network, st: State)
    requires |st.tables| == |net.vars|
  {
    && (forall i :: 0 <= i < |st.tables| ==> Full(st.tables[i], net.vars[i], net.card) && Probabilities(st.tables[i]))
    && forall k :: k in st.raw ==> NonNegative(st.raw[k])
  }

  // ---------------------------------------------------------------- one message

  ghost predicate Ready(net: Network, st: State, i: nat, j: nat) {
    && |st.send| == |st.recv| == |net.g| && i < |net.g|
    && j in st.send[i] && st.recv[i] <= {j} && (i == 0 ==> st.recv[0] == {})
  }

  /** What pass_join_tree_message needs of the tables involved. */
  ghost predicate Fits(net: Network, st: State, i: nat, j: nat) {
    && i < |net.vars| == |st.tables| && j < |net.vars| && Key(i, j) in st.seps && (i, j) in st.raw
    && var e := net.Sep(i, j); var new_s := Marginal(st.tables[i], e); var old_s := st.seps[Key(i, j)];
       && Probabilities(st.tables[i])
       && (old_s == map[] || old_s.Keys == new_s.Keys)
       && Covers(Quotient(new_s, old_s), st.tables[j], e)
  }

  ghost function Receive(net: Network, st: State, i: nat, j: nat): Table
    requires Fits(net, st, i, j)
  {
    var e := net.Sep(i, j);
    Scale(st.tables[j], e, Quotient(Marginal(st.tables[i], e), st.seps[Key(i, j)]))
  }

  /** The state after node i has sent its message to node j. */
  ghost function Send(net: Network, st: State, i: nat, j: nat): State
    requires Fits(net, st, i, j) && i < |st.send| && j < |st.recv|
  {
    var e := net.Sep(i, j);
    State(Without(st.send, i, j), Without(st.recv, j, i),
          st.tables[j := Receive(net, st, i, j)],
          st.seps[Key(i, j) := Marginal(st.tables[i], e)],
          st.raw[(i, j) := RawTable(st.tables[i], e)],
          st.log + [(i, j)])
  }

  // -------------------------------------------------------------------- edges

  ghost predicate EdgeOk(net: Network, parent: seq<nat>, st: State, c: nat)
    requires Shape(net, st) && |parent| == |net.g| && c < |net.g|
  {
    var p := parent[c];
    p < |net.g| && p in net.g[c] && c in net.g[p] &&
    EdgeState(Sent(net.g, st.send, c, p), Sent(net.g, st.send, p, c), net.Sep(c, p),
              st.tables[c], st.tables[p], st.seps[Key(c, p)], st.raw[(c, p)], st.raw[(p, c)])
  }

  ghost predicate Hung(net: Network, parent: seq<nat>, rank: seq<nat>) {
    net.Valid() && Rooted(net.g, parent, rank)
  }

  lemma ParentLinks(net: Network, parent: seq<nat>, rank: seq<nat>, c: nat)
    requires Hung(net, parent, rank) && 0 < c < |net.g|
    ensures parent[c] < |net.g| && parent[c] in net.g[c] && c in net.g[parent[c]] && parent[c] != c
  {
    assert Hangs(net.g, parent, rank, c);
  }

  ghost predicate EdgesOk(net: Network, parent: seq<nat>, st: State)
    requires Shape(net, st) && |parent| == |net.g|
  {
    forall c :: 0 < c < |net.g| ==> EdgeOk(net, parent, st, c)
  }

  ghost predicate Inv(net: Network, parent: seq<nat>, rank: seq<nat>, st: State) {
    && Hung(net, parent, rank) && Shape(net, st)
    && Safe(net.g, st.send, st.recv) && TablesOk(net, st)
    && EdgesOk(net, parent, st)
  }

  lemma SameImages(net: Network, st: State, i: nat, j: nat)
    requires net.Valid() && Shape(net, st) && TablesOk(net, st) && i < |net.g| && j < |net.g|
    ensures SameImage(st.tables[i], st.tables[j], net.Sep(i, j))
  {
    var e := net.Sep(i, j);
    ImageOfFull(st.tables[i], net.vars[i], e, net.card);
    ImageOfFull(st.tables[j], net.vars[j], e, net.card);
    assert Image(st.tables[i], e) == Image(st.tables[j], e);
  }

  lemma SepSymmetric(net: Network, i: nat, j: nat)
    requires i < |net.vars| && j < |net.vars|
    ensures net.Sep(i, j) == net.Sep(j, i) && Key(i, j) == Key(j, i)
  {
  }

  /** A parent ready to send down to j has already heard from j. */
  lemma AnswerIsLate(net: Network, parent: seq<nat>, rank: seq<nat>, st: State, j: nat)
    requires Inv(net, parent, rank, st) && 0 < j < |net.g|
    requires parent[j] < |net.g| && Ready(net, st, parent[j], j)
    ensures Sent(net.g, st.send, j, parent[j]) && !Sent(net.g, st.send, parent[j], j)
  {
    var i := parent[j];
    StepKeepsSafe(net.g, st.send, st.recv, i, j);
    UpBeforeDown(net.g, Without(st.send, i, j), Without(st.recv, j, i), parent, rank, j);
  }

  /** A ready message fits, and the edge it travels on moves to its next state. */
  lemma TravelledEdge(net: Network, parent: seq<nat>, rank: seq<nat>, st: State, i: nat, j: nat)
    requires Inv(net, parent, rank, st) && Ready(net, st, i, j)
    ensures j < |net.g| && j in net.g[i] && i in net.g[j] && Fits(net, st, i, j)
    ensures Probabilities(Receive(net, st, i, j))
    ensures var e := net.Sep(i, j);
            var d := Receive(net, st, i, j); var new_s := Marginal(st.tables[i], e);
                var raw := RawTable(st.tables[i], e);
            if i != 0 && j == parent[i] then EdgeState(true, false, e, st.tables[i], d, new_s, raw, map[])
            else j != 0 && i == parent[j] && EdgeState(true, true, e, d, st.tables[i], new_s, st.raw[(j, i)], raw)
  {
    StepKeepsSafe(net.g, st.send, st.recv, i, j);
    assert j in net.g[i];
    SameImages(net, st, i, j);
    SepSymmetric(net, i, j);
    if i != 0 && j == parent[i] {
      ParentLinks(net, parent, rank, i);
      assert EdgeOk(net, parent, st, i);
      ReportUp(net.Sep(i, j), st.tables[i], st.tables[j]);
    } else {
      ParentLinks(net, parent, rank, j);
      assert EdgeOk(net, parent, st, j);
      AnswerIsLate(net, parent, rank, st, j);
      AnswerDown(net.Sep(i, j), st.tables[j], st.tables[i], st.seps[Key(i, j)], st.raw[(j, i)]);
    }
  }

  lemma ReportTravelled(net: Network, parent: seq<nat>, rank: seq<nat>, st: State, i: nat, j: nat)
    requires Inv(net, parent, rank, st) && Ready(net, st, i, j) && Fits(net, st, i, j) && j < |net.g|
    requires 0 < i && parent[i] == j && Shape(net, Send(net, st, i, j))
    ensures EdgeOk(net, parent, Send(net, st, i, j), i)
  {
    TravelledEdge(net, parent, rank, st, i, j);
    var st' := Send(net, st, i, j);
    assert Sent(net.g, st'.send, i, j);
    assert !Sent(net.g, st'.send, j, i) by {
      StepKeepsSafe(net.g, st.send, st.recv, i, j);
      if Sent(net.g, st.send, j, i) {
        UpBeforeDown(net.g, st.send, st.recv, parent, rank, i);
      }
    }
    assert st'.tables[i] == st.tables[i];
  }

  lemma AnswerTravelled(net: Network, parent: seq<nat>, rank: seq<nat>, st: State, i: nat, j: nat)
    requires Inv(net, parent, rank, st) && Ready(net, st, i, j) && Fits(net, st, i, j) && 0 < j < |net.g|
    requires parent[j] == i && Shape(net, Send(net, st, i, j))
    ensures EdgeOk(net, parent, Send(net, st, i, j), j)
  {
    ParentLinks(net, parent, rank, j);
    AnswerIsLate(net, parent, rank, st, j);
    assert i != 0 ==> j != parent[i] by {
      if i != 0 { assert Hangs(net.g, parent, rank, i) && Hangs(net.g, parent, rank, j); }
    }
    TravelledEdge(net, parent, rank, st, i, j);
    var st' := Send(net, st, i, j);
    assert Sent(net.g, st'.send, i, j) && Sent(net.g, st'.send, j, i);
    assert st'.tables[i] == st.tables[i] && st'.raw[(j, i)] == st.raw[(j, i)];
    SepSymmetric(net, i, j);
  }

  /** What a message from i to j leaves as it was on the edge above c. */
  lemma OtherEdgeKept(net: Network, parent: seq<nat>, rank: seq<nat>, st: State, i: nat, j: nat, c: nat)
    requires Hung(net, parent, rank) && Shape(net, st) && Safe(net.g, st.send, st.recv)
    requires Ready(net, st, i, j) && Fits(net, st, i, j) && j < |net.g| && Shape(net, Send(net, st, i, j))
    requires 0 < c < |net.g| && !(c == i && parent[c] == j) && !(c == j && parent[c] == i)
    ensures parent[c] < |net.g| && parent[c] in net.g[c] && c in net.g[parent[c]]
    ensures var st', p := Send(net, st, i, j), parent[c];
            && (Sent(net.g, st'.send, c, p) <==> Sent(net.g, st.send, c, p))
            && (Sent(net.g, st'.send, p, c) <==> Sent(net.g, st.send, p, c))
            && st'.seps[Key(c, p)] == st.seps[Key(c, p)]
            && st'.raw[(c, p)] == st.raw[(c, p)] && st'.raw[(p, c)] == st.raw[(p, c)]
  {
    StepKeepsSafe(net.g, st.send, st.recv, i, j);
    ParentLinks(net, parent, rank, c);
    assert Key(c, parent[c]) != Key(i, j);
  }

  /** Once a message has passed on another edge, its tables are changed at the parent at most,
      and not once both messages have passed. */
  lemma OtherTablesKept(net: Network, parent: seq<nat>, rank: seq<nat>, st: State, i: nat, j: nat, c: nat)
    requires Hung(net, parent, rank) && Shape(net, st) && Safe(net.g, st.send, st.recv)
    requires Ready(net, st, i, j) && j < |net.g| && 0 < c < |net.g| && !(c == j && parent[c] == i)
    requires parent[c] < |net.g| && parent[c] in net.g[c] && c in net.g[parent[c]]
    ensures Sent(net.g, st.send, c, parent[c]) && !(c == i && parent[c] == j) ==> j != c
    ensures Sent(net.g, st.send, parent[c], c) ==> j != c && j != parent[c]
  {
    StepKeepsSafe(net.g, st.send, st.recv, i, j);
    assert i in st.recv[j];
    if Sent(net.g, st.send, parent[c], c) {
      UpBeforeDown(net.g, st.send, st.recv, parent, rank, c);
      BothWaysDone(net.g, st.send, st.recv, c, parent[c]);
    }
  }

  lemma InvParts(net: Network, parent: seq<nat>, rank: seq<nat>, st: State, c: nat)
    requires Inv(net, parent, rank, st) && 0 < c < |net.g|
    ensures Hung(net, parent, rank) && Shape(net, st) && Safe(net.g, st.send, st.recv)
    ensures |parent| == |net.g| && EdgeOk(net, parent, st, c)
  {
  }

  /** Before the first message only the separator matters. */
  lemma NothingSent(e: set<nat>, tc: Table, tp: Table, sep: Table, rawUp: Table, rawDown: Table, tc': Table,
      tp': Table, rawUp': Table, rawDown': Table)
    requires EdgeState(false, false, e, tc, tp, sep, rawUp, rawDown)
    ensures EdgeState(false, false, e, tc', tp', sep, rawUp', rawDown')
  {
  }

  /** The state of an edge whose own messages, separator and sums stay the same. */
  lemma EdgeAfter(net: Network, parent: seq<nat>, st: State, st': State, c: nat, e: set<nat>, f: Table)
    requires Shape(net, st) && Shape(net, st') && |parent| == |net.g| && c < |net.g| && EdgeOk(net, parent, st, c)
    requires var p := parent[c];
             && (Sent(net.g, st'.send, c, p) <==> Sent(net.g, st.send, c, p))
             && (Sent(net.g, st'.send, p, c) <==> Sent(net.g, st.send, p, c))
             && st'.seps[Key(c, p)] == st.seps[Key(c, p)]
             && st'.raw[(c, p)] == st.raw[(c, p)] && st'.raw[(p, c)] == st.raw[(p, c)]
             && (Sent(net.g, st.send, p, c) || Sent(net.g, st.send, c, p) ==> st'.tables[c] == st.tables[c])
             && (Sent(net.g, st.send, p, c) ==> st'.tables[p] == st.tables[p])
             && (Sent(net.g, st.send, c, p) && st'.tables[p] != st.tables[p] ==>
               Covers(f, st.tables[p], e) && st'.tables[p] == Scale(st.tables[p], e, f))
    ensures EdgeOk(net, parent, st', c)
  {
    hide EdgeState, Scale;
    var p := parent[c];
    if Sent(net.g, st.send, p, c) {
    } else if Sent(net.g, st.send, c, p) {
      if st'.tables[p] != st.tables[p] {
        OtherMessage(net.Sep(c, p), st.tables[c], st.tables[p], st.seps[Key(c, p)], st.raw[(c, p)], st.raw[(p, c)],
                     e, f);
      }
    } else {
      NothingSent(net.Sep(c, p), st.tables[c], st.tables[p], st.seps[Key(c, p)], st.raw[(c, p)], st.raw[(p, c)],
                  st'.tables[c], st'.tables[p], st'.raw[(c, p)], st'.raw[(p, c)]);
    }
  }

  /** Every other edge stays in the state it was in. */
  lemma OtherEdgeOk(net: Network, parent: seq<nat>, rank: seq<nat>, st: State, i: nat, j: nat, c: nat)
    requires Inv(net, parent, rank, st) && Ready(net, st, i, j) && Fits(net, st, i, j) && j < |net.g|
    requires 0 < c < |net.g| && !(c == i && parent[c] == j) && !(c == j && parent[c] == i)
    requires Shape(net, Send(net, st, i, j))
    ensures EdgeOk(net, parent, Send(net, st, i, j), c)
  {
    hide Inv, Hung, Safe, TablesOk, EdgesOk, EdgeOk, Ready, Shape, Sent, Marginal, Quotient, Covers, Scale;
    InvParts(net, parent, rank, st, c);
    OtherEdgeKept(net, parent, rank, st, i, j, c);
    OtherTablesKept(net, parent, rank, st, i, j, c);
    var e := net.Sep(i, j);
    EdgeAfter(net, parent, st, Send(net, st, i, j), c, e, Quotient(Marginal(st.tables[i], e), st.seps[Key(i, j)]));
  }

  lemma SendKeepsShape(net: Network, st: State, i: nat, j: nat)
    requires Shape(net, st) && Fits(net, st, i, j)
    ensures Shape(net, Send(net, st, i, j))
  {
  }

  lemma RawIsNonNegative(t: Table, e: set<nat>)
    requires NonNegative(t)
    ensures NonNegative(RawTable(t, e))
  {
    forall s | s in RawTable(t, e) ensures RawTable(t, e)[s] >= 0.0 {
      RawBounds(t, e, s);
    }
  }

  lemma SendKeepsTables(net: Network, st: State, i: nat, j: nat)
    requires Shape(net, st) && TablesOk(net, st) && Fits(net, st, i, j)
    requires Probabilities(Receive(net, st, i, j))
    ensures |Send(net, st, i, j).tables| == |net.vars| && TablesOk(net, Send(net, st, i, j))
  {
    var st' := Send(net, st, i, j);
    var d := Receive(net, st, i, j);
    assert Full(d, net.vars[j], net.card) by {
      assert d.Keys == st.tables[j].Keys;
      assert Full(st.tables[j], net.vars[j], net.card);
    }
    forall k | 0 <= k < |st'.tables|
      ensures Full(st'.tables[k], net.vars[k], net.card) && Probabilities(st'.tables[k])
    {
      if k != j {
        assert Full(st.tables[k], net.vars[k], net.card) && Probabilities(st.tables[k]);
      }
    }
    RawIsNonNegative(st.tables[i], net.Sep(i, j));
  }

  lemma SendKeepsEdges(net: Network, parent: seq<nat>, rank: seq<nat>, st: State, i: nat, j: nat)
    requires Inv(net, parent, rank, st) && Ready(net, st, i, j) && Fits(net, st, i, j) && j < |net.g|
    requires Shape(net, Send(net, st, i, j))
    ensures EdgesOk(net, parent, Send(net, st, i, j))
  {
    var st' := Send(net, st, i, j);
    forall c | 0 < c < |net.g| ensures EdgeOk(net, parent, st', c) {
      if c == i && parent[c] == j {
        ReportTravelled(net, parent, rank, st, i, j);
      } else if c == j && parent[c] == i {
        AnswerTravelled(net, parent, rank, st, i, j);
      } else {
        OtherEdgeOk(net, parent, rank, st, i, j, c);
      }
    }
  }

  /** Every message the schedule allows keeps the invariant. */
  lemma SendKeepsInv(net: Network, parent: seq<nat>, rank: seq<nat>, st: State, i: nat, j: nat)
    requires Inv(net, parent, rank, st) && Ready(net, st, i, j)
    ensures Fits(net, st, i, j) && j < |net.g| && Inv(net, parent, rank, Send(net, st, i, j))
  {
    TravelledEdge(net, parent, rank, st, i, j);
    StepKeepsSafe(net.g, st.send, st.recv, i, j);
    SendKeepsShape(net, st, i, j);
    SendKeepsTables(net, st, i, j);
    SendKeepsEdges(net, parent, rank, st, i, j);
  }
}
