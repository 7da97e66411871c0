/**
 The message loop of the join-tree algorithm, run in place on the tables of the
 cliques and separators.
 */
module JoinTree {
  import opened Sequences
  import opened Trees
  import opened Tables
  import opened Schedule
  import opened Calibration
  import opened Propagation
  import opened Invariants
  import opened Forecast

  /** Everything that holds between messages. */
  ghost predicate Good(net: Network, parent: seq<nat>, rank: seq<nat>, start: seq<Table>, st: State) {
    && Inv(net, parent, rank, st) && LogOk(net, st) && |start| == |net.vars|
    && (forall x :: World(net, x) ==> StandsFor(net, parent, st, x, Product(CliqueWeights(net, start, x))))
    && ((forall i :: 0 <= i < |start| ==> Mass(start[i]) <= 1.0) ==> Light(st))
    && Foreseen(Job(net, parent, rank, start), st)
  }

  lemma SendKeepsGood(net: Network, parent: seq<nat>, rank: seq<nat>, start: seq<Table>, st: State, i: nat, j: nat)
    requires Good(net, parent, rank, start, st) && Ready(net, st, i, j)
    ensures Fits(net, st, i, j) && j < |net.g|
    ensures Good(net, parent, rank, start, Send(net, st, i, j))
    ensures Outstanding(Send(net, st, i, j).send) == Outstanding(st.send) - 1
  {
    SendKeepsInv(net, parent, rank, st, i, j);
    SendKeepsLog(net, st, i, j);
    var st' := Send(net, st, i, j);
    forall x | World(net, x) ensures StandsFor(net, parent, st', x, Product(CliqueWeights(net, start, x))) {
      SendKeepsJoint(net, parent, rank, st, i, j, x, Product(CliqueWeights(net, start, x)));
    }
    if Light(st) {
      SendKeepsLight(net, parent, rank, st, i, j);
    }
    SendKeepsForeseen(Job(net, parent, rank, start), st, i, j);
    OutstandingDrops(st.send, i, j);
  }

  // ------------------------------------------------------------------- the start

  ghost predicate Blank(m: map<Edge, Table>) {
    forall k :: k in m ==> m[k] == map[]
  }

  function DirectedEdges(g: Graph): set<Edge> {
    set i: nat, j: nat {:trigger j in g[i]} | i < |g| && j in g[i] :: (i, j)
  }

  /** Empty tables for the two directions of every edge. */
  function NoTables(g: Graph): (m: map<Edge, Table>)
    ensures Blank(m)
  {
    map e | e in DirectedEdges(g) :: map[]
  }

  /** Nothing is sent, everything is still to be sent. */
  ghost function Fresh(net: Network, tables: seq<Table>): State {
    State(net.g, net.g, tables, NoTables(net.g), NoTables(net.g), [])
  }

  lemma NoTablesHasEdges(net: Network, st: State)
    requires WellFormed(net.g) && |st.send| == |st.recv| == |st.tables| == |net.g| == |net.vars|
    requires st.seps == NoTables(net.g) && st.raw == NoTables(net.g)
    ensures Shape(net, st)
  {
    forall i, j {:trigger j in net.g[i]} | 0 <= i < |net.g| && j in net.g[i]
      ensures j < |net.g| && Key(i, j) in st.seps && (i, j) in st.raw
    {
      assert i in net.g[j];
    }
  }

  lemma ProductOfOnes(s: seq<real>)
    requires forall i :: 0 <= i < |s| ==> s[i] == 1.0
    ensures Product(s) == 1.0
  {
  }

  ghost predicate Initial(net: Network, tables: seq<Table>) {
    && |tables| == |net.vars|
    && forall i :: 0 <= i < |tables| ==> Full(tables[i], net.vars[i], net.card) && Probabilities(tables[i])
  }

  lemma FreshEdges(net: Network, parent: seq<nat>, rank: seq<nat>, st: State)
    requires Hung(net, parent, rank) && Shape(net, st)
    requires st.send == net.g && Blank(st.seps)
    ensures EdgesOk(net, parent, st)
  {
    forall c | 0 < c < |net.g| ensures EdgeOk(net, parent, st, c) {
      ParentLinks(net, parent, rank, c);
    }
  }

  lemma FreshIsSafe(net: Network, st: State)
    requires WellFormed(net.g) && st.send == st.recv == net.g && st.log == []
    ensures Safe(net.g, st.send, st.recv) && LogOk(net, st)
  {
  }

  lemma FreshStandsFor(net: Network, parent: seq<nat>, st: State, x: Assignment)
    requires |parent| == |net.vars| && Initial(net, st.tables) && Blank(st.seps) && World(net, x)
    ensures StandsFor(net, parent, st, x, Product(CliqueWeights(net, st.tables, x)))
  {
    forall i | 0 <= i < |st.tables| ensures Project(x, net.vars[i]) in st.tables[i] {
      assert Over(Project(x, net.vars[i]), net.vars[i], net.card);
      assert Full(st.tables[i], net.vars[i], net.card);
    }
    ProductOfOnes(SepWeights(net, parent, st.seps, x));
  }

  lemma FreshTables(net: Network, st: State)
    requires Initial(net, st.tables) && Blank(st.raw)
    ensures TablesOk(net, st)
  {
  }

  lemma FreshIsLight(st: State)
    requires Blank(st.raw) && forall i :: 0 <= i < |st.tables| ==> Mass(st.tables[i]) <= 1.0
    ensures Light(st)
  {
  }

  lemma {:induction false} NobodyHeard(w: Job, c: nat, a: Assignment, k: nat)
    requires w.Valid() && c < w.Size() && a in w.start[c] && k <= w.Size()
    ensures Weight(w, c, {}, a, k) == w.start[c][a]
  {
    if k > 0 { NobodyHeard(w, c, a, k - 1); }
  }

  lemma FreshIsForeseen(w: Job, st: State)
    requires w.Valid() && Shape(w.net, st) && st.send == w.net.g && w.start == st.tables
    ensures Foreseen(w, st)
  {
    forall c | 0 <= c < w.Size() ensures TableForeseen(w, st, c) {
      assert Reporters(w, st, c) == {};
      forall a | a in w.start[c] ensures Heard(w, c, {})[a] == w.start[c][a] {
        NobodyHeard(w, c, a, w.Size());
      }
    }
  }

  lemma FreshSize(net: Network, tables: seq<Table>)
    requires Initial(net, tables)
    ensures |tables| == |net.vars|
  {
  }

  lemma FreshIsGood(net: Network, parent: seq<nat>, rank: seq<nat>, st: State)
    requires Hung(net, parent, rank) && Initial(net, st.tables)
    requires st == Fresh(net, st.tables)
    ensures Good(net, parent, rank, st.tables, st)
  {
    hide Initial, Shape, TablesOk, Safe, EdgesOk, LogOk, StandsFor, Light, Mass, Product, CliqueWeights, World, Blank,
      Foreseen;
    if forall i :: 0 <= i < |st.tables| ==> Mass(st.tables[i]) <= 1.0 { FreshIsLight(st); }
    assert |st.tables| == |net.vars| by { FreshSize(net, st.tables); }
    NoTablesHasEdges(net, st);
    FreshTables(net, st);
    FreshEdges(net, parent, rank, st);
    FreshIsSafe(net, st);
    FreshIsForeseen(Job(net, parent, rank, st.tables), st);
    forall x | World(net, x) ensures StandsFor(net, parent, st, x, Product(CliqueWeights(net, st.tables, x))) {
      FreshStandsFor(net, parent, st, x);
    }
  }

  // --------------------------------------------------------------------- the end

  ghost predicate AllSent(net: Network, st: State)
    requires |st.send| == |st.recv| == |net.g|
  {
    forall i :: 0 <= i < |net.g| ==> st.send[i] == {} && st.recv[i] == {}
  }

  /** Of the two sums that cross the edge above c for s, the answer is at most 1,
      and so is the report unless the answer is 0. */
  ghost predicate BelowOne(w: Job, c: nat, s: Assignment)
    requires w.Valid() && 0 < c < w.Size()
  {
    Answer(w, c, s) <= 1.0 && (Report(w, c, s) <= 1.0 || Answer(w, c, s) == 0.0)
  }

  ghost predicate EdgeBelow(w: Job, c: nat)
    requires w.Valid() && 0 < c < w.Size()
  {
    ParentOf(w, c);
    forall s :: s in Image(w.start[c], w.Above(c)) ==> BelowOne(w, c, s)
  }

  /** The condition on the initial tables: no sum that matters exceeds 1. */
  ghost predicate StaysBelow(w: Job) {
    w.Valid() && forall c :: 0 < c < w.Size() ==> EdgeBelow(w, c)
  }

  /** The two cliques at the edge above c and its stored separator agree on s
      exactly when the clipping did not interfere there. */
  ghost predicate AgreesUnlessClipped(w: Job, st: State, c: nat)
    requires w.Valid() && Shape(w.net, st) && 0 < c < w.Size()
  {
    ParentOf(w, c);
    var p, sep, e := w.parent[c], st.seps[Key(c, w.parent[c])], w.Above(c);
    && sep.Keys == Image(st.tables[c], e) == Image(w.start[c], e)
    && forall s :: s in sep ==> (CalibratedAt(st.tables[c], st.tables[p], e, sep, s) <==> BelowOne(w, c, s))
  }

  lemma AllAnswered(w: Job, st: State, c: nat)
    requires Foreseen(w, st) && AllSent(w.net, st) && c < w.Size()
    ensures st.tables[c] == Final(w, c)
    ensures c != 0 ==> w.parent[c] < w.Size() && (c, w.parent[c]) in st.raw && (w.parent[c], c) in st.raw
    ensures c != 0 ==> st.raw[(c, w.parent[c])] == RawTable(Upward(w, c), w.Above(c))
    ensures c != 0 ==> st.raw[(w.parent[c], c)] == RawTable(Final(w, w.parent[c]), w.Above(c))
  {
    assert TableForeseen(w, st, c);
    if c == 0 {
      forall j | 0 <= j < w.Size() && w.IsChild(j, 0) ensures Sent(w.net.g, st.send, j, 0) {
        ParentOf(w, j);
      }
      HeardSame(w, 0, Reporters(w, st, 0), UpTo(w.Size()));
    } else {
      ParentOf(w, c);
      assert SumsForeseen(w, st, c);
    }
  }

  lemma AgreesAtTheEnd(w: Job, st: State, c: nat)
    requires Inv(w.net, w.parent, w.rank, st) && Foreseen(w, st) && AllSent(w.net, st) && 0 < c < w.Size()
    ensures AgreesUnlessClipped(w, st, c)
  {
    ParentOf(w, c);
    var p := w.parent[c];
    AllAnswered(w, st, c);
    AllAnswered(w, st, p);
    assert EdgeOk(w.net, w.parent, st, c);
    assert Sent(w.net.g, st.send, c, p) && Sent(w.net.g, st.send, p, c);
    SameImages(w.net, st, c, p);
    var e, sep := w.Above(c), st.seps[Key(c, p)];
    assert st.tables[c].Keys == w.start[c].Keys;
    assert Image(st.tables[c], e) == Image(w.start[c], e);
    forall s | s in sep
      ensures CalibratedAt(st.tables[c], st.tables[p], e, sep, s) <==> BelowOne(w, c, s)
    {
      Calibrated(e, st.tables[c], st.tables[p], sep, st.raw[(c, p)], st.raw[(p, c)], s);
    }
  }

  ghost predicate EdgeCalibrated(net: Network, st: State, i: nat, j: nat)
    requires Shape(net, st) && i < |net.g| && j in net.g[i]
  {
    var e := net.Sep(i, j);
    RawTable(st.tables[i], e) == st.seps[Key(i, j)] == RawTable(st.tables[j], e)
  }

  /** The two ends of every edge have the same marginal on the separator, and it
      is the stored separator table. */
  ghost predicate CalibratedTree(net: Network, st: State)
    requires Shape(net, st)
  {
    forall i, j {:trigger j in net.g[i]} :: 0 <= i < |net.g| && j in net.g[i] ==> EdgeCalibrated(net, st, i, j)
  }

  lemma EdgeCalibratedIff(w: Job, st: State, c: nat)
    requires Inv(w.net, w.parent, w.rank, st) && w.Valid() && 0 < c < w.Size()
    requires AgreesUnlessClipped(w, st, c)
    ensures w.parent[c] in w.net.g[c]
    ensures EdgeCalibrated(w.net, st, c, w.parent[c]) <==> EdgeBelow(w, c)
  {
    ParentOf(w, c);
    var p := w.parent[c];
    var e, sep := w.Above(c), st.seps[Key(c, p)];
    SameImages(w.net, st, c, p);
    var tc, tp := RawTable(st.tables[c], e), RawTable(st.tables[p], e);
    assert tc.Keys == tp.Keys == sep.Keys;
    forall s | s in sep ensures tc[s] == sep[s] == tp[s] <==> BelowOne(w, c, s) {
      assert CalibratedAt(st.tables[c], st.tables[p], e, sep, s) <==> BelowOne(w, c, s);
    }
  }

  /** The tree ends calibrated exactly when the initial tables stay below 1. */
  lemma CalibratedIffUnclipped(w: Job, st: State)
    requires Inv(w.net, w.parent, w.rank, st) && w.Valid()
    requires forall c :: 0 < c < w.Size() ==> AgreesUnlessClipped(w, st, c)
    ensures CalibratedTree(w.net, st) <==> StaysBelow(w)
  {
    forall c | 0 < c < w.Size() && AgreesUnlessClipped(w, st, c)
      ensures w.parent[c] in w.net.g[c]
      ensures EdgeCalibrated(w.net, st, c, w.parent[c]) <==> EdgeBelow(w, c)
    {
      EdgeCalibratedIff(w, st, c);
    }
    if StaysBelow(w) {
      forall i, j {:trigger j in w.net.g[i]} | 0 <= i < w.Size() && j in w.net.g[i]
        ensures EdgeCalibrated(w.net, st, i, j)
      {
        var c := ChildEnd(w.parent, i, j);
        SepSymmetric(w.net, i, j);
        assert EdgeBelow(w, c) && EdgeCalibrated(w.net, st, c, w.parent[c]);
      }
    } else {
      var c :| 0 < c < w.Size() && !EdgeBelow(w, c);
      assert !EdgeCalibrated(w.net, st, c, w.parent[c]);
    }
  }

  lemma EmptyFibre(t: Table, e: set<nat>, s: Assignment)
    requires s !in Image(t, e)
    ensures Raw(t, e, s) == 0.0
  {
    assert Fibre(t, e, s) == {};
  }

  lemma LightMeansBelow(w: Job, st: State, c: nat)
    requires Foreseen(w, st) && Light(st) && AllSent(w.net, st) && 0 < c < w.Size()
    ensures EdgeBelow(w, c)
  {
    ParentOf(w, c);
    AllAnswered(w, st, c);
    var e, p := w.Above(c), w.parent[c];
    forall s | s in Image(w.start[c], e) ensures BelowOne(w, c, s) {
      assert Answer(w, c, s) <= 1.0 by {
        if s in Image(Final(w, p), e) {
          assert AtMostOne(st.raw[(p, c)]) && st.raw[(p, c)][s] == Answer(w, c, s);
        } else {
          EmptyFibre(Final(w, p), e, s);
        }
      }
      assert Upward(w, c).Keys == w.start[c].Keys;
      assert AtMostOne(st.raw[(c, p)]) && st.raw[(c, p)][s] == Report(w, c, s);
    }
  }

  // ---------------------------------------------------------------- the branches

  lemma GoodSizes(net: Network, parent: seq<nat>, rank: seq<nat>, start: seq<Table>, st: State)
    requires Good(net, parent, rank, start, st)
    ensures |st.send| == |st.recv| == |net.g| > 0
  {
  }

  ghost predicate CanReport(net: Network, st: State, i: nat) {
    && |st.send| == |st.recv| == |net.g| && 0 < i < |net.g|
    && |st.send[i]| == |net.g[i]| && |st.recv[i]| == 1
  }

  lemma ReportReady(net: Network, parent: seq<nat>, rank: seq<nat>, start: seq<Table>, st: State, i: nat, to: nat)
    requires Good(net, parent, rank, start, st) && CanReport(net, st, i) && to in st.recv[i]
    ensures Ready(net, st, i, to) && Fits(net, st, i, to) && to < |net.g| && to != i
    ensures st.recv[i] == {to}
    ensures Good(net, parent, rank, start, Send(net, st, i, to))
    ensures Outstanding(Send(net, st, i, to).send) == Outstanding(st.send) - 1
  {
    SameSize(st.send[i], net.g[i]);
    assert st.recv[i] == {to} by {
      assert |st.recv[i] - {to}| == 0;
    }
    SendKeepsGood(net, parent, rank, start, st, i, to);
  }

  /** Taking `to` out, recording the message and putting `to` back. */
  lemma PutBack(m: Marks, i: nat, to: nat)
    requires i < |m| && to < |m| && i != to && to in m[i]
    ensures var r := m[i := m[i] - {to}]; var q := r[to := r[to] - {i}]; q[i := q[i] + {to}] == Without(m, to, i)
  {
    assert m[i] - {to} + {to} == m[i];
  }

  ghost predicate CanAnswer(net: Network, st: State, i: nat) {
    |st.send| == |st.recv| == |net.g| && i < |net.g| && |st.recv[i]| == 0 && |st.send[i]| > 0
  }

  lemma AnswerReady(net: Network, parent: seq<nat>, rank: seq<nat>, start: seq<Table>, st: State, i: nat, to: nat)
    requires Good(net, parent, rank, start, st) && CanAnswer(net, st, i) && to in st.send[i]
    ensures Ready(net, st, i, to) && Fits(net, st, i, to) && to < |net.g|
    ensures Good(net, parent, rank, start, Send(net, st, i, to))
    ensures Outstanding(Send(net, st, i, to).send) == Outstanding(st.send) - 1
  {
    assert st.recv[i] == {};
    SendKeepsGood(net, parent, rank, start, st, i, to);
  }

  /** Neither branch of the loop body applies to node i. */
  ghost predicate Idle(net: Network, st: State, i: nat) {
    !CanReport(net, st, i) && !CanAnswer(net, st, i)
  }

  /** What the run has achieved: every directed edge has carried exactly one
      message, each in its turn; the tables are those that the initial tables
      determine, whatever order the run took, and still stand for the distribution
      they started with; neighbours agree exactly where no sum that matters exceeds 1,
      so everywhere if no clique started with more than one unit of weight. */
  ghost predicate Finished(w: Job, st: State) {
    && w.Valid() && Shape(w.net, st) && AllSent(w.net, st)
    && Ordered(w.net.g, st.log) && (forall i: nat, j: nat :: (i, j) in st.log <==> i < w.Size() && j in w.net.g[i])
    && (forall c :: 0 <= c < w.Size() ==> st.tables[c] == Final(w, c))
    && (forall x :: World(w.net, x) ==> StandsFor(w.net, w.parent, st, x, Product(CliqueWeights(w.net, w.start, x))))
    && (forall c :: 0 < c < w.Size() ==> AgreesUnlessClipped(w, st, c))
    && (CalibratedTree(w.net, st) <==> StaysBelow(w))
    && ((forall i :: 0 <= i < |w.start| ==> Mass(w.start[i]) <= 1.0) ==> CalibratedTree(w.net, st))
  }

  lemma IdleIsQuiet(net: Network, st: State)
    requires |st.send| == |st.recv| == |net.g| && forall k :: 0 < k < |net.g| ==> Idle(net, st, k)
    requires |net.g| > 0 && |st.recv[0]| == 0 ==> |st.send[0]| == 0
    ensures Quiet(net.g, st.send, st.recv)
  {
    forall k | 0 < k < |net.g|
      ensures !(|st.send[k]| == |net.g[k]| && |st.recv[k]| == 1) && !(|st.recv[k]| == 0 && |st.send[k]| > 0)
    {
      assert Idle(net, st, k);
    }
  }

  lemma QuietIsFinished(net: Network, parent: seq<nat>, rank: seq<nat>, start: seq<Table>, st: State)
    requires Good(net, parent, rank, start, st) && Quiet(net.g, st.send, st.recv)
    ensures Finished(Job(net, parent, rank, start), st)
  {
    var w := Job(net, parent, rank, start);
    QuietMeansDone(net.g, st.send, st.recv);
    forall i: nat, j: nat ensures (i, j) in st.log <==> i < |net.g| && j in net.g[i] {
      assert (i, j) in st.log <==> Sent(net.g, st.send, i, j);
    }
    forall c | 0 <= c < |net.g| ensures st.tables[c] == Final(w, c) {
      AllAnswered(w, st, c);
    }
    forall c | 0 < c < |net.g| ensures AgreesUnlessClipped(w, st, c) {
      AgreesAtTheEnd(w, st, c);
    }
    CalibratedIffUnclipped(w, st);
    if forall i :: 0 <= i < |start| ==> Mass(start[i]) <= 1.0 {
      forall c | 0 < c < |net.g| ensures EdgeBelow(w, c) {
        LightMeansBelow(w, st, c);
      }
    }
  }

  // --------------------------------------------------------- the loop itself

  class MessageLoop {
    const net: Network
    var tables: seq<Table>
    var seps: map<Edge, Table>
    var toSend: Marks
    var toReceive: Marks
    ghost const parent: seq<nat>
    ghost const rank: seq<nat>
    ghost const start: seq<Table>
    ghost var raw: map<Edge, Table>
    ghost var log: seq<Edge>

    ghost function Now(): State
      reads this
    {
      State(toSend, toReceive, tables, seps, raw, log)
    }

    ghost predicate Valid()
      reads this
    {
      Good(net, parent, rank, start, Now())
    }

    /** The separators of a new join tree are empty, and everything is still to be sent. */
    constructor (net: Network, tables: seq<Table>)
      requires net.Valid() && Initial(net, tables)
      ensures Valid() && this.net == net && start == tables
      ensures Now() == Fresh(net, tables)
    {
      hide Good, Initial;
      this.net := net;
      this.tables := tables;
      toSend, toReceive := net.g, net.g;
      seps := NoTables(net.g);
      ghost var up, ranks := Root(net.g);
      parent, rank, start := up, ranks, tables;
      raw, log := NoTables(net.g), [];
      new;
      FreshIsGood(net, parent, rank, Now());
    }

    /** pass_join_tree_message: marginalise the sender, divide by the old
        separator, multiply into the receiver, store the new separator. */
    method PassMessage(from: nat, to: nat)
      requires |toSend| == |toReceive| == |net.g| && Fits(net, Now(), from, to)
      modifies this`tables, this`seps, this`raw
      ensures tables == old(tables)[to := old(Receive(net, Now(), from, to))]
      ensures seps == old(seps)[Key(from, to) := old(Marginal(tables[from], net.Sep(from, to)))]
      ensures raw == old(raw)[(from, to) := old(RawTable(tables[from], net.Sep(from, to)))]
    {
      var e := net.Sep(from, to);
      raw := raw[(from, to) := RawTable(tables[from], e)];
      var new_s := Marginalize(tables[from], e);
      var temp := Divide(new_s, seps[Key(from, to)]);
      var d := Multiply(tables[to], e, temp);
      tables := tables[to := d];
      seps := seps[Key(from, to) := new_s];
    }

    /** A node that has sent nothing and lacks one message sends to the missing node. */
    method Report(i: nat)
      requires Valid() && CanReport(net, Now(), i)
      modifies this`tables, this`seps, this`raw, this`toSend, this`toReceive, this`log
      ensures Valid() && |toSend| == |toReceive| == |net.g| && Outstanding(toSend) == old(Outstanding(toSend)) - 1
      ensures exists to: nat ::
        old(Ready(net, Now(), i, to) && Fits(net, Now(), i, to)) && Now() == old(Send(net, Now(), i, to))
    {
      hide Good, Fits, Ready;
      ghost var before := Now();
      assert CanReport(net, before, i);
      var to :| to in toReceive[i];
      ReportReady(net, parent, rank, start, before, i, to);
      toReceive := toReceive[i := toReceive[i] - {to}];
      PassMessage(i, to);
      toSend := toSend[i := toSend[i] - {to}];
      toReceive := toReceive[to := toReceive[to] - {i}];
      toReceive := toReceive[i := toReceive[i] + {to}];
      PutBack(before.recv, i, to);
      log := log + [(i, to)];
      assert Now() == Send(net, before, i, to);
    }

    /** A node that has heard from everybody sends one of its outstanding messages. */
    method Answer(i: nat)
      requires Valid() && CanAnswer(net, Now(), i)
      modifies this`tables, this`seps, this`raw, this`toSend, this`toReceive, this`log
      ensures Valid() && |toSend| == |toReceive| == |net.g| && Outstanding(toSend) == old(Outstanding(toSend)) - 1
      ensures exists to: nat ::
        old(Ready(net, Now(), i, to) && Fits(net, Now(), i, to)) && Now() == old(Send(net, Now(), i, to))
    {
      hide Good;
      ghost var before := Now();
      assert CanAnswer(net, before, i);
      var to :| to in toSend[i];
      AnswerReady(net, parent, rank, start, before, i, to);
      toSend := toSend[i := toSend[i] - {to}];
      toReceive := toReceive[to := toReceive[to] - {i}];
      PassMessage(i, to);
      log := log + [(i, to)];
      assert Now() == Send(net, before, i, to);
    }

    /** One pass over the nodes, the root last. */
    method Pass() returns (sent: bool)
      requires Valid() && |toSend| == |toReceive| == |net.g| > 0
      modifies this`tables, this`seps, this`raw, this`toSend, this`toReceive, this`log
      ensures Valid() && |toSend| == |toReceive| == |net.g|
      ensures sent ==> Outstanding(toSend) < old(Outstanding(toSend))
      ensures !sent ==> Now() == old(Now()) && Quiet(net.g, toSend, toReceive)
    {
      hide Good;
      sent := false;
      for i := 1 to |toSend|
        invariant Valid() && |toSend| == |toReceive| == |net.g|
        invariant sent ==> Outstanding(toSend) < old(Outstanding(toSend))
        invariant !sent ==> Now() == old(Now()) && forall k :: 0 < k < i ==> Idle(net, Now(), k)
      {
        if |toSend[i]| == |net.g[i]| && |toReceive[i]| == 1 {
          Report(i);
          sent := true;
        } else if |toReceive[i]| == 0 && |toSend[i]| > 0 {
          Answer(i);
          sent := true;
        }
      }
      if |toReceive[0]| == 0 {
        while |toSend[0]| > 0
          invariant Valid() && |toSend| == |toReceive| == |net.g| && |toReceive[0]| == 0
          invariant sent ==> Outstanding(toSend) < old(Outstanding(toSend))
          invariant !sent ==> Now() == old(Now()) && forall k :: 0 < k < |net.g| ==> Idle(net, Now(), k)
          decreases Outstanding(toSend)
        {
          Answer(0);
          sent := true;
        }
      }
      if !sent {
        IdleIsQuiet(net, Now());
      }
    }

    /** The message loop: passes over the nodes until a pass sends nothing. */
    method Propagate()
      requires Valid()
      modifies this`tables, this`seps, this`raw, this`toSend, this`toReceive, this`log
      ensures Valid() && Finished(Job(net, parent, rank, start), Now())
    {
      hide Good;
      var sent := true;
      GoodSizes(net, parent, rank, start, Now());
      while sent
        invariant Valid() && |toSend| == |toReceive| == |net.g| > 0
        invariant !sent ==> Quiet(net.g, toSend, toReceive)
        decreases Outstanding(toSend) + if sent then 1 else 0
      {
        sent := Pass();
      }
      QuietIsFinished(net, parent, rank, start, Now());
    }
  }
}
