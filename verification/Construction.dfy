/**
 Making the join tree of a Bayesian network and asking it for the distribution of a node.
 */
module Construction {
  import opened Sequences
  import opened Trees
  import opened Tables
  import opened Summation
  import opened Bayes
  import opened Propagation
  import opened Forecast
  import opened Elimination
  import opened JoinTree
  import opened Inference
  import Odometer

  /** The join tree's cliques hold nodes of the network. */
  ghost predicate Matches(b: BayesNet, net: Network) {
    b.Valid() && net.Valid() && net.card == b.card
  }

  // --------------------------------------------------------------- one assignment

  /** The nodes of a clique in ascending order. */
  function Ascending(vars: set<nat>, n: nat): seq<nat> {
    if n == 0 then []
    else if n - 1 in vars then Ascending(vars, n - 1) + [n - 1]
    else Ascending(vars, n - 1)
  }

  lemma {:induction false} AscendingIs(vars: set<nat>, n: nat)
    ensures forall v: nat {:trigger v in Ascending(vars, n)} :: v in Ascending(vars, n) <==> v < n && v in vars
    ensures Distinct(Ascending(vars, n))
  {
    if n > 0 {
      AscendingIs(vars, n - 1);
      var r := Ascending(vars, n - 1);
      assert forall k :: 0 <= k < |r| ==> r[k] in r;
    }
  }

  function Members(s: seq<nat>): (r: set<nat>)
    ensures forall v: nat {:trigger v in r} :: v in r <==> v in s
  {
    set v | v in s
  }

  lemma MoreMembers(s: seq<nat>, j: nat)
    requires j < |s|
    ensures Members(s[..j + 1]) == Members(s[..j]) + {s[j]}
  {
    assert s[..j + 1] == s[..j] + [s[j]];
  }

  /** 1 for an assignment that agrees with the evidence, 0 for any other. */
  method WeighEvidence(b: BayesNet, indices: seq<nat>, value: Assignment) returns (p: real)
    requires value.Keys == Members(indices)
    ensures p == if Agrees(b, value.Keys, value) then 1.0 else 0.0
  {
    p := 1.0;
    for j := 0 to |indices|
      invariant p == if Agrees(b, Members(indices[..j]), value) then 1.0 else 0.0
    {
      MoreMembers(indices, j);
      if indices[j] in b.evidence {
        if value[indices[j]] != b.evidence[indices[j]] {
          p := 0.0;
        }
      }
    }
    assert indices[..|indices|] == indices;
  }

  /** The nodes whose table has gone to a clique before i, or to i if they are in `done`. */
  ghost predicate Assigned(b: BayesNet, vars: seq<set<nat>>, assignedTo: seq<nat>, i: nat, done: set<nat>)
    requires b.Valid()
  {
    && |assignedTo| == b.Size()
    && forall v :: 0 <= v < b.Size() ==>
      var h := Home(b, vars, v);
      assignedTo[v] == h || (assignedTo[v] == |vars| && (h > i || (h == i && v !in done)))
  }

  /** The test the code makes for node v at clique i. */
  lemma TakenHere(b: BayesNet, vars: seq<set<nat>>, assignedTo: seq<nat>, i: nat, done: set<nat>, v: nat)
    requires b.Valid() && Assigned(b, vars, assignedTo, i, done) && v < b.Size() && i < |vars| && v in vars[i]
    ensures b.parents[v] <= vars[i] && (i == assignedTo[v] || assignedTo[v] == |vars|) <==> Home(b, vars, v) == i
  {
    assert b.Family(v) <= vars[i] <==> b.parents[v] <= vars[i];
  }

  lemma OneMoreNode(b: BayesNet, d: set<nat>, v: nat, x: Assignment)
    requires b.Valid() && v < b.Size() && v !in d
    ensures Cpts(b, d + {v}, x, b.Size()) == Times(Cpts(b, d, x, b.Size()), Cpt(b, v, x))
  {
    CptsUnion(b, d, {v}, x, b.Size());
    CptsSingle(b, v, x, b.Size());
  }

  /** p times the probabilities of those nodes in `done` whose table goes to clique i. */
  ghost function Multiplied(b: BayesNet, vars: seq<set<nat>>, i: nat, value: Assignment, p: real, done: set<nat>): real
    requires b.Valid()
  {
    Times(Cpts(b, HousedIn(b, vars, {i}) * done, value, b.Size()), p)
  }

  lemma NothingMultiplied(b: BayesNet, vars: seq<set<nat>>, i: nat, value: Assignment, p: real)
    requires b.Valid()
    ensures Multiplied(b, vars, i, value, p, {}) == p
  {
    EmptyProduct(b, value, b.Size());
    assert HousedIn(b, vars, {i}) * {} == {};
  }

  lemma MultiplyOne(b: BayesNet, vars: seq<set<nat>>, i: nat, value: Assignment, p: real, done: set<nat>, v: nat)
    requires b.Valid() && v < b.Size() && v !in done
    ensures Multiplied(b, vars, i, value, p, done + {v}) ==
            if Home(b, vars, v) == i then Times(Multiplied(b, vars, i, value, p, done), Cpt(b, v, value))
            else Multiplied(b, vars, i, value, p, done)
  {
    var d := HousedIn(b, vars, {i}) * done;
    if Home(b, vars, v) == i {
      assert HousedIn(b, vars, {i}) * (done + {v}) == d + {v};
      OneMoreNode(b, d, v, value);
      MixLeft(Cpts(b, d, value, b.Size()), p, Multiplied(b, vars, i, value, p, done), Cpt(b, v, value));
    } else {
      assert HousedIn(b, vars, {i}) * (done + {v}) == d;
    }
  }

  lemma ProbabilityOf(b: BayesNet, v: nat, vars: set<nat>, value: Assignment)
    requires b.Valid() && v < b.Size() && b.Family(v) <= vars && Over(value, vars, b.card)
    ensures Project(value, b.Family(v)) in b.cpt[v] && b.cpt[v][Project(value, b.Family(v))] == Cpt(b, v, value)
  {
    assert Full(b.cpt[v], b.Family(v), b.card);
    assert Over(Project(value, b.Family(v)), b.Family(v), b.card);
  }

  lemma NotYet(s: seq<nat>, j: nat)
    requires Distinct(s) && j < |s|
    ensures s[j] !in Members(s[..j])
  {
  }

  lemma OverSized(value: Assignment, vars: set<nat>, card: seq<nat>)
    requires Over(value, vars, card)
    ensures value.Keys == vars && forall v :: v in vars ==> v < |card| && value[v] < card[v]
  {
  }

  lemma AssignedSize(b: BayesNet, vars: seq<set<nat>>, assignedTo: seq<nat>, i: nat, done: set<nat>)
    requires b.Valid() && Assigned(b, vars, assignedTo, i, done)
    ensures |assignedTo| == b.Size()
  {
  }

  lemma Take(b: BayesNet, vars: seq<set<nat>>, assignedTo: seq<nat>, i: nat, done: set<nat>, v: nat)
    requires b.Valid() && Assigned(b, vars, assignedTo, i, done) && v < b.Size() == |assignedTo|
    ensures Home(b, vars, v) == i ==> Assigned(b, vars, assignedTo[v := i], i, done + {v})
    ensures Home(b, vars, v) != i ==> Assigned(b, vars, assignedTo, i, done + {v})
  {
  }

  lemma EveryoneDone(b: BayesNet, vars: seq<set<nat>>, assignedTo: seq<nat>, i: nat, done: set<nat>)
    requires b.Valid() && Assigned(b, vars, assignedTo, i, done) && i < |vars| && vars[i] <= done
    ensures Assigned(b, vars, assignedTo, i, vars[i]) && Assigned(b, vars, assignedTo, i + 1, {})
  {
    forall v | 0 <= v < b.Size() && Home(b, vars, v) == i ensures v in vars[i] {
      assert v in b.Family(v);
    }
  }

  /** Multiply p by the probability of each node of the clique whose table goes to it. */
  method MultiplyNodes(b: BayesNet, vars: seq<set<nat>>, i: nat, indices: seq<nat>, value: Assignment, p: real,
      assignedTo: seq<nat>, ghost done: set<nat>) returns (q: real, assignedTo': seq<nat>)
    requires b.Valid() && i < |vars| && indices == Ascending(vars[i], b.Size())
    requires Over(value, vars[i], b.card) && Assigned(b, vars, assignedTo, i, done)
    ensures q == Multiplied(b, vars, i, value, p, vars[i])
    ensures Assigned(b, vars, assignedTo', i, vars[i])
  {
    hide Multiplied, Assigned, Cpt, Over;
    AscendingIs(vars[i], b.Size());
    q, assignedTo' := p, assignedTo;
    NothingMultiplied(b, vars, i, value, p);
    AssignedSize(b, vars, assignedTo, i, done);
    assert Members(indices[..0]) == {} && done + {} == done;
    for j := 0 to |indices|
      invariant |assignedTo'| == b.Size() && Assigned(b, vars, assignedTo', i, done + Members(indices[..j]))
      invariant q == Multiplied(b, vars, i, value, p, Members(indices[..j]))
    {
      var idx := indices[j];
      assert idx in indices;
      MoreMembers(indices, j);
      NotYet(indices, j);
      TakenHere(b, vars, assignedTo', i, done + Members(indices[..j]), idx);
      MultiplyOne(b, vars, i, value, p, Members(indices[..j]), idx);
      Take(b, vars, assignedTo', i, done + Members(indices[..j]), idx);
      assert done + Members(indices[..j]) + {idx} == done + Members(indices[..j + 1]);
      if b.parents[idx] <= vars[i] && (i == assignedTo'[idx] || assignedTo'[idx] == |vars|) {
        assignedTo' := assignedTo'[idx := i];
        ProbabilityOf(b, idx, vars[i], value);
        q := q * b.cpt[idx][Project(value, b.Family(idx))];
      }
    }
    assert indices[..|indices|] == indices;
    assert Members(indices) == vars[i] by { OverSized(value, vars[i], b.card); }
    EveryoneDone(b, vars, assignedTo', i, done + vars[i]);
  }

  // -------------------------------------------------------------------- one clique

  lemma EntryIs(b: BayesNet, vars: seq<set<nat>>, i: nat, value: Assignment)
    requires b.Valid() && i < |vars|
    ensures Multiplied(b, vars, i, value, if Agrees(b, value.Keys, value) then 1.0 else 0.0, vars[i]) ==
            Entry(b, vars, i, value)
  {
    forall v | v in HousedIn(b, vars, {i}) ensures v in vars[i] {
      assert v in b.Family(v);
    }
    assert HousedIn(b, vars, {i}) * vars[i] == HousedIn(b, vars, {i});
  }

  function Counts(b: BayesNet): map<nat, nat> {
    map v | v in b.Nodes() :: b.card[v]
  }

  lemma {:induction false} DistinctSize(s: seq<nat>)
    requires Distinct(s)
    ensures |Members(s)| == |s|
  {
    if s != [] {
      var j: nat := |s| - 1;
      DistinctSize(s[..j]);
      MoreMembers(s, j);
      NotYet(s, j);
      assert s[..j + 1] == s;
    } else {
      assert Members(s) == {};
    }
  }

  lemma ListIsRanged(b: BayesNet, vars: set<nat>)
    requires b.Valid() && Legal(vars, b.card)
    ensures Odometer.Ranged(Ascending(vars, b.Size()), Counts(b))
    ensures Members(Ascending(vars, b.Size())) == vars && |Ascending(vars, b.Size())| == |vars|
  {
    AscendingIs(vars, b.Size());
    DistinctSize(Ascending(vars, b.Size()));
    assert Members(Ascending(vars, b.Size())) == vars;
  }

  /** What the odometer counts through are the legal assignments. */
  lemma FitsIsOver(b: BayesNet, vars: set<nat>, a: Assignment)
    requires b.Valid() && Legal(vars, b.card)
    ensures Odometer.Ranged(Ascending(vars, b.Size()), Counts(b))
    ensures Odometer.Fits(Ascending(vars, b.Size()), Counts(b), a) <==> Over(a, vars, b.card)
  {
    ListIsRanged(b, vars);
    AscendingIs(vars, b.Size());
    var s := Ascending(vars, b.Size());
    if Odometer.Fits(s, Counts(b), a) {
      forall v ensures v in a.Keys <==> v in vars {
        assert v in s ==> v in a;
      }
      forall v | v in vars ensures v < |b.card| && a[v] < b.card[v] {
        assert v in s;
      }
    } else if Over(a, vars, b.card) {
      assert |a| == |a.Keys|;
      assert |a| == |s|;
      forall v | v in s ensures v in a && a[v] < Odometer.Limit(Counts(b), v) {
        assert v in vars;
      }
    }
  }

  ghost predicate Filled(b: BayesNet, vars: seq<set<nat>>, i: nat, t: Table, visited: seq<Assignment>)
    requires b.Valid()
  {
    (forall a :: a in t <==> a in visited) && forall a :: a in t ==> t[a] == Entry(b, vars, i, a)
  }

  lemma FillOne(b: BayesNet, vars: seq<set<nat>>, i: nat, t: Table, visited: seq<Assignment>, a: Assignment)
    requires b.Valid() && Filled(b, vars, i, t, visited)
    ensures Filled(b, vars, i, t[a := Entry(b, vars, i, a)], visited + [a])
  {
  }

  lemma FilledIsStart(b: BayesNet, vars: seq<set<nat>>, i: nat, t: Table, visited: seq<Assignment>)
    requires b.Valid() && i < |vars| && Legal(vars[i], b.card) && Filled(b, vars, i, t, visited)
    requires Odometer.Ranged(Ascending(vars[i], b.Size()), Counts(b))
    requires Odometer.InOrder(Ascending(vars[i], b.Size()), Counts(b), visited)
    requires |visited| == Odometer.Combinations(Ascending(vars[i], b.Size()), Counts(b))
    ensures IsStart(b, vars, i, t)
  {
    hide Entry;
    var s := Ascending(vars[i], b.Size());
    forall a ensures a in t <==> Over(a, vars[i], b.card) {
      FitsIsOver(b, vars[i], a);
      if Odometer.Fits(s, Counts(b), a) {
        Odometer.InOrderIsComplete(s, Counts(b), visited, a);
      }
    }
  }

  lemma FilledAtFirst(b: BayesNet, vars: seq<set<nat>>, i: nat)
    requires b.Valid()
    ensures Filled(b, vars, i, map[], [])
  {
  }

  /** Count through the assignments of clique i and weigh each of them. */
  method FillTable(b: BayesNet, vars: seq<set<nat>>, i: nat, assignedTo: seq<nat>)
      returns (t: Table, assignedTo': seq<nat>)
    requires b.Valid() && i < |vars| && Legal(vars[i], b.card) && Assigned(b, vars, assignedTo, i, {})
    ensures IsStart(b, vars, i, t) && Assigned(b, vars, assignedTo', i + 1, {})
  {
    hide Odometer.Ranged, Odometer.Within, Odometer.Place, Odometer.Combinations, Odometer.InOrder;
    hide Entry, Over, IsStart, Filled, Assigned, Multiplied, Legal;
    var indices := Ascending(vars[i], b.Size());
    var counts := Counts(b);
    ListIsRanged(b, vars[i]);
    t, assignedTo' := map[], assignedTo;
    ghost var visited: seq<Assignment>, done: set<nat> := [], {};
    FilledAtFirst(b, vars, i);
    Odometer.InOrderStarts(indices, counts);
    var value := Odometer.FirstParentAssignment(indices, counts);
    var more := true;
    while more
      invariant Assigned(b, vars, assignedTo', i, done) && (more || done == vars[i])
      invariant Filled(b, vars, i, t, visited) && Odometer.InOrder(indices, counts, visited)
      invariant Odometer.Fits(indices, counts, value)
      invariant more ==> Odometer.Place(indices, counts, value) == |visited|
      invariant !more ==> |visited| == Odometer.Combinations(indices, counts)
      decreases Odometer.Combinations(indices, counts) - |visited| + if more then 1 else 0
    {
      FitsIsOver(b, vars[i], value);
      Odometer.PlaceBelowCombinations(indices, counts, value);
      assert value.Keys == vars[i] by { OverSized(value, vars[i], b.card); }
      var p := WeighEvidence(b, indices, value);
      p, assignedTo' := MultiplyNodes(b, vars, i, indices, value, p, assignedTo', done);
      EntryIs(b, vars, i, value);
      FillOne(b, vars, i, t, visited, value);
      t := t[value := p];
      Odometer.InOrderGrows(indices, counts, visited, value);
      visited, done := visited + [value], vars[i];
      value, more := Odometer.NextParentAssignment(indices, counts, value);
    }
    FilledIsStart(b, vars, i, t, visited);
    EveryoneDone(b, vars, assignedTo', i, done);
  }

  lemma NobodyAssigned(b: BayesNet, vars: seq<set<nat>>, assignedTo: seq<nat>)
    requires b.Valid() && |assignedTo| == b.Size() && forall v :: 0 <= v < b.Size() ==> assignedTo[v] == |vars|
    ensures Assigned(b, vars, assignedTo, 0, {})
  {
  }

  /** The first tables of all cliques. */
  method Initialise(b: BayesNet, net: Network) returns (tables: seq<Table>)
    requires Matches(b, net)
    ensures StartsFrom(b, net.vars, tables)
  {
    var assignedTo: seq<nat> := seq(b.Size(), v => |net.vars|);
    NobodyAssigned(b, net.vars, assignedTo);
    tables := [];
    for i := 0 to |net.vars|
      invariant |tables| == i && Assigned(b, net.vars, assignedTo, i, {})
      invariant forall k :: 0 <= k < i ==> IsStart(b, net.vars, k, tables[k])
    {
      var t;
      t, assignedTo := FillTable(b, net.vars, i, assignedTo);
      tables := tables + [t];
    }
  }

  // ---------------------------------------------------------------- the whole tree

  lemma StartIsInitial(b: BayesNet, net: Network, tables: seq<Table>)
    requires Matches(b, net) && StartsFrom(b, net.vars, tables)
    ensures Initial(net, tables)
  {
    forall i | 0 <= i < |tables| ensures Full(tables[i], net.vars[i], net.card) && Probabilities(tables[i]) {
      assert IsStart(b, net.vars, i, tables[i]);
      forall a | a in tables[i] ensures 0.0 <= tables[i][a] <= 1.0 {
        CptsFewer(b, {}, HousedIn(b, net.vars, {i}), a, b.Size());
        EmptyProduct(b, a, b.Size());
      }
    }
  }

  /** Neighbours agree, and every clique has the exact probabilities of its nodes together with the evidence. */
  ghost predicate Exact(b: BayesNet, net: Network, st: State)
    requires b.Valid()
  {
    && Shape(net, st) && CalibratedTree(net, st)
    && (forall c :: 0 <= c < |net.g| ==> Full(st.tables[c], net.vars[c], b.card))
    && forall c, a :: 0 <= c < |net.g| && a in st.tables[c] ==> st.tables[c][a] == Probability(b, net.vars[c], a)
  }

  /** What the code asks of its callers, families that fit into cliques, and rows that sum to at most 1. */
  ghost predicate Sufficient(b: BayesNet, net: Network) {
    Matches(b, net) && PathCondition(net) && FamiliesHoused(b, net.vars) && RowsBelow(b)
  }

  lemma FinishedParts(w: Job, st: State)
    requires Finished(w, st) && StaysBelow(w)
    ensures w.Valid() && Shape(w.net, st) && CalibratedTree(w.net, st)
    ensures forall c :: 0 <= c < w.Size() ==> st.tables[c] == Final(w, c)
  {
  }

  lemma MadeIsFull(b: BayesNet, w: Job, c: nat)
    requires MadeFrom(b, w) && c < w.Size()
    ensures w.Valid() && Full(Final(w, c), w.net.vars[c], b.card)
  {
    assert IsStart(b, w.net.vars, c, w.start[c]);
    assert Final(w, c).Keys == w.start[c].Keys;
  }

  /** A finished run has computed the exact probabilities. */
  lemma FinishedIsExact(b: BayesNet, w: Job, st: State)
    requires MadeFrom(b, w) && Finished(w, st) && Sufficient(b, w.net)
    ensures Exact(b, w.net, st)
  {
    hide Finished, StaysBelow, MadeFrom, FamiliesHoused, RowsBelow, PathCondition, CalibratedTree;
    assert StaysBelow(w) by { HousedIsNotClipped(b, w); }
    FinishedParts(w, st);
    forall c | 0 <= c < w.Size() ensures Full(st.tables[c], w.net.vars[c], b.card) {
      MadeIsFull(b, w, c);
    }
    forall c, a | 0 <= c < w.Size() && a in st.tables[c] ensures st.tables[c][a] == Probability(b, w.net.vars[c], a) {
      MadeIsFull(b, w, c);
      FinalIsExact(b, w, c, a);
    }
  }

  lemma GoodIsHung(w: Job, st: State)
    requires Good(w.net, w.parent, w.rank, w.start, st)
    ensures w.Valid()
  {
  }

  /** Make the first tables and run the message loop on them. */
  method Create(b: BayesNet, net: Network) returns (tree: MessageLoop)
    requires Matches(b, net)
    ensures fresh(tree) && tree.Valid() && tree.net == net
    ensures StartsFrom(b, net.vars, tree.start)
    ensures Finished(Job(net, tree.parent, tree.rank, tree.start), tree.Now())
    ensures Sufficient(b, net) ==> Exact(b, net, tree.Now())
  {
    hide Finished, Good, Exact, Sufficient;
    var tables := Initialise(b, net);
    StartIsInitial(b, net, tables);
    tree := new MessageLoop(net, tables);
    tree.Propagate();
    var w := Job(net, tree.parent, tree.rank, tree.start);
    if Sufficient(b, net) {
      GoodIsHung(w, tree.Now());
      FinishedIsExact(b, w, tree.Now());
    }
  }
}
