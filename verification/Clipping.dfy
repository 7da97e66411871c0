/**
 The smallest network on which clipping a marginal sum at 1 leaves the two cliques
 of an accepted join tree in disagreement: node 0 (one value) is the parent of node
 1 (two values), and the cliques {0} and {1} share nothing.  The family of node 1 is
 in neither of them, so clique 1 starts with ones only and reports 2, cut to 1.
 */
module Clipping {
  import opened Sequences
  import opened Trees
  import opened Tables
  import opened Summation
  import opened Schedule
  import opened Bayes
  import opened Propagation
  import opened Forecast
  import opened Elimination
  import opened JoinTree
  import opened Inference
  import opened Construction

  const ZERO: Assignment := map[0 := 0]
  const LOW: Assignment := map[1 := 0]
  const HIGH: Assignment := map[1 := 1]
  const NONE: Assignment := map[]

  const FAIR: Table := map[map[0 := 0, 1 := 0] := 0.5, map[0 := 0, 1 := 1] := 0.5]
  const CHAIN := BayesNet([{}, {0}], [1, 2], [map[ZERO := 1.0], FAIR], map[])
  const APART := Network([{1}, {0}], [{0}, {1}], [1, 2])
  const START: seq<Table> := [map[ZERO := 1.0], map[LOW := 1.0, HIGH := 1.0]]

  // ------------------------------------------------------------ a proper network

  lemma ChainIsFull()
    ensures Full(CHAIN.cpt[0], {0}, CHAIN.card) && Full(CHAIN.cpt[1], {0, 1}, CHAIN.card)
  {
    forall a | Over(a, {0}, CHAIN.card) ensures a == ZERO {
      assert a[0] < CHAIN.card[0];
    }
    forall a | Over(a, {0, 1}, CHAIN.card) ensures a in FAIR {
      assert a[0] < CHAIN.card[0] && a[1] < CHAIN.card[1];
      assert a == map[0 := 0, 1 := 0] || a == map[0 := 0, 1 := 1];
    }
  }

  lemma ChainIsValid()
    ensures CHAIN.Valid()
  {
    ChainIsFull();
    hide Full;
    assert CHAIN.IsDepth([0, 1]);
    assert CHAIN.Family(0) == {0} && CHAIN.Family(1) == {0, 1};
    assert Probabilities(FAIR) && Probabilities(CHAIN.cpt[0]);
  }

  lemma RowOfZero(s: Assignment)
    requires s == NONE
    ensures Row(CHAIN, 0, s, 1) == 1.0
  {
    assert CHAIN.Family(0) == {0};
    assert Project(ZERO, {0}) == ZERO;
    assert s[0 := 0] == ZERO;
    assert Cpt(CHAIN, 0, ZERO) == 1.0;
    assert Row(CHAIN, 0, s, 0) == 0.0;
  }

  lemma RowOfOne(s: Assignment)
    requires s == ZERO
    ensures Row(CHAIN, 1, s, 2) == 1.0
  {
    assert CHAIN.Family(1) == {0, 1};
    var low, high := s[1 := 0], s[1 := 1];
    assert low == map[0 := 0, 1 := 0] && high == map[0 := 0, 1 := 1];
    assert Project(low, {0, 1}) == low && Project(high, {0, 1}) == high;
    assert Cpt(CHAIN, 1, low) == 0.5 && Cpt(CHAIN, 1, high) == 0.5;
    assert Row(CHAIN, 1, s, 0) == 0.0;
    assert Row(CHAIN, 1, s, 1) == 0.5;
  }

  lemma RowsAreWhole()
    requires CHAIN.Valid()
    ensures RowsBelow(CHAIN)
  {
    forall v, s | 0 <= v < CHAIN.Size() && Over(s, CHAIN.parents[v], CHAIN.card)
      ensures Row(CHAIN, v, s, CHAIN.card[v]) <= 1.0
    {
      if v == 0 {
        assert s == NONE;
        RowOfZero(s);
      } else {
        assert v == 1 && s.Keys == {0} && s[0] < CHAIN.card[0];
        assert s == ZERO;
        RowOfOne(s);
      }
    }
  }

  // ---------------------------------------------------------- an accepted join tree

  lemma ApartIsATree()
    ensures APART.Valid()
  {
    var g := APART.g;
    assert g[0] == {1} && g[1] == {0};
    assert WellFormed(g);
    forall i: nat, j: nat | i < 2 && j < 2 ensures Linked(g, i, j) {
      var p: seq<nat> := if i == j then [i] else [i, j];
      assert IsPath(g, p) && p[0] == i && p[|p| - 1] == j;
    }
    forall c ensures !IsCycle(g, c) {
      if IsCycle(g, c) { CountNodes(2, c); }
    }
    assert APART.vars[0] == {0} && APART.vars[1] == {1};
  }

  lemma ApartHasPathCondition()
    ensures PathCondition(APART)
  {
    forall p | IsPath(APART.g, p) && Distinct(p) ensures Carries(APART, p) {
      CountNodes(2, p);
      assert p[0] < 2 && p[|p| - 1] < 2;
      forall k | 0 <= k < |p| ensures APART.Sep(p[0], p[|p| - 1]) <= APART.vars[p[k]] {
        assert k == 0 || k == |p| - 1;
      }
    }
  }

  // ------------------------------------------------- the tables the code makes of it

  lemma Homes()
    requires CHAIN.Valid()
    ensures Home(CHAIN, APART.vars, 0) == 0 && Home(CHAIN, APART.vars, 1) == 2
    ensures HousedIn(CHAIN, APART.vars, {0}) == {0} && HousedIn(CHAIN, APART.vars, {1}) == {}
  {
    assert CHAIN.Family(0) == {0} && 0 in CHAIN.Family(1) && 1 in CHAIN.Family(1);
    assert APART.vars[0] == {0} && APART.vars[1] == {1};
  }

  lemma StartIsFull()
    ensures Full(START[0], {0}, CHAIN.card) && Full(START[1], {1}, CHAIN.card)
  {
    forall a | Over(a, {0}, CHAIN.card) ensures a == ZERO {
      assert a[0] < CHAIN.card[0];
    }
    forall a | Over(a, {1}, CHAIN.card) ensures a == LOW || a == HIGH {
      assert a[1] < CHAIN.card[1];
    }
  }

  lemma StartIsMade()
    requires CHAIN.Valid()
    ensures StartsFrom(CHAIN, APART.vars, START)
  {
    Homes();
    StartIsFull();
    CptsSingle(CHAIN, 0, ZERO, 2);
    assert CHAIN.Family(0) == {0} && Project(ZERO, {0}) == ZERO;
    EmptyProduct(CHAIN, LOW, 2);
    EmptyProduct(CHAIN, HIGH, 2);
    hide Full, Cpts, HousedIn;
    assert IsStart(CHAIN, APART.vars, 0, START[0]);
    assert IsStart(CHAIN, APART.vars, 1, START[1]);
  }

  /** There is no other choice of first tables. */
  lemma StartIsUnique(tables: seq<Table>)
    requires CHAIN.Valid() && StartsFrom(CHAIN, APART.vars, tables)
    ensures tables == START
  {
    StartIsMade();
    forall i | 0 <= i < 2 ensures tables[i] == START[i] {
      assert IsStart(CHAIN, APART.vars, i, tables[i]) && IsStart(CHAIN, APART.vars, i, START[i]);
      assert tables[i].Keys == START[i].Keys;
    }
  }

  // ------------------------------------------------------------------- the two sums

  ghost predicate IsJob(w: Job) {
    w.Valid() && w.net == APART && w.start == START
  }

  lemma Hanging(w: Job)
    requires IsJob(w)
    ensures w.parent[1] == 0 && w.Above(1) == {} && !w.IsChild(0, 0) && !w.IsChild(0, 1) && !w.IsChild(1, 1)
  {
    ParentOf(w, 1);
  }

  lemma {:induction false} Childless(w: Job, c: nat, a: Assignment, k: nat)
    requires w.Valid() && c < w.Size() && a in w.start[c] && k <= w.Size()
    requires forall j :: 0 <= j < k ==> !w.IsChild(j, c)
    ensures Weight(w, c, UpTo(w.Size()), a, k) == w.start[c][a]
  {
    if k > 0 { Childless(w, c, a, k - 1); }
  }

  lemma ReportIsTwo(w: Job)
    requires IsJob(w)
    ensures Report(w, 1, NONE) == 2.0
  {
    Hanging(w);
    var t := Upward(w, 1);
    Childless(w, 1, LOW, 2);
    Childless(w, 1, HIGH, 2);
    assert t.Keys == {LOW, HIGH};
    assert t[LOW] == 1.0 && t[HIGH] == 1.0;
    assert Project(LOW, {}) == NONE && Project(HIGH, {}) == NONE;
    assert Fibre(t, {}, NONE) == {LOW, HIGH};
    assert LOW[1] != HIGH[1];
    SumPick(t, {LOW, HIGH}, LOW);
    assert {LOW, HIGH} - {LOW} == {HIGH};
    SumPick(t, {HIGH}, HIGH);
    assert {HIGH} - {HIGH} == {};
  }

  lemma AnswerIsOne(w: Job)
    requires IsJob(w)
    ensures Answer(w, 1, NONE) == 1.0
  {
    Hanging(w);
    ReportIsTwo(w);
    var t := Upward(w, 0);
    assert Project(ZERO, {}) == NONE;
    Childless(w, 0, ZERO, 1);
    assert Clip(Report(w, 1, Project(ZERO, w.Above(1)))) == 1.0;
    assert Weight(w, 0, UpTo(2), ZERO, 2) == Times(1.0, 1.0) == 1.0;
    assert t.Keys == {ZERO} && t[ZERO] == 1.0;
    assert Fibre(t, {}, NONE) == {ZERO};
    SumPick(t, {ZERO}, ZERO);
    assert {ZERO} - {ZERO} == {};
  }

  lemma GoesAboveOne(w: Job)
    requires IsJob(w)
    ensures !StaysBelow(w)
  {
    ReportIsTwo(w);
    AnswerIsOne(w);
    Hanging(w);
    assert Project(LOW, {}) == NONE;
    assert NONE in Image(w.start[1], w.Above(1));
    assert !BelowOne(w, 1, NONE);
    assert !EdgeBelow(w, 1);
  }

  // --------------------------------------------------------------------- the result

  lemma NotHoused()
    requires CHAIN.Valid()
    ensures !FamiliesHoused(CHAIN, APART.vars)
  {
    assert 0 in CHAIN.Family(1) && 1 in CHAIN.Family(1);
    assert 0 !in APART.vars[1] && 1 !in APART.vars[0];
    forall i | 0 <= i < |APART.vars| ensures !(CHAIN.Family(1) <= APART.vars[i]) {
      assert i == 0 || i == 1;
    }
  }

  /** Everything the code asks for holds, and still every finished run leaves the two cliques in disagreement. */
  lemma ClippedRunDisagrees(w: Job, st: State)
    requires CHAIN.Valid() && MadeFrom(CHAIN, w) && w.net == APART && Finished(w, st)
    ensures Matches(CHAIN, APART) && RowsBelow(CHAIN) && PathCondition(APART)
    ensures !FamiliesHoused(CHAIN, APART.vars) && Shape(APART, st) && !CalibratedTree(APART, st)
  {
    RowsAreWhole();
    ApartHasPathCondition();
    StartIsUnique(w.start);
    GoesAboveOne(w);
    NotHoused();
  }

  /** The code on this network. */
  method RunClipped() returns (tree: MessageLoop)
    ensures fresh(tree) && tree.net == APART && tree.start == START
    ensures Shape(APART, tree.Now()) && !CalibratedTree(APART, tree.Now())
  {
    hide Finished, StartsFrom, Good, CalibratedTree;
    ChainIsValid();
    ApartIsATree();
    tree := Create(CHAIN, APART);
    StartIsUnique(tree.start);
    var w := Job(APART, tree.parent, tree.rank, tree.start);
    GoodIsHung(w, tree.Now());
    ClippedRunDisagrees(w, tree.Now());
  }
}
