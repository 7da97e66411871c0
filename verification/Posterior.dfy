/**
 Asking a finished join tree for the distribution of one node.
 */
module Posterior {
  import opened Sequences
  import opened Trees
  import opened Tables
  import opened Summation
  import opened Bayes
  import opened Propagation
  import opened JoinTree
  import opened Inference
  import opened Construction

  function One(v: nat, i: nat): Assignment {
    map[v := i]
  }

  // ------------------------------------------------------------------ the sums

  lemma ProbabilityBounds(b: BayesNet, d: set<nat>, a: Assignment)
    requires b.Valid() && RowsBelow(b)
    ensures 0.0 <= Probability(b, d, a) <= 1.0
  {
    var vs := b.Nodes() - d;
    forall y ensures 0.0 <= Joint(b)(y) <= CptsOf(b, vs)(y) {
      CptsFewer(b, vs, b.Nodes(), y, b.Size());
    }
    SumOverNonNegative(b.card, vs, a, Joint(b));
    SumOverBelow(b.card, vs, a, Joint(b), CptsOf(b, vs));
    NodesSumBelow(b, vs, a);
  }

  /** Marginal sums of a table of probabilities are probabilities. */
  lemma RawIsProbability(b: BayesNet, vars: set<nat>, t: Table, e: set<nat>, s: Assignment)
    requires b.Valid() && Full(t, vars, b.card) && Legal(vars, b.card) && e <= vars && Over(s, e, b.card)
    requires forall a :: a in t ==> t[a] == Probability(b, vars, a)
    ensures Raw(t, e, s) == Probability(b, e, s)
  {
    var free := b.Nodes() - vars;
    assert SumsOut(t, vars, b.card, free, Joint(b));
    RawIsSumOver(t, vars, e, s, b.card, free, Joint(b));
    assert free + (vars - e) == b.Nodes() - e;
  }

  /** The table of one node. */
  ghost predicate IsNodeTable(b: BayesNet, v: nat, t: Table)
    requires b.Valid()
  {
    Full(t, {v}, b.card) && forall a :: a in t ==> t[a] == Probability(b, {v}, a)
  }

  lemma MarginalOfNode(b: BayesNet, vars: set<nat>, t: Table, v: nat)
    requires b.Valid() && RowsBelow(b) && Full(t, vars, b.card) && Legal(vars, b.card) && v in vars
    requires forall a :: a in t ==> t[a] == Probability(b, vars, a)
    ensures IsNodeTable(b, v, Marginal(t, {v}))
  {
    var m := Marginal(t, {v});
    ImageOfFull(t, vars, {v}, b.card);
    forall s | s in m ensures m[s] == Probability(b, {v}, s) {
      RawIsProbability(b, vars, t, {v}, s);
      ProbabilityBounds(b, {v}, s);
    }
  }

  lemma MassIsEvidence(b: BayesNet, v: nat, t: Table)
    requires b.Valid() && v < b.Size() && IsNodeTable(b, v, t)
    ensures Mass(t) == Probability(b, {}, map[])
  {
    RawIsProbability(b, {v}, t, {}, map[]);
    forall a | a in t ensures Project(a, {}) == map[] {
    }
    assert Fibre(t, {}, map[]) == t.Keys;
  }

  // --------------------------------------------------------------- the operations

  /** The smallest clique that holds node v, the first one of that size. */
  method SmallestClique(vars: seq<set<nat>>, v: nat) returns (c: nat)
    requires |vars| > 0
    ensures c < |vars|
    ensures (exists i :: 0 <= i < |vars| && v in vars[i]) ==> v in vars[c]
    ensures forall i :: 0 <= i < |vars| && v in vars[i] ==> |vars[c]| < |vars[i]| || (|vars[c]| == |vars[i]| && c <= i)
  {
    c := 0;
    var found := false;
    for n := 0 to |vars|
      invariant c < |vars| && (found ==> c < n && v in vars[c])
      invariant !found ==> forall i :: 0 <= i < n ==> v !in vars[i]
      invariant forall i :: 0 <= i < n && v in vars[i] ==> |vars[c]| < |vars[i]| || (|vars[c]| == |vars[i]| && c <= i)
    {
      if v in vars[n] && (!found || |vars[n]| < |vars[c]|) {
        c, found := n, true;
      }
    }
  }

  lemma DivideEntry(x: real, sum: real, q: real)
    requires sum != 0.0 && q == x / sum
    ensures IsProduct(x, q, sum)
  {
  }

  method AddUp(t: Table) returns (sum: real)
    ensures sum == Mass(t)
  {
    sum := 0.0;
    var todo := t.Keys;
    while todo != {}
      invariant todo <= t.Keys && sum + Sum(t, todo) == Mass(t)
    {
      var a :| a in todo;
      SumPick(t, todo, a);
      sum := sum + t[a];
      todo := todo - {a};
    }
  }

  /** Divide every entry by the sum of all. */
  method Normalize(t: Table) returns (u: Table)
    requires Mass(t) != 0.0
    ensures u.Keys == t.Keys && forall a :: a in t ==> IsProduct(t[a], u[a], Mass(t))
  {
    var sum := AddUp(t);
    u := t;
    var todo := t.Keys;
    while todo != {}
      invariant todo <= t.Keys == u.Keys
      invariant forall a :: a in todo ==> u[a] == t[a]
      invariant forall a :: a in t && a !in todo ==> IsProduct(t[a], u[a], sum)
    {
      var a :| a in todo;
      u := u[a := u[a] / sum];
      DivideEntry(t[a], sum, u[a]);
      todo := todo - {a};
    }
  }

  function Ones(v: nat, k: nat): set<Assignment> {
    if k == 0 then {} else Ones(v, k - 1) + {One(v, k - 1)}
  }

  lemma {:induction false} OnesHas(v: nat, k: nat, a: Assignment)
    ensures a in Ones(v, k) <==> v in a && a[v] < k && a == One(v, a[v])
  {
    if k > 0 { OnesHas(v, k - 1, a); }
  }

  lemma {:induction false} OnesSize(v: nat, k: nat)
    ensures |Ones(v, k)| == k
  {
    if k > 0 {
      OnesSize(v, k - 1);
      OnesHas(v, k - 1, One(v, k - 1));
    }
  }

  lemma OverOne(v: nat, card: seq<nat>, a: Assignment)
    requires v < |card|
    ensures Over(a, {v}, card) <==> v in a && a[v] < card[v] && a == One(v, a[v])
  {
    if Over(a, {v}, card) {
      assert v in a.Keys;
      assert a == One(v, a[v]);
    }
  }

  lemma OnesAreKeys(v: nat, card: seq<nat>, t: Table)
    requires Full(t, {v}, card) && v < |card|
    ensures t.Keys == Ones(v, card[v]) && |t| == card[v]
  {
    hide Over;
    forall a: Assignment ensures a in t.Keys <==> a in Ones(v, card[v]) {
      OnesHas(v, card[v], a);
      OverOne(v, card, a);
    }
    OnesSize(v, card[v]);
  }

  lemma ExactTable(b: BayesNet, net: Network, st: State, c: nat)
    requires Sufficient(b, net) && Exact(b, net, st) && c < |net.vars|
    ensures c < |st.tables| && Legal(net.vars[c], b.card)
    ensures Full(st.tables[c], net.vars[c], b.card) && Probabilities(st.tables[c])
    ensures forall a :: a in st.tables[c] ==> st.tables[c][a] == Probability(b, net.vars[c], a)
  {
    forall a | a in st.tables[c] ensures 0.0 <= st.tables[c][a] <= 1.0 {
      ProbabilityBounds(b, net.vars[c], a);
    }
  }

  /** The table of node v from a clique that holds it. */
  method NodeTable(b: BayesNet, net: Network, tables: seq<Table>, v: nat, ghost st: State) returns (table: Table)
    requires Sufficient(b, net) && Exact(b, net, st) && st.tables == tables && v < b.Size()
    ensures IsNodeTable(b, v, table)
  {
    hide Exact, IsNodeTable, Probability, RowsBelow;
    Housed(b, net.vars, v);
    var c := SmallestClique(net.vars, v);
    ExactTable(b, net, st, c);
    table := Marginalize(tables[c], {v});
    MarginalOfNode(b, net.vars[c], tables[c], v);
  }

  lemma NodeEntry(b: BayesNet, v: nat, t: Table, i: nat)
    requires b.Valid() && v < b.Size() && IsNodeTable(b, v, t) && i < b.card[v]
    ensures One(v, i) in t && t[One(v, i)] == Probability(b, {v}, One(v, i))
  {
    assert Over(One(v, i), {v}, b.card);
  }

  lemma NodeTableSize(b: BayesNet, v: nat, table: Table)
    requires b.Valid() && v < b.Size() && IsNodeTable(b, v, table)
    ensures |table| == b.card[v]
  {
    OnesAreKeys(v, b.card, table);
  }

  /** Normalise the table of a node and read it out by value. */
  method ReadOut(b: BayesNet, v: nat, table: Table) returns (dist: seq<real>)
    requires b.Valid() && v < b.Size() && IsNodeTable(b, v, table) && Mass(table) != 0.0
    ensures |dist| == b.card[v]
    ensures forall i :: 0 <= i < |dist| ==> IsProduct(Probability(b, {v}, One(v, i)), dist[i], Mass(table))
  {
    hide Probability, Mass, IsNodeTable;
    assert |table| == b.card[v] by { NodeTableSize(b, v, table); }
    var scaled := Normalize(table);
    assert |scaled| == |scaled.Keys| == |table.Keys|;
    dist := [];
    for i := 0 to |scaled|
      invariant |dist| == i
      invariant forall k :: 0 <= k < i ==> IsProduct(Probability(b, {v}, One(v, k)), dist[k], Mass(table))
    {
      NodeEntry(b, v, table, i);
      dist := dist + [scaled[One(v, i)]];
    }
  }

  /** The distribution of node v given the evidence, from the tables of a finished tree.  It
      is not defined if the evidence is impossible: then the code divides 0 by 0. */
  method Distribution(b: BayesNet, net: Network, tables: seq<Table>, v: nat, ghost st: State)
      returns (defined: bool, dist: seq<real>)
    requires Sufficient(b, net) && Exact(b, net, st) && st.tables == tables && v < b.Size()
    ensures defined <==> Probability(b, {}, map[]) != 0.0
    ensures defined ==> |dist| == b.card[v] && forall i :: 0 <= i < |dist| ==>
      IsProduct(Probability(b, {v}, One(v, i)), dist[i], Probability(b, {}, map[]))
  {
    hide Exact, RowsBelow, FamiliesHoused, Probability, Mass;
    var table := NodeTable(b, net, tables, v, st);
    MassIsEvidence(b, v, table);
    var sum := AddUp(table);
    defined, dist := sum != 0.0, [];
    if defined {
      dist := ReadOut(b, v, table);
    }
  }
}
