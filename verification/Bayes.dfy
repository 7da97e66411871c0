/**
 Bayesian networks with evidence, and the joint distribution that the join tree is to compute.
 */
module Bayes {
  import opened Sequences
  import opened Tables
  import opened Summation

  /** parents[v] are the parents of node v, card[v] is its number of values, and cpt[v] gives
      the probability of its values for each assignment to its parents. */
  datatype BayesNet = BayesNet(parents: seq<set<nat>>, card: seq<nat>, cpt: seq<Table>, evidence: map<nat, nat>) {

    function Size(): nat { |card| }

    function Nodes(): (r: set<nat>)
      ensures forall v: nat {:trigger v in r} :: v in r <==> v < |card|
    {
      UpTo(|card|)
    }

    function Family(v: nat): set<nat>
      requires v < |parents|
    {
      parents[v] + {v}
    }

    ghost predicate IsDepth(depth: seq<nat>)
      requires |parents| == |card|
    {
      |depth| == |card| &&
      forall v, p {:trigger p in parents[v]} :: 0 <= v < |card| && p in parents[v] ==> p < |card| && depth[p] < depth[v]
    }

    /** No directed cycles, and complete conditional probability tables. */
    ghost predicate Valid() {
      && |parents| == |card| == |cpt|
      && (forall v :: 0 <= v < |card| ==> card[v] > 0)
      && (exists depth :: IsDepth(depth))
      && forall v :: 0 <= v < |card| ==> Full(cpt[v], Family(v), card) && Probabilities(cpt[v])
    }
  }

  /** The probability that x gives to the value of v, given the values of its parents. */
  ghost function Cpt(b: BayesNet, v: nat, x: Assignment): real
    requires v < |b.cpt| && v < |b.parents|
  {
    var y := Project(x, b.Family(v));
    if y in b.cpt[v] then b.cpt[v][y] else 0.0
  }

  /** The product of those probabilities for the nodes in d below n. */
  ghost function Cpts(b: BayesNet, d: set<nat>, x: Assignment, n: nat): real
    requires n <= |b.cpt| && n <= |b.parents|
  {
    if n == 0 then 1.0
    else if n - 1 in d then Times(Cpts(b, d, x, n - 1), Cpt(b, n - 1, x))
    else Cpts(b, d, x, n - 1)
  }

  ghost function CptsOf(b: BayesNet, d: set<nat>): Weighting
    requires b.Valid()
  {
    x => Cpts(b, d, x, b.Size())
  }

  /** x agrees with the evidence on the nodes in d. */
  ghost predicate Agrees(b: BayesNet, d: set<nat>, x: Assignment) {
    forall v :: v in d && v in x && v in b.evidence ==> x[v] == b.evidence[v]
  }

  /** The joint probability of x and the evidence. */
  ghost function Joint(b: BayesNet): Weighting
    requires b.Valid()
  {
    x => if Agrees(b, b.Nodes(), x) then Cpts(b, b.Nodes(), x, b.Size()) else 0.0
  }

  /** The probability of the evidence together with the assignment a to the nodes in d. */
  ghost function Probability(b: BayesNet, d: set<nat>, a: Assignment): real
    requires b.Valid()
  {
    SumOver(b.card, b.Nodes() - d, a, Joint(b))
  }

  /** The sum over the first k values of v, its parents as in x. */
  ghost function Row(b: BayesNet, v: nat, x: Assignment, k: nat): real
    requires v < |b.cpt| && v < |b.parents|
  {
    if k == 0 then 0.0 else Row(b, v, x, k - 1) + Cpt(b, v, x[v := k - 1])
  }

  /** The rows of the conditional probability tables sum to at most 1. */
  ghost predicate RowsBelow(b: BayesNet)
    requires b.Valid()
  {
    forall v, s :: 0 <= v < b.Size() && Over(s, b.parents[v], b.card) ==> Row(b, v, s, b.card[v]) <= 1.0
  }

  // ------------------------------------------------------------------- products

  lemma CptBounds(b: BayesNet, v: nat, x: Assignment)
    requires b.Valid() && v < b.Size()
    ensures 0.0 <= Cpt(b, v, x) <= 1.0
  {
    assert Probabilities(b.cpt[v]);
  }

  lemma CptLocal(b: BayesNet, v: nat, x: Assignment, y: Assignment)
    requires v < |b.cpt| && v < |b.parents| && Project(x, b.Family(v)) == Project(y, b.Family(v))
    ensures Cpt(b, v, x) == Cpt(b, v, y)
  {
  }

  lemma ShrinkTimes(x: real, f: real)
    requires 0.0 <= x && 0.0 <= f <= 1.0
    ensures 0.0 <= Times(x, f) <= x
  {
  }

  lemma ShrinkBoth(x: real, y: real, f: real)
    requires 0.0 <= x <= y && 0.0 <= f
    ensures Times(x, f) <= Times(y, f)
  {
  }

  /** Fewer factors, a larger product. */
  lemma {:induction false} CptsFewer(b: BayesNet, d: set<nat>, e: set<nat>, x: Assignment, n: nat)
    requires b.Valid() && n <= b.Size() && d <= e
    ensures 0.0 <= Cpts(b, e, x, n) <= Cpts(b, d, x, n)
  {
    if n > 0 {
      CptsFewer(b, d, e, x, n - 1);
      CptBounds(b, n - 1, x);
      ShrinkTimes(Cpts(b, e, x, n - 1), Cpt(b, n - 1, x));
      ShrinkBoth(Cpts(b, e, x, n - 1), Cpts(b, d, x, n - 1), Cpt(b, n - 1, x));
    }
  }

  lemma {:induction false} CptsUnion(b: BayesNet, d: set<nat>, e: set<nat>, x: Assignment, n: nat)
    requires n <= |b.cpt| && n <= |b.parents| && d !! e
    ensures IsProduct(Cpts(b, d + e, x, n), Cpts(b, d, x, n), Cpts(b, e, x, n))
  {
    if n > 0 {
      CptsUnion(b, d, e, x, n - 1);
      var p, q, r := Cpts(b, d, x, n - 1), Cpts(b, e, x, n - 1), Cpts(b, d + e, x, n - 1);
      if n - 1 in d {
        MixLeft(p, q, r, Cpt(b, n - 1, x));
      } else if n - 1 in e {
        MixRight(p, q, r, Cpt(b, n - 1, x));
      }
    }
  }

  lemma {:induction false} CptsSingle(b: BayesNet, v: nat, x: Assignment, n: nat)
    requires b.Valid() && v < b.Size() && n <= b.Size()
    ensures Cpts(b, {v}, x, n) == if v < n then Cpt(b, v, x) else 1.0
  {
    if n > 0 { CptsSingle(b, v, x, n - 1); }
  }

  /** Products look at families only. */
  lemma {:induction false} CptsLocal(b: BayesNet, d: set<nat>, families: set<nat>, x: Assignment, y: Assignment, n: nat)
    requires b.Valid() && n <= b.Size() && Project(x, families) == Project(y, families)
    requires forall v :: v in d && v < n ==> b.Family(v) <= families
    ensures Cpts(b, d, x, n) == Cpts(b, d, y, n)
  {
    if n > 0 {
      CptsLocal(b, d, families, x, y, n - 1);
      if n - 1 in d {
        ProjectInside(x, y, families, b.Family(n - 1));
        CptLocal(b, n - 1, x, y);
      }
    }
  }

  // --------------------------------------------------------- summing out the nodes

  lemma Climb(b: BayesNet, vs: set<nat>, depth: seq<nat>, v: nat) returns (u: nat)
    requires b.Valid() && b.IsDepth(depth) && vs <= b.Nodes() && v in vs
    ensures u in vs && b.parents[u] !! vs
    decreases depth[v]
  {
    if p :| p in b.parents[v] && p in vs {
      u := Climb(b, vs, depth, p);
    } else {
      u := v;
    }
  }

  /** A node none of whose ancestors is in vs. */
  lemma First(b: BayesNet, vs: set<nat>) returns (v: nat)
    requires b.Valid() && vs != {} && vs <= b.Nodes()
    ensures v in vs && b.parents[v] !! vs
  {
    var depth :| b.IsDepth(depth);
    v :| v in vs;
    v := Climb(b, vs, depth, v);
  }

  lemma {:induction false} RowLocal(b: BayesNet, v: nat, x: Assignment, k: nat)
    requires b.Valid() && v < b.Size() && v !in b.parents[v]
    ensures Row(b, v, x, k) == Row(b, v, Project(x, b.parents[v]), k)
  {
    if k > 0 {
      RowLocal(b, v, x, k - 1);
      var s := Project(x, b.parents[v]);
      assert Project(x[v := k - 1], b.Family(v)) == Project(s[v := k - 1], b.Family(v));
    }
  }

  lemma OverParents(parents: set<nat>, v: nat, s: Assignment, i: nat, card: seq<nat>)
    requires v !in parents && s.Keys <= parents
    ensures Over(Project(s[v := i], parents + {v}), parents + {v}, card) ==> Over(s, parents, card)
  {
    var y := Project(s[v := i], parents + {v});
    if Over(y, parents + {v}, card) {
      forall p | p in parents ensures p in s && p < |card| && s[p] < card[p] {
        assert p in y;
      }
    }
  }

  lemma {:induction false} RowOutside(b: BayesNet, v: nat, s: Assignment, k: nat)
    requires b.Valid() && v < b.Size() && v !in b.parents[v] && s.Keys <= b.parents[v]
    requires !Over(s, b.parents[v], b.card)
    ensures Row(b, v, s, k) == 0.0
  {
    if k > 0 {
      RowOutside(b, v, s, k - 1);
      var y := Project(s[v := k - 1], b.Family(v));
      assert Full(b.cpt[v], b.Family(v), b.card);
      OverParents(b.parents[v], v, s, k - 1, b.card);
    }
  }

  lemma RowBelow(b: BayesNet, v: nat, x: Assignment)
    requires b.Valid() && RowsBelow(b) && v < b.Size()
    ensures Row(b, v, x, b.card[v]) <= 1.0
  {
    var depth :| b.IsDepth(depth);
    var s := Project(x, b.parents[v]);
    RowLocal(b, v, x, b.card[v]);
    if !Over(s, b.parents[v], b.card) { RowOutside(b, v, s, b.card[v]); }
  }

  lemma CptsSplit(b: BayesNet, vs: set<nat>, v: nat)
    requires b.Valid() && vs <= b.Nodes() && v in vs
    ensures Splits(CptsOf(b, vs), CptsOf(b, {v}), b.Family(v), CptsOf(b, vs - {v}), b.Nodes())
  {
    var depth :| b.IsDepth(depth);
    forall x, y | Project(x, b.Family(v)) == Project(y, b.Family(v)) ensures CptsOf(b, {v})(x) == CptsOf(b, {v})(y) {
      CptsLocal(b, {v}, b.Family(v), x, y, b.Size());
    }
    forall x, y | Project(x, b.Nodes()) == Project(y, b.Nodes())
      ensures CptsOf(b, vs - {v})(x) == CptsOf(b, vs - {v})(y)
    {
      CptsLocal(b, vs - {v}, b.Nodes(), x, y, b.Size());
    }
    forall x ensures IsProduct(CptsOf(b, vs)(x), CptsOf(b, {v})(x), CptsOf(b, vs - {v})(x)) {
      assert {v} + (vs - {v}) == vs;
      CptsUnion(b, {v}, vs - {v}, x, b.Size());
    }
  }

  lemma ProductBelow(p: real, x: real, y: real)
    requires IsProduct(p, x, y) && 0.0 <= x && y <= 1.0
    ensures p <= x
  {
  }

  lemma {:induction false} EmptyProduct(b: BayesNet, x: Assignment, n: nat)
    requires b.Valid() && n <= b.Size()
    ensures Cpts(b, {}, x, n) == 1.0
  {
    if n > 0 { EmptyProduct(b, x, n - 1); }
  }

  /** Summed over the values of vs, the probabilities of the nodes in vs make at most 1. */
  lemma {:induction false} NodesSumBelow(b: BayesNet, vs: set<nat>, x: Assignment)
    requires b.Valid() && RowsBelow(b) && vs <= b.Nodes()
    ensures SumOver(b.card, vs, x, CptsOf(b, vs)) <= 1.0
    decreases |vs|, 0
  {
    if vs == {} {
      CptsFewer(b, {}, {}, x, b.Size());
      EmptyProduct(b, x, b.Size());
    } else {
      var v := First(b, vs);
      PickAny(b.card, vs, x, v, CptsOf(b, vs));
      SlicesBelowRow(b, vs, x, v, b.card[v]);
      RowBelow(b, v, x);
    }
  }

  lemma {:induction false} SlicesBelowRow(b: BayesNet, vs: set<nat>, x: Assignment, v: nat, k: nat)
    requires b.Valid() && RowsBelow(b) && vs <= b.Nodes() && v in vs && b.parents[v] !! vs
    ensures Slices(b.card, vs - {v}, x, v, k, CptsOf(b, vs)) <= Row(b, v, x, k)
    decreases |vs - {v}|, k + 1
  {
    if k > 0 {
      SlicesBelowRow(b, vs, x, v, k - 1);
      var y := x[v := k - 1];
      NodesSumBelow(b, vs - {v}, y);
      CptsSplit(b, vs, v);
      SumOverOfProduct(b.card, {}, vs - {v}, y, CptsOf(b, vs), CptsOf(b, {v}), b.Family(v), CptsOf(b, vs - {v}),
                       b.Nodes());
      assert {} + (vs - {v}) == vs - {v};
      CptsSingle(b, v, y, b.Size());
      CptBounds(b, v, y);
      ProductBelow(SumOver(b.card, vs - {v}, y, CptsOf(b, vs)), Cpt(b, v, y),
                   SumOver(b.card, vs - {v}, y, CptsOf(b, vs - {v})));
    }
  }
}
