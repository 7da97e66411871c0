/**
 The join tree of a Bayesian network: how its first tables are made, and what
 the message loop makes of them.
 */
module Inference {
  import opened Sequences
  import opened Trees
  import opened Tables
  import opened Summation
  import opened Bayes
  import opened Propagation
  import opened Forecast
  import opened Elimination
  import opened JoinTree
  import Odometer

  // ------------------------------------------------- where each node's table goes

  /** The first clique that holds node v and its parents; |vars| if there is none. */
  function Home(b: BayesNet, vars: seq<set<nat>>, v: nat): (h: nat)
    requires v < |b.parents|
    ensures h <= |vars| && (h < |vars| ==> b.Family(v) <= vars[h])
    ensures forall i :: 0 <= i < h ==> !(b.Family(v) <= vars[i])
  {
    if vars == [] then 0
    else if b.Family(v) <= vars[0] then 0
    else 1 + Home(b, vars[1..], v)
  }

  /** The nodes whose table goes to one of the cliques in cs. */
  ghost function HousedIn(b: BayesNet, vars: seq<set<nat>>, cs: set<nat>): set<nat>
    requires b.Valid()
  {
    set v | v in b.Nodes() && Home(b, vars, v) in cs
  }

  /** The first entry of clique i for a: 0 if a contradicts the evidence, otherwise the
      product of the probabilities of the nodes whose table goes to the clique. */
  ghost function Entry(b: BayesNet, vars: seq<set<nat>>, i: nat, a: Assignment): real
    requires b.Valid()
  {
    if Agrees(b, a.Keys, a) then Cpts(b, HousedIn(b, vars, {i}), a, b.Size()) else 0.0
  }

  ghost predicate IsStart(b: BayesNet, vars: seq<set<nat>>, i: nat, t: Table)
    requires b.Valid() && i < |vars|
  {
    Full(t, vars[i], b.card) && forall a :: a in t ==> t[a] == Entry(b, vars, i, a)
  }

  ghost predicate StartsFrom(b: BayesNet, vars: seq<set<nat>>, tables: seq<Table>)
    requires b.Valid()
  {
    |tables| == |vars| && forall i :: 0 <= i < |vars| ==> IsStart(b, vars, i, tables[i])
  }

  /** The tables of w are those made from b. */
  ghost predicate MadeFrom(b: BayesNet, w: Job) {
    b.Valid() && w.Valid() && w.net.card == b.card && StartsFrom(b, w.net.vars, w.start)
  }

  /** Some clique holds each node and its parents. */
  ghost predicate FamiliesHoused(b: BayesNet, vars: seq<set<nat>>)
    requires b.Valid()
  {
    forall v :: 0 <= v < b.Size() ==> exists i :: 0 <= i < |vars| && b.Family(v) <= vars[i]
  }

  lemma Housed(b: BayesNet, vars: seq<set<nat>>, v: nat)
    requires b.Valid() && FamiliesHoused(b, vars) && v < b.Size()
    ensures Home(b, vars, v) < |vars| && v in vars[Home(b, vars, v)]
  {
    assert v in b.Family(v);
    var i :| 0 <= i < |vars| && b.Family(v) <= vars[i];
  }

  // ------------------------------------------------------ the product of the tables

  /** What the cliques in cs make of x: their nodes' probabilities, if x agrees with the evidence there. */
  ghost function Share(b: BayesNet, w: Job, cs: set<nat>, x: Assignment): real
    requires b.Valid()
  {
    if Agrees(b, Vars(w, cs), x) then Cpts(b, HousedIn(b, w.net.vars, cs), x, b.Size()) else 0.0
  }

  ghost predicate LegalOn(b: BayesNet, vars: set<nat>, x: Assignment) {
    forall v :: v in vars ==> v in x && v < |b.card| && x[v] < b.card[v]
  }

  lemma LocalIs(b: BayesNet, w: Job, c: nat, x: Assignment)
    requires MadeFrom(b, w) && c < w.Size() && LegalOn(b, w.net.vars[c], x)
    ensures Local(w, c, x) == Share(b, w, {c}, x)
  {
    var vars := w.net.vars[c];
    var y := Project(x, vars);
    assert Vars(w, {c}) == vars;
    assert IsStart(b, w.net.vars, c, w.start[c]);
    assert Over(y, vars, b.card);
    assert Agrees(b, y.Keys, y) <==> Agrees(b, vars, x);
    assert Project(y, vars) == Project(x, vars);
    CptsLocal(b, HousedIn(b, w.net.vars, {c}), vars, x, y, b.Size());
  }

  ghost function Below(cs: set<nat>, k: nat): set<nat> {
    set c | c in cs && c < k
  }

  lemma ShareOfNone(b: BayesNet, w: Job, x: Assignment)
    requires b.Valid()
    ensures Share(b, w, {}, x) == 1.0
  {
    assert HousedIn(b, w.net.vars, {}) == {};
    EmptyProduct(b, x, b.Size());
  }

  lemma ShareOfOneMore(b: BayesNet, w: Job, cs: set<nat>, c: nat, x: Assignment)
    requires b.Valid() && c !in cs
    ensures Share(b, w, cs + {c}, x) == Times(Share(b, w, cs, x), Share(b, w, {c}, x))
  {
    VarsOfTwo(w, cs, {c});
    var d, e := HousedIn(b, w.net.vars, cs), HousedIn(b, w.net.vars, {c});
    assert HousedIn(b, w.net.vars, cs + {c}) == d + e;
    CptsUnion(b, d, e, x, b.Size());
  }

  lemma {:induction false} ProdIs(b: BayesNet, w: Job, cs: set<nat>, x: Assignment, k: nat)
    requires MadeFrom(b, w) && k <= w.Size() && LegalOn(b, Vars(w, cs), x)
    ensures Prod(w, cs, x, k) == Share(b, w, Below(cs, k), x)
  {
    if k == 0 {
      assert Below(cs, k) == {};
      ShareOfNone(b, w, x);
    } else {
      ProdIs(b, w, cs, x, k - 1);
      if k - 1 in cs {
        VarsHas(w, cs, k - 1);
        LocalIs(b, w, k - 1, x);
        assert Below(cs, k) == Below(cs, k - 1) + {k - 1};
        ShareOfOneMore(b, w, Below(cs, k - 1), k - 1, x);
      } else {
        assert Below(cs, k) == Below(cs, k - 1);
      }
    }
  }

  // ----------------------------------------------------------------- the bounds

  /** A part of the tree that has the tables of all nodes to be summed out weighs at most 1. */
  lemma RestIsLittle(b: BayesNet, w: Job, cs: set<nat>, e: set<nat>, s: Assignment)
    requires MadeFrom(b, w) && RowsBelow(b) && cs <= UpTo(w.Size())
    requires e <= Vars(w, cs) && Over(s, e, b.card) && Vars(w, cs) - e <= HousedIn(b, w.net.vars, cs)
    ensures Rest(w, cs, e, s) <= 1.0
  {
    var vs := Vars(w, cs) - e;
    VarsSized(w, cs);
    forall y | Reaches(b.card, vs, s, y) ensures ProdOf(w, cs)(y) <= CptsOf(b, vs)(y) {
      ProdIs(b, w, cs, y, w.Size());
      assert Below(cs, w.Size()) == cs;
      CptsFewer(b, vs, HousedIn(b, w.net.vars, cs), y, b.Size());
    }
    SumOverBelow(b.card, vs, s, ProdOf(w, cs), CptsOf(b, vs));
    NodesSumBelow(b, vs, s);
  }

  lemma SubtreeIsLittle(b: BayesNet, w: Job, c: nat, s: Assignment)
    requires MadeFrom(b, w) && RowsBelow(b) && FamiliesHoused(b, w.net.vars) && PathCondition(w.net)
    requires 0 < c < w.Size() && w.parent[c] < w.Size() && Over(s, w.Above(c), b.card)
    ensures Rest(w, Sub(w, c), w.Above(c), s) <= 1.0
  {
    assert Under(w, c, c);
    VarsHas(w, Sub(w, c), c);
    VarsSized(w, Sub(w, c));
    forall v | v in Vars(w, Sub(w, c)) - w.Above(c) ensures v in HousedIn(b, w.net.vars, Sub(w, c)) {
      Housed(b, w.net.vars, v);
      var m :| m in Sub(w, c) && m < |w.net.vars| && v in w.net.vars[m];
      if Home(b, w.net.vars, v) !in Sub(w, c) {
        Crossing(w, c, m, Home(b, w.net.vars, v), v);
      }
    }
    RestIsLittle(b, w, Sub(w, c), w.Above(c), s);
  }

  lemma TreeIsLittle(b: BayesNet, w: Job, c: nat, s: Assignment)
    requires MadeFrom(b, w) && RowsBelow(b) && FamiliesHoused(b, w.net.vars)
    requires 0 < c < w.Size() && w.parent[c] < w.Size() && Over(s, w.Above(c), b.card)
    ensures Rest(w, Sub(w, 0), w.Above(c), s) <= 1.0
  {
    Everything(w);
    VarsHas(w, Sub(w, 0), c);
    VarsSized(w, Sub(w, 0));
    forall v | v in Vars(w, Sub(w, 0)) ensures v in HousedIn(b, w.net.vars, Sub(w, 0)) {
      Housed(b, w.net.vars, v);
    }
    RestIsLittle(b, w, Sub(w, 0), w.Above(c), s);
  }

  lemma AllIsLittle(b: BayesNet, w: Job)
    requires MadeFrom(b, w) && RowsBelow(b) && FamiliesHoused(b, w.net.vars) && PathCondition(w.net)
    ensures AllWeighLittle(w)
  {
    forall c, s | 0 < c < w.Size() && OverAbove(w, c, s) ensures WeighsLittle(w, c, s) {
      ParentOf(w, c);
      SubtreeIsLittle(b, w, c, s);
      TreeIsLittle(b, w, c, s);
    }
  }

  lemma MadeIsSound(b: BayesNet, w: Job)
    requires MadeFrom(b, w) && PathCondition(w.net)
    ensures Sound(w)
  {
    forall c | 0 <= c < w.Size() ensures Full(w.start[c], w.net.vars[c], w.net.card) && NonNegative(w.start[c]) {
      assert IsStart(b, w.net.vars, c, w.start[c]);
      forall a | a in w.start[c] ensures w.start[c][a] >= 0.0 {
        var d := HousedIn(b, w.net.vars, {c});
        CptsFewer(b, d, d, a, b.Size());
      }
    }
  }

  // ----------------------------------------------------------------- the theorem

  ghost predicate EdgeNotClipped(w: Job, c: nat)
    requires w.Valid() && 0 < c < w.Size()
  {
    ParentOf(w, c);
    forall s :: s in Image(w.start[c], w.Above(c)) ==> Report(w, c, s) <= 1.0 && Answer(w, c, s) <= 1.0
  }

  /** If every family is housed, no sum of any message exceeds 1, so nothing is ever clipped. */
  lemma HousedIsNotClipped(b: BayesNet, w: Job)
    requires MadeFrom(b, w) && RowsBelow(b) && FamiliesHoused(b, w.net.vars) && PathCondition(w.net)
    ensures forall c :: 0 < c < w.Size() ==> EdgeNotClipped(w, c)
    ensures StaysBelow(w)
  {
    MadeIsSound(b, w);
    AllIsLittle(b, w);
    forall c | 0 < c < w.Size() ensures EdgeNotClipped(w, c) && EdgeBelow(w, c) {
      ParentOf(w, c);
      var e := w.Above(c);
      forall s | s in Image(w.start[c], e) ensures Report(w, c, s) <= 1.0 && Answer(w, c, s) <= 1.0 {
        ImageOfFull(w.start[c], w.net.vars[c], e, w.net.card);
        assert WeighsLittle(w, c, s);
        ReportIs(w, c, s);
        AnswerIs(w, c, s);
      }
    }
  }

  lemma AllVars(b: BayesNet, w: Job)
    requires MadeFrom(b, w) && FamiliesHoused(b, w.net.vars)
    ensures Vars(w, UpTo(w.Size())) == b.Nodes() == HousedIn(b, w.net.vars, UpTo(w.Size()))
  {
    VarsSized(w, UpTo(w.Size()));
    forall v | v in b.Nodes()
      ensures v in Vars(w, UpTo(w.Size())) && v in HousedIn(b, w.net.vars, UpTo(w.Size()))
    {
      Housed(b, w.net.vars, v);
    }
  }

  lemma TreeIsJoint(b: BayesNet, w: Job, y: Assignment)
    requires MadeFrom(b, w) && FamiliesHoused(b, w.net.vars) && Over(y, b.Nodes(), b.card)
    ensures ProdOf(w, UpTo(w.Size()))(y) == Joint(b)(y)
  {
    AllVars(b, w);
    ProdIs(b, w, UpTo(w.Size()), y, w.Size());
    assert Below(UpTo(w.Size()), w.Size()) == UpTo(w.Size());
  }

  lemma RestIsProbability(b: BayesNet, w: Job, e: set<nat>, a: Assignment)
    requires MadeFrom(b, w) && FamiliesHoused(b, w.net.vars) && Over(a, e, b.card)
    ensures Rest(w, Sub(w, 0), e, a) == Probability(b, e, a)
  {
    Everything(w);
    AllVars(b, w);
    var vs := b.Nodes() - e;
    VarsSized(w, UpTo(w.Size()));
    forall y | Reaches(b.card, vs, a, y) ensures ProdOf(w, UpTo(w.Size()))(y) == Joint(b)(y) {
      assert Over(y, b.Nodes(), b.card) by {
        assert y.Keys == e + vs;
        assert e <= b.Nodes();
      }
      TreeIsJoint(b, w, y);
    }
    SumOverSame(b.card, vs, a, ProdOf(w, UpTo(w.Size())), Joint(b));
  }

  /** If every family is housed, the final tables hold the exact probabilities. */
  lemma FinalIsExact(b: BayesNet, w: Job, c: nat, a: Assignment)
    requires MadeFrom(b, w) && RowsBelow(b) && FamiliesHoused(b, w.net.vars) && PathCondition(w.net)
    requires c < w.Size() && Over(a, w.net.vars[c], b.card)
    ensures a in Final(w, c) && Final(w, c)[a] == Probability(b, w.net.vars[c], a)
  {
    MadeIsSound(b, w);
    AllIsLittle(b, w);
    assert a in w.start[c];
    FinalIsMarginal(w, c, a);
    RestIsProbability(b, w, w.net.vars[c], a);
  }
}
