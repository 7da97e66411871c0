/**
 Sums of a weight over all legal values of a set of variables.
 */
module Summation {
  import opened Tables

  type Weighting = Assignment -> real

  ghost predicate Sized(card: seq<nat>, vs: set<nat>) {
    forall v :: v in vs ==> v < |card|
  }

  /** The sum of f over all ways to give the variables in vs legal values, the others taken from x. */
  ghost function SumOver(card: seq<nat>, vs: set<nat>, x: Assignment, f: Weighting): real
    requires Sized(card, vs)
    decreases |vs|, 0
  {
    if vs == {} then f(x) else
      var v :| v in vs;
      Slices(card, vs - {v}, x, v, card[v], f)
  }

  /** The part of the sum in which v has a value below k. */
  ghost function Slices(card: seq<nat>, vs: set<nat>, x: Assignment, v: nat, k: nat, f: Weighting): real
    requires Sized(card, vs)
    decreases |vs|, k + 1
  {
    if k == 0 then 0.0
    else Slices(card, vs, x, v, k - 1, f) + SumOver(card, vs, x[v := k - 1], f)
  }

  // ------------------------------------------------------- the order of the variables

  /** The sum in which u has a value below a and v one below b. */
  ghost function Grid(card: seq<nat>, vs: set<nat>, x: Assignment, u: nat, a: nat, v: nat, b: nat, f: Weighting): real
    requires Sized(card, vs)
  {
    if a == 0 then 0.0
    else Grid(card, vs, x, u, a - 1, v, b, f) + Slices(card, vs, x[u := a - 1], v, b, f)
  }

  lemma {:induction false} LastColumn(card: seq<nat>, vs: set<nat>, x: Assignment, u: nat, a: nat, v: nat, b: nat,
      f: Weighting)
    requires Sized(card, vs) && u != v && b > 0
    ensures Grid(card, vs, x, u, a, v, b, f) ==
            Grid(card, vs, x, u, a, v, b - 1, f) + Slices(card, vs, x[v := b - 1], u, a, f)
  {
    if a > 0 {
      LastColumn(card, vs, x, u, a - 1, v, b, f);
      assert x[u := a - 1][v := b - 1] == x[v := b - 1][u := a - 1];
    }
  }

  lemma {:induction false} GridIsEmpty(card: seq<nat>, vs: set<nat>, x: Assignment, u: nat, a: nat, v: nat,
      f: Weighting)
    requires Sized(card, vs)
    ensures Grid(card, vs, x, u, a, v, 0, f) == 0.0
  {
    if a > 0 { GridIsEmpty(card, vs, x, u, a - 1, v, f); }
  }

  lemma {:induction false} Transpose(card: seq<nat>, vs: set<nat>, x: Assignment, u: nat, a: nat, v: nat, b: nat,
      f: Weighting)
    requires Sized(card, vs) && u != v
    ensures Grid(card, vs, x, u, a, v, b, f) == Grid(card, vs, x, v, b, u, a, f)
  {
    if b == 0 {
      GridIsEmpty(card, vs, x, u, a, v, f);
    } else {
      LastColumn(card, vs, x, u, a, v, b, f);
      Transpose(card, vs, x, u, a, v, b - 1, f);
    }
  }

  lemma {:induction false} SlicesAreGrid(card: seq<nat>, vs: set<nat>, x: Assignment, u: nat, a: nat, v: nat,
      f: Weighting)
    requires Sized(card, vs) && v in vs && u !in vs
    ensures Slices(card, vs, x, u, a, f) == Grid(card, vs - {v}, x, u, a, v, card[v], f)
    decreases |vs|, 1, a
  {
    if a > 0 {
      SlicesAreGrid(card, vs, x, u, a - 1, v, f);
      PickAny(card, vs, x[u := a - 1], v, f);
    }
  }

  /** The sum may start with any of its variables. */
  lemma {:induction false} PickAny(card: seq<nat>, vs: set<nat>, x: Assignment, v: nat, f: Weighting)
    requires Sized(card, vs) && v in vs
    ensures SumOver(card, vs, x, f) == Slices(card, vs - {v}, x, v, card[v], f)
    decreases |vs|, 0, 0
  {
    var u :| u in vs && SumOver(card, vs, x, f) == Slices(card, vs - {u}, x, u, card[u], f);
    if u != v {
      SlicesAreGrid(card, vs - {u}, x, u, card[u], v, f);
      SlicesAreGrid(card, vs - {v}, x, v, card[v], u, f);
      assert vs - {u} - {v} == vs - {v} - {u};
      Transpose(card, vs - {u} - {v}, x, u, card[u], v, card[v], f);
    }
  }

  // ------------------------------------------------------------------ comparisons

  /** y is x with the variables in vs set to legal values. */
  ghost predicate Reaches(card: seq<nat>, vs: set<nat>, x: Assignment, y: Assignment)
    requires Sized(card, vs)
  {
    && y.Keys == x.Keys + vs
    && (forall v :: v in vs ==> y[v] < card[v])
    && forall v :: v in x && v !in vs ==> y[v] == x[v]
  }

  /** f is at most g wherever the sum over vs looks. */
  ghost predicate NeverAbove(card: seq<nat>, vs: set<nat>, x: Assignment, f: Weighting, g: Weighting)
    requires Sized(card, vs)
  {
    forall y :: Reaches(card, vs, x, y) ==> f(y) <= g(y)
  }

  ghost predicate SliceNeverAbove(card: seq<nat>, vs: set<nat>, x: Assignment, v: nat, i: nat, f: Weighting,
      g: Weighting)
    requires Sized(card, vs)
  {
    NeverAbove(card, vs, x[v := i], f, g)
  }

  lemma ReachesMore(card: seq<nat>, vs: set<nat>, x: Assignment, v: nat, k: nat, y: Assignment)
    requires Sized(card, vs) && v in vs && k < card[v] && Reaches(card, vs - {v}, x[v := k], y)
    ensures Reaches(card, vs, x, y)
  {
    var z := x[v := k];
    assert v in z && z[v] == k;
    assert y[v] == k;
    assert x.Keys + vs == z.Keys + (vs - {v});
    forall u | u in x && u !in vs ensures y[u] == x[u] {
      assert z[u] == x[u];
    }
  }

  lemma NeverAboveSlice(card: seq<nat>, vs: set<nat>, x: Assignment, v: nat, k: nat, f: Weighting, g: Weighting)
    requires Sized(card, vs) && v in vs && k < card[v] && NeverAbove(card, vs, x, f, g)
    ensures NeverAbove(card, vs - {v}, x[v := k], f, g)
  {
    forall y | Reaches(card, vs - {v}, x[v := k], y) ensures f(y) <= g(y) {
      ReachesMore(card, vs, x, v, k, y);
    }
  }

  lemma {:induction false} SumOverBelow(card: seq<nat>, vs: set<nat>, x: Assignment, f: Weighting, g: Weighting)
    requires Sized(card, vs) && NeverAbove(card, vs, x, f, g)
    ensures SumOver(card, vs, x, f) <= SumOver(card, vs, x, g)
    decreases |vs|, 0
  {
    if vs == {} {
      assert Reaches(card, vs, x, x);
    } else {
      hide NeverAbove;
      var v :| v in vs;
      PickAny(card, vs, x, v, f);
      PickAny(card, vs, x, v, g);
      forall i: nat | i < card[v] ensures SliceNeverAbove(card, vs - {v}, x, v, i, f, g) {
        NeverAboveSlice(card, vs, x, v, i, f, g);
      }
      SlicesBelow(card, vs - {v}, x, v, card[v], f, g);
    }
  }

  lemma {:induction false} SlicesBelow(card: seq<nat>, vs: set<nat>, x: Assignment, v: nat, k: nat, f: Weighting,
      g: Weighting)
    requires Sized(card, vs) && forall i: nat :: i < k ==> SliceNeverAbove(card, vs, x, v, i, f, g)
    ensures Slices(card, vs, x, v, k, f) <= Slices(card, vs, x, v, k, g)
    decreases |vs|, k + 1
  {
    if k > 0 {
      hide NeverAbove, SumOver;
      SlicesBelow(card, vs, x, v, k - 1, f, g);
      assert SliceNeverAbove(card, vs, x, v, k - 1, f, g);
      SumOverBelow(card, vs, x[v := k - 1], f, g);
    }
  }

  lemma SumOverSame(card: seq<nat>, vs: set<nat>, x: Assignment, f: Weighting, g: Weighting)
    requires Sized(card, vs) && forall y :: Reaches(card, vs, x, y) ==> f(y) == g(y)
    ensures SumOver(card, vs, x, f) == SumOver(card, vs, x, g)
  {
    SumOverBelow(card, vs, x, f, g);
    SumOverBelow(card, vs, x, g, f);
  }

  lemma {:induction false} SumOverNonNegative(card: seq<nat>, vs: set<nat>, x: Assignment, f: Weighting)
    requires Sized(card, vs) && forall y :: f(y) >= 0.0
    ensures SumOver(card, vs, x, f) >= 0.0
    decreases |vs|, 0
  {
    if vs != {} {
      var v :| v in vs;
      PickAny(card, vs, x, v, f);
      SlicesNonNegative(card, vs - {v}, x, v, card[v], f);
    }
  }

  lemma {:induction false} SlicesNonNegative(card: seq<nat>, vs: set<nat>, x: Assignment, v: nat, k: nat, f: Weighting)
    requires Sized(card, vs) && forall y :: f(y) >= 0.0
    ensures Slices(card, vs, x, v, k, f) >= 0.0
    decreases |vs|, k + 1
  {
    if k > 0 {
      SlicesNonNegative(card, vs, x, v, k - 1, f);
      SumOverNonNegative(card, vs, x[v := k - 1], f);
    }
  }

  // -------------------------------------------------------------------- products

  /** f looks at the variables in d only. */
  ghost predicate DependsOn(f: Weighting, d: set<nat>) {
    forall y, y' :: Project(y, d) == Project(y', d) ==> f(y) == f(y')
  }

  /** Nor does a sum look at any others. */
  lemma {:induction false} SumOverLocal(card: seq<nat>, vs: set<nat>, x: Assignment, x': Assignment, f: Weighting,
      d: set<nat>)
    requires Sized(card, vs) && DependsOn(f, d) && Project(x, d - vs) == Project(x', d - vs)
    ensures SumOver(card, vs, x, f) == SumOver(card, vs, x', f)
    decreases |vs|, 0
  {
    if vs == {} {
      assert d - vs == d;
    } else {
      var v :| v in vs;
      PickAny(card, vs, x, v, f);
      PickAny(card, vs, x', v, f);
      SlicesLocal(card, vs, x, x', v, card[v], f, d);
    }
  }

  lemma ProjectUpdate(x: Assignment, x': Assignment, v: nat, k: nat, d: set<nat>)
    requires Project(x, d - {v}) == Project(x', d - {v})
    ensures Project(x[v := k], d) == Project(x'[v := k], d)
  {
    var p, p' := Project(x[v := k], d), Project(x'[v := k], d);
    forall u ensures u in p <==> u in p' {
      assert u != v ==> (u in p <==> u in Project(x, d - {v})) && (u in p' <==> u in Project(x', d - {v}));
    }
    forall u | u in p ensures p[u] == p'[u] {
      assert u != v ==> Project(x, d - {v})[u] == Project(x', d - {v})[u];
    }
  }

  lemma {:induction false} SlicesLocal(card: seq<nat>, vs: set<nat>, x: Assignment, x': Assignment, v: nat, k: nat,
      f: Weighting, d: set<nat>)
    requires Sized(card, vs) && DependsOn(f, d) && Project(x, d - vs) == Project(x', d - vs) && v in vs
    ensures Slices(card, vs - {v}, x, v, k, f) == Slices(card, vs - {v}, x', v, k, f)
    decreases |vs - {v}|, k + 1
  {
    if k > 0 {
      SlicesLocal(card, vs, x, x', v, k - 1, f, d);
      var d' := d - (vs - {v});
      assert d' - {v} == d - vs;
      ProjectUpdate(x, x', v, k - 1, d');
      SumOverLocal(card, vs - {v}, x[v := k - 1], x'[v := k - 1], f, d);
    }
  }

  lemma MixLeft(p: real, q: real, r: real, f: real)
    requires IsProduct(r, p, q)
    ensures IsProduct(Times(r, f), Times(p, f), q)
  {
  }

  lemma MixRight(p: real, q: real, r: real, f: real)
    requires IsProduct(r, p, q)
    ensures IsProduct(Times(r, f), p, Times(q, f))
  {
  }

  lemma ProjectInside(x: Assignment, y: Assignment, d: set<nat>, e: set<nat>)
    requires e <= d && Project(x, d) == Project(y, d)
    ensures Project(x, e) == Project(y, e)
  {
    assert Project(x, e) == Project(Project(x, d), e);
    assert Project(y, e) == Project(Project(y, d), e);
  }

  /** f is the product of g and h, which look at d and e only. */
  ghost predicate Splits(f: Weighting, g: Weighting, d: set<nat>, h: Weighting, e: set<nat>) {
    DependsOn(g, d) && DependsOn(h, e) && forall y :: IsProduct(f(y), g(y), h(y))
  }

  lemma SplitsCommute(f: Weighting, g: Weighting, d: set<nat>, h: Weighting, e: set<nat>)
    requires Splits(f, g, d, h, e)
    ensures Splits(f, h, e, g, d)
  {
    forall y ensures IsProduct(f(y), h(y), g(y)) {
      assert IsProduct(f(y), g(y), h(y));
    }
  }

  /** A sum of products over separate variables is a product of sums. */
  lemma {:induction false} SumOverOfProduct(card: seq<nat>, us: set<nat>, vs: set<nat>, x: Assignment, f: Weighting,
      g: Weighting, d: set<nat>, h: Weighting, e: set<nat>)
    requires Sized(card, us + vs) && Sized(card, us) && Sized(card, vs) && Splits(f, g, d, h, e)
    requires us !! vs && us !! e && vs !! d
    ensures IsProduct(SumOver(card, us + vs, x, f), SumOver(card, us, x, g), SumOver(card, vs, x, h))
    decreases |us| + |vs|, if us == {} then 1 else 0, 0
  {
    if us == {} && vs == {} {
      assert us + vs == {};
    } else if us == {} {
      SplitsCommute(f, g, d, h, e);
      SumOverOfProduct(card, vs, us, x, f, h, e, g, d);
      assert us + vs == vs + us;
    } else {
      var v :| v in us;
      PickAny(card, us + vs, x, v, f);
      PickAny(card, us, x, v, g);
      assert us + vs - {v} == (us - {v}) + vs;
      SlicesOfProduct(card, us, vs, x, v, card[v], f, g, d, h, e);
    }
  }

  lemma {:induction false} SlicesOfProduct(card: seq<nat>, us: set<nat>, vs: set<nat>, x: Assignment, v: nat, k: nat,
      f: Weighting, g: Weighting, d: set<nat>, h: Weighting, e: set<nat>)
    requires Sized(card, us + vs) && Sized(card, us) && Sized(card, vs) && Splits(f, g, d, h, e)
    requires us !! vs && us !! e && vs !! d && v in us
    ensures IsProduct(Slices(card, us - {v} + vs, x, v, k, f), Slices(card, us - {v}, x, v, k, g),
                      SumOver(card, vs, x, h))
    decreases |us - {v}| + |vs|, 1, k + 1
  {
    if k > 0 {
      SlicesOfProduct(card, us, vs, x, v, k - 1, f, g, d, h, e);
      var y := x[v := k - 1];
      SumOverOfProduct(card, us - {v}, vs, y, f, g, d, h, e);
      assert Project(x, e - vs) == Project(y, e - vs);
      SumOverLocal(card, vs, x, y, h, e);
      AddProducts(Slices(card, us - {v}, x, v, k - 1, g), SumOver(card, us - {v}, y, g), SumOver(card, vs, x, h),
                  Slices(card, us - {v} + vs, x, v, k - 1, f), SumOver(card, us - {v} + vs, y, f));
    }
  }

  // ---------------------------------------------------------------------- tables

  lemma {:induction false} FibreOfAll(t: Table, vars: set<nat>, s: Assignment, card: seq<nat>)
    requires Full(t, vars, card) && Over(s, vars, card)
    ensures s in t && Raw(t, vars, s) == t[s]
  {
    assert Project(s, vars) == s;
    forall a | a in t && Project(a, vars) == s ensures a == s {
      assert Project(a, vars) == a;
    }
    assert Fibre(t, vars, s) == {s};
    SumPick(t, {s}, s);
    assert {s} - {s} == {};
  }

  ghost function FibreBelow(t: Table, e: set<nat>, s: Assignment, v: nat, k: nat): (r: set<Assignment>)
    ensures r <= t.Keys
  {
    set a | a in t && Project(a, e) == s && v in a && a[v] < k
  }

  lemma ProjectMore(a: Assignment, e: set<nat>, s: Assignment, v: nat, k: nat)
    requires v in a && v !in e
    ensures Project(a, e + {v}) == s[v := k] && v !in s <==> Project(a, e) == s && a[v] == k && v !in s
  {
    var p, q := Project(a, e), Project(a, e + {v});
    assert q == p[v := a[v]];
    if q == s[v := k] && v !in s {
      assert q[v] == k;
      forall u ensures u in p <==> u in s {
        assert u != v ==> (u in q <==> u in p);
        assert u != v ==> (u in s[v := k] <==> u in s);
      }
      forall u | u in p ensures p[u] == s[u] {
        assert p[u] == q[u];
      }
      assert p == s;
    }
  }

  lemma LastSlice(t: Table, vars: set<nat>, e: set<nat>, s: Assignment, card: seq<nat>, v: nat, k: nat)
    requires Full(t, vars, card) && v in vars && v !in e && Over(s, e, card) && k > 0
    ensures Sum(t, FibreBelow(t, e, s, v, k)) ==
            Sum(t, FibreBelow(t, e, s, v, k - 1)) + Raw(t, e + {v}, s[v := k - 1])
  {
    var last := Fibre(t, e + {v}, s[v := k - 1]);
    forall a | a in t ensures a in last <==> Project(a, e) == s && v in a && a[v] == k - 1 {
      assert Over(a, vars, card);
      ProjectMore(a, e, s, v, k - 1);
    }
    assert FibreBelow(t, e, s, v, k) == FibreBelow(t, e, s, v, k - 1) + last;
    SumUnion(t, FibreBelow(t, e, s, v, k - 1), last);
  }

  /** The entries of t are sums over the variables in `free`. */
  ghost predicate SumsOut(t: Table, vars: set<nat>, card: seq<nat>, free: set<nat>, f: Weighting) {
    && Full(t, vars, card) && Legal(vars, card) && free !! vars && Sized(card, free + vars) && Sized(card, free)
    && forall a :: a in t ==> t[a] == SumOver(card, free, a, f)
  }

  lemma SumsOutSized(t: Table, vars: set<nat>, card: seq<nat>, free: set<nat>, f: Weighting, e: set<nat>)
    requires SumsOut(t, vars, card, free, f)
    ensures Sized(card, free + (vars - e)) && free !! vars && Full(t, vars, card)
  {
  }

  lemma OverMore(s: Assignment, e: set<nat>, card: seq<nat>, v: nat, k: nat)
    requires Over(s, e, card) && v < |card| && k < card[v]
    ensures Over(s[v := k], e + {v}, card)
  {
  }

  lemma NothingBelow(t: Table, e: set<nat>, s: Assignment, v: nat)
    ensures Sum(t, FibreBelow(t, e, s, v, 0)) == 0.0
  {
    assert FibreBelow(t, e, s, v, 0) == {};
  }

  lemma RestOfVars(free: set<nat>, vars: set<nat>, e: set<nat>, v: nat)
    requires v in vars && v !in e && free !! vars
    ensures free + (vars - (e + {v})) == free + (vars - e) - {v}
    ensures vars - (e + {v}) < vars - e
    ensures |vars - (e + {v})| < |vars - e|
  {
    assert vars - (e + {v}) == vars - e - {v};
  }

  /** The entries below s are split by the value of one more variable. */
  lemma {:induction false} FibreSlices(t: Table, vars: set<nat>, e: set<nat>, s: Assignment, card: seq<nat>, v: nat,
      k: nat, free: set<nat>, f: Weighting)
    requires SumsOut(t, vars, card, free, f) && e <= vars && v in vars && v !in e && Over(s, e, card) && k <= card[v]
    requires Sized(card, free + (vars - e) - {v})
    ensures Sum(t, FibreBelow(t, e, s, v, k)) == Slices(card, free + (vars - e) - {v}, s, v, k, f)
    decreases |vars - e|, 0, k
  {
    hide SumsOut, Full, Over, Fibre, FibreBelow, Raw, Legal;
    SumsOutSized(t, vars, card, free, f, e);
    if k == 0 {
      NothingBelow(t, e, s, v);
    } else {
      FibreSlices(t, vars, e, s, card, v, k - 1, free, f);
      LastSlice(t, vars, e, s, card, v, k);
      OverMore(s, e, card, v, k - 1);
      RestOfVars(free, vars, e, v);
      RawIsSumOver(t, vars, e + {v}, s[v := k - 1], card, free, f);
    }
  }

  /** If the entries of a table are sums over the variables in `free`, its marginal
      sums are sums over those and the variables that were summed out. */
  lemma {:induction false} RawIsSumOver(t: Table, vars: set<nat>, e: set<nat>, s: Assignment, card: seq<nat>,
      free: set<nat>, f: Weighting)
    requires SumsOut(t, vars, card, free, f) && e <= vars && Over(s, e, card)
    ensures Sized(card, free + (vars - e))
    ensures Raw(t, e, s) == SumOver(card, free + (vars - e), s, f)
    decreases |vars - e|, 1, 0
  {
    SumsOutSized(t, vars, card, free, f, e);
    if vars == e {
      assert vars - e == {};
      assert free + (vars - e) == free;
      FibreOfAll(t, vars, s, card);
    } else {
      var v :| v in vars && v !in e;
      FibreSlices(t, vars, e, s, card, v, card[v], free, f);
      assert Fibre(t, e, s) == FibreBelow(t, e, s, v, card[v]);
      PickAny(card, free + (vars - e), s, v, f);
    }
  }
}
