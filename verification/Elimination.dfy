/**
 What the forecast tables mean: the report of a clique sums the product of the
 initial tables below it, and the final table of a clique is the marginal of the
 product of all of them, as long as none of these sums exceeds 1.
 */
module Elimination {
  import opened Sequences
  import opened Trees
  import opened Tables
  import opened Summation
  import opened Schedule
  import opened Propagation
  import opened Forecast

  // ----------------------------------------------------------- the path condition

  /** Every clique on the path holds what its two ends have in common. */
  ghost predicate Carries(net: Network, p: seq<nat>)
    requires |net.vars| == |net.g| && IsPath(net.g, p)
  {
    forall k :: 0 <= k < |p| ==> net.Sep(p[0], p[|p| - 1]) <= net.vars[p[k]]
  }

  /** What makes a tree of cliques a join tree: on the path between two cliques
      every clique holds what the two have in common. */
  ghost predicate PathCondition(net: Network)
    requires |net.vars| == |net.g|
  {
    forall p :: IsPath(net.g, p) && Distinct(p) ==> Carries(net, p)
  }

  lemma WithoutLoops(g: Graph, p: seq<nat>) returns (q: seq<nat>)
    requires IsPath(g, p)
    ensures IsPath(g, q) && Distinct(q) && q[0] == p[0] && q[|q| - 1] == p[|p| - 1]
    decreases |p|
  {
    if i, j :| 0 <= i < j < |p| && p[i] == p[j] {
      var r := p[..i] + p[j..];
      assert r[0] == p[0] && r[|r| - 1] == p[|p| - 1];
      q := WithoutLoops(g, r);
    } else {
      q := p;
    }
  }

  // ------------------------------------------------------------------ subtrees

  /** Clique m hangs somewhere below c, or is c. */
  ghost predicate Under(w: Job, c: nat, m: nat)
    requires w.Valid() && m < w.Size()
    decreases w.rank[m]
  {
    m == c || (m != 0 && (ParentOf(w, m); Under(w, c, w.parent[m])))
  }

  ghost function Sub(w: Job, c: nat): set<nat>
    requires w.Valid()
  {
    set m | m in UpTo(w.Size()) && Under(w, c, m)
  }

  /** c and the subtrees of those of its children that come before k. */
  ghost function Part(w: Job, c: nat, k: nat): set<nat>
    requires w.Valid()
  {
    if k == 0 then {c}
    else if w.IsChild(k - 1, c) then Part(w, c, k - 1) + Sub(w, k - 1)
    else Part(w, c, k - 1)
  }

  lemma {:induction false} UnderIsLower(w: Job, c: nat, m: nat)
    requires w.Valid() && c < w.Size() && m < w.Size() && Under(w, c, m)
    ensures w.rank[c] <= w.rank[m]
    decreases w.rank[m]
  {
    if m != c {
      ParentOf(w, m);
      UnderIsLower(w, c, w.parent[m]);
    }
  }

  lemma {:induction false} UnderAll(w: Job, m: nat)
    requires w.Valid() && m < w.Size()
    ensures Under(w, 0, m)
    decreases w.rank[m]
  {
    if m != 0 {
      ParentOf(w, m);
      UnderAll(w, w.parent[m]);
    }
  }

  lemma {:induction false} UnderChild(w: Job, c: nat, j: nat, m: nat)
    requires w.Valid() && m < w.Size() && 0 < j < w.Size() && w.IsChild(j, c) && Under(w, j, m)
    ensures Under(w, c, m)
    decreases w.rank[m]
  {
    ParentOf(w, j);
    if m != j {
      ParentOf(w, m);
      UnderChild(w, c, j, w.parent[m]);
    } else {
      assert Under(w, c, w.parent[m]);
    }
  }

  lemma {:induction false} ChildAbove(w: Job, c: nat, m: nat) returns (j: nat)
    requires w.Valid() && m < w.Size() && Under(w, c, m) && m != c
    ensures 0 < j < w.Size() && w.IsChild(j, c) && Under(w, j, m)
    decreases w.rank[m]
  {
    ParentOf(w, m);
    if w.parent[m] == c {
      j := m;
    } else {
      j := ChildAbove(w, c, w.parent[m]);
    }
  }

  lemma {:induction false} Siblings(w: Job, c: nat, j: nat, k: nat, m: nat)
    requires w.Valid() && c < w.Size() && m < w.Size() && 0 < j < w.Size() && 0 < k < w.Size()
    requires w.IsChild(j, c) && w.IsChild(k, c) && Under(w, j, m) && Under(w, k, m)
    ensures j == k
    decreases w.rank[m]
  {
    ParentOf(w, j);
    ParentOf(w, k);
    if m == j || m == k {
      var i := if m == j then k else j;
      if i != m {
        assert Under(w, i, c);
        UnderIsLower(w, i, c);
      }
    } else {
      ParentOf(w, m);
      Siblings(w, c, j, k, w.parent[m]);
    }
  }

  lemma {:induction false} PartIs(w: Job, c: nat, k: nat, m: nat)
    requires w.Valid() && c < w.Size() && k <= w.Size()
    ensures m in Part(w, c, k) <==>
            m == c || (m < w.Size() && exists j: nat :: 0 < j < k && w.IsChild(j, c) && Under(w, j, m))
  {
    if k > 0 { PartIs(w, c, k - 1, m); }
  }

  lemma PartIsSub(w: Job, c: nat)
    requires w.Valid() && c < w.Size()
    ensures Part(w, c, w.Size()) == Sub(w, c)
  {
    forall m: nat ensures m in Part(w, c, w.Size()) <==> m in Sub(w, c) {
      PartIs(w, c, w.Size(), m);
      if m in Sub(w, c) && m != c {
        var j := ChildAbove(w, c, m);
      }
      if m in Part(w, c, w.Size()) && m != c {
        var j: nat :| 0 < j < w.Size() && w.IsChild(j, c) && Under(w, j, m);
        UnderChild(w, c, j, m);
      }
    }
  }

  /** The subtree of a child has nothing in common with the part before it. */
  lemma PartAndSub(w: Job, c: nat, k: nat)
    requires w.Valid() && c < w.Size() && 0 < k < w.Size() && w.IsChild(k, c)
    ensures Part(w, c, k) !! Sub(w, k) && c in Part(w, c, k)
  {
    PartIs(w, c, k, c);
    ParentOf(w, k);
    forall m | m in Part(w, c, k) && m in Sub(w, k) ensures false {
      PartIs(w, c, k, m);
      if m == c {
        UnderIsLower(w, k, c);
      } else {
        var j: nat :| 0 < j < k && w.IsChild(j, c) && Under(w, j, m);
        Siblings(w, c, j, k, m);
      }
    }
  }

  // ------------------------------------------------ what two sides have in common

  /** The variables of a set of cliques. */
  ghost function Vars(w: Job, cs: set<nat>): (r: set<nat>)
  {
    set m, v {:trigger v in w.net.vars[m]} | m in cs && m < |w.net.vars| && v in w.net.vars[m] :: v
  }

  lemma WayOut(w: Job, k: nat, p: seq<nat>) returns (t: nat)
    requires w.Valid() && 0 < k < w.Size() && IsPath(w.net.g, p)
    requires p[0] in Sub(w, k) && p[|p| - 1] !in Sub(w, k)
    ensures t + 1 < |p| && p[t] == k && p[t + 1] == w.parent[k]
    decreases |p|
  {
    ParentOf(w, k);
    if p[1] in Sub(w, k) {
      t := WayOut(w, k, p[1..]);
      t := t + 1;
    } else {
      t := 0;
      assert p[1] in w.net.g[p[0]];
    }
  }

  /** What a clique in a subtree shares with one outside is in the separator above the subtree. */
  lemma Crossing(w: Job, k: nat, m: nat, n: nat, v: nat)
    requires w.Valid() && PathCondition(w.net) && 0 < k < w.Size() && m < w.Size() && n < w.Size()
    requires m in Sub(w, k) && n !in Sub(w, k) && v in w.net.vars[m] && v in w.net.vars[n]
    ensures w.parent[k] < w.Size() && v in w.Above(k)
  {
    ParentOf(w, k);
    assert Linked(w.net.g, m, n);
    var p :| IsPath(w.net.g, p) && p[0] == m && p[|p| - 1] == n;
    var q := WithoutLoops(w.net.g, p);
    assert Carries(w.net, q);
    var t := WayOut(w, k, q);
    assert v in w.net.Sep(q[0], q[|q| - 1]);
    assert w.net.Sep(q[0], q[|q| - 1]) <= w.net.vars[q[t]] && w.net.Sep(q[0], q[|q| - 1]) <= w.net.vars[q[t + 1]];
  }

  lemma Separate(w: Job, k: nat, others: set<nat>)
    requires w.Valid() && PathCondition(w.net) && 0 < k < w.Size() && others !! Sub(w, k)
    requires forall m :: m in others ==> m < w.Size()
    ensures w.parent[k] < w.Size() && Vars(w, Sub(w, k)) * Vars(w, others) <= w.Above(k)
  {
    ParentOf(w, k);
    forall v | v in Vars(w, Sub(w, k)) && v in Vars(w, others) ensures v in w.Above(k) {
      var m :| m in Sub(w, k) && m < |w.net.vars| && v in w.net.vars[m];
      var n :| n in others && n < |w.net.vars| && v in w.net.vars[n];
      Crossing(w, k, m, n, v);
    }
  }

  // -------------------------------------------------------------------- products

  /** The initial weight of x at clique m, 0 for an x that is not in its table. */
  ghost function Local(w: Job, m: nat, x: Assignment): real
    requires m < |w.start| && m < |w.net.vars|
  {
    var y := Project(x, w.net.vars[m]);
    if y in w.start[m] then w.start[m][y] else 0.0
  }

  ghost function Prod(w: Job, cs: set<nat>, x: Assignment, n: nat): real
    requires n <= |w.start| && n <= |w.net.vars|
  {
    if n == 0 then 1.0
    else if n - 1 in cs then Times(Prod(w, cs, x, n - 1), Local(w, n - 1, x))
    else Prod(w, cs, x, n - 1)
  }

  /** The product of the initial tables of the cliques in cs. */
  ghost function ProdOf(w: Job, cs: set<nat>): Weighting
    requires w.Valid()
  {
    x => Prod(w, cs, x, w.Size())
  }

  lemma {:induction false} ProdUnion(w: Job, cs: set<nat>, ds: set<nat>, x: Assignment, n: nat)
    requires n <= |w.start| && n <= |w.net.vars| && cs !! ds
    ensures IsProduct(Prod(w, cs + ds, x, n), Prod(w, cs, x, n), Prod(w, ds, x, n))
  {
    if n > 0 {
      ProdUnion(w, cs, ds, x, n - 1);
      var i: nat := n - 1;
      var p, q, r := Prod(w, cs, x, i), Prod(w, ds, x, i), Prod(w, cs + ds, x, i);
      if i in cs {
        MixLeft(p, q, r, Local(w, i, x));
      } else if i in ds {
        MixRight(p, q, r, Local(w, i, x));
      }
    }
  }

  lemma VarsHas(w: Job, cs: set<nat>, m: nat)
    requires m in cs && m < |w.net.vars|
    ensures w.net.vars[m] <= Vars(w, cs)
  {
  }

  lemma {:induction false} ProdLocal(w: Job, cs: set<nat>, x: Assignment, y: Assignment, n: nat)
    requires n <= |w.start| && n <= |w.net.vars| && Project(x, Vars(w, cs)) == Project(y, Vars(w, cs))
    ensures Prod(w, cs, x, n) == Prod(w, cs, y, n)
  {
    if n > 0 {
      ProdLocal(w, cs, x, y, n - 1);
      if n - 1 in cs {
        VarsHas(w, cs, n - 1);
        ProjectInside(x, y, Vars(w, cs), w.net.vars[n - 1]);
      }
    }
  }

  lemma ProdDepends(w: Job, cs: set<nat>)
    requires w.Valid()
    ensures DependsOn(ProdOf(w, cs), Vars(w, cs))
  {
    forall x, y | Project(x, Vars(w, cs)) == Project(y, Vars(w, cs)) ensures ProdOf(w, cs)(x) == ProdOf(w, cs)(y) {
      ProdLocal(w, cs, x, y, w.Size());
    }
  }

  lemma ProdSplits(w: Job, cs: set<nat>, ds: set<nat>)
    requires w.Valid() && cs !! ds
    ensures Splits(ProdOf(w, cs + ds), ProdOf(w, cs), Vars(w, cs), ProdOf(w, ds), Vars(w, ds))
  {
    ProdDepends(w, cs);
    ProdDepends(w, ds);
    forall x ensures IsProduct(ProdOf(w, cs + ds)(x), ProdOf(w, cs)(x), ProdOf(w, ds)(x)) {
      ProdUnion(w, cs, ds, x, w.Size());
    }
  }

  lemma {:induction false} ProdSingle(w: Job, c: nat, x: Assignment, n: nat)
    requires c < |w.start| && c < |w.net.vars| && n <= |w.start| && n <= |w.net.vars|
    ensures Prod(w, {c}, x, n) == if c < n then Local(w, c, x) else 1.0
  {
    if n > 0 { ProdSingle(w, c, x, n - 1); }
  }

  lemma TimesNonNegative(x: real, y: real)
    requires x >= 0.0 && y >= 0.0
    ensures Times(x, y) >= 0.0
  {
  }

  lemma {:induction false} ProdNonNegative(w: Job, cs: set<nat>, x: Assignment, n: nat)
    requires n <= |w.start| && n <= |w.net.vars| && forall m :: 0 <= m < n ==> NonNegative(w.start[m])
    ensures Prod(w, cs, x, n) >= 0.0
  {
    if n > 0 {
      ProdNonNegative(w, cs, x, n - 1);
      TimesNonNegative(Prod(w, cs, x, n - 1), Local(w, n - 1, x));
    }
  }

  lemma VarsSized(w: Job, cs: set<nat>)
    requires w.Valid()
    ensures Sized(w.net.card, Vars(w, cs))
  {
    forall v | v in Vars(w, cs) ensures v < |w.net.card| {
      var m :| m in cs && m < |w.net.vars| && v in w.net.vars[m];
      assert Legal(w.net.vars[m], w.net.card);
    }
  }

  // ------------------------------------------------------------- on the way up

  /** A join tree with full tables of non-negative entries. */
  ghost predicate Sound(w: Job) {
    && w.Valid() && PathCondition(w.net)
    && forall c :: 0 <= c < w.Size() ==> Full(w.start[c], w.net.vars[c], w.net.card) && NonNegative(w.start[c])
  }

  /** The product of the tables of the cliques in cs, summed over their variables other than those in e. */
  ghost function Rest(w: Job, cs: set<nat>, e: set<nat>, s: Assignment): real
    requires w.Valid()
  {
    VarsSized(w, cs);
    SumOver(w.net.card, Vars(w, cs) - e, s, ProdOf(w, cs))
  }

  /** s gives a legal value to each variable of the separator above c. */
  ghost predicate OverAbove(w: Job, c: nat, s: Assignment)
    requires w.Valid() && 0 < c < w.Size()
  {
    ParentOf(w, c);
    Over(s, w.Above(c), w.net.card)
  }

  /** At s the subtree of c weighs at most 1, and so does the whole tree. */
  ghost predicate WeighsLittle(w: Job, c: nat, s: Assignment)
    requires w.Valid() && 0 < c < w.Size()
  {
    ParentOf(w, c);
    Rest(w, Sub(w, c), w.Above(c), s) <= 1.0 && Rest(w, Sub(w, 0), w.Above(c), s) <= 1.0
  }

  ghost predicate AllWeighLittle(w: Job) {
    w.Valid() && forall c, s :: 0 < c < w.Size() && OverAbove(w, c, s) ==> WeighsLittle(w, c, s)
  }

  lemma VarsOfTwo(w: Job, cs: set<nat>, ds: set<nat>)
    ensures Vars(w, cs + ds) == Vars(w, cs) + Vars(w, ds)
  {
  }

  /** Two parts of the tree that share only variables in d: their rests multiply. */
  lemma RestOfTwo(w: Job, cs: set<nat>, ds: set<nat>, e: set<nat>, d: set<nat>, x: Assignment)
    requires w.Valid() && cs !! ds && Vars(w, cs) * Vars(w, ds) <= d && d <= e && e * Vars(w, ds) <= d
    ensures IsProduct(Rest(w, cs + ds, e, x), Rest(w, cs, e, x), Rest(w, ds, d, x))
  {
    var us, vs := Vars(w, cs) - e, Vars(w, ds) - d;
    VarsSized(w, cs);
    VarsSized(w, ds);
    ProdSplits(w, cs, ds);
    assert Vars(w, cs + ds) - e == us + vs by { VarsOfTwo(w, cs, ds); }
    SumOverOfProduct(w.net.card, us, vs, x, ProdOf(w, cs + ds), ProdOf(w, cs), Vars(w, cs), ProdOf(w, ds), Vars(w, ds));
  }

  /** The rest of a part depends on what it shares with e only. */
  lemma RestLocal(w: Job, cs: set<nat>, e: set<nat>, x: Assignment, y: Assignment)
    requires w.Valid() && Project(x, e) == Project(y, e)
    ensures Rest(w, cs, e, x) == Rest(w, cs, e, y)
  {
    var vs := Vars(w, cs);
    VarsSized(w, cs);
    ProdDepends(w, cs);
    assert vs - (vs - e) <= e;
    ProjectInside(x, y, e, vs - (vs - e));
    SumOverLocal(w.net.card, vs - e, x, y, ProdOf(w, cs), vs);
  }

  /** Marginal sums of a table of rests are rests. */
  lemma RawOfRest(w: Job, t: Table, c: nat, cs: set<nat>, e: set<nat>, s: Assignment)
    requires w.Valid() && c in cs && c < w.Size() && e <= w.net.vars[c] && Over(s, e, w.net.card)
    requires Full(t, w.net.vars[c], w.net.card) && forall a :: a in t ==> t[a] == Rest(w, cs, w.net.vars[c], a)
    ensures Raw(t, e, s) == Rest(w, cs, e, s)
  {
    var vars, card := w.net.vars[c], w.net.card;
    var free := Vars(w, cs) - vars;
    VarsSized(w, cs);
    VarsHas(w, cs, c);
    assert Legal(vars, card);
    assert SumsOut(t, vars, card, free, ProdOf(w, cs));
    RawIsSumOver(t, vars, e, s, card, free, ProdOf(w, cs));
    assert free + (vars - e) == Vars(w, cs) - e;
  }

  lemma OverProject(a: Assignment, vars: set<nat>, e: set<nat>, card: seq<nat>)
    requires Over(a, vars, card) && e <= vars
    ensures Over(Project(a, e), e, card)
  {
  }

  lemma RestOfOne(w: Job, c: nat, a: Assignment)
    requires Sound(w) && c < w.Size() && a in w.start[c]
    ensures Rest(w, {c}, w.net.vars[c], a) == w.start[c][a]
  {
    VarsSized(w, {c});
    assert Vars(w, {c}) == w.net.vars[c];
    assert Vars(w, {c}) - w.net.vars[c] == {};
    ProdSingle(w, c, a, w.Size());
    assert Over(a, w.net.vars[c], w.net.card);
    assert Project(a, w.net.vars[c]) == a;
  }

  lemma RestOfPart(w: Job, c: nat, k: nat, a: Assignment)
    requires Sound(w) && c < w.Size() && 0 < k < w.Size() && w.IsChild(k, c)
    ensures IsProduct(Rest(w, Part(w, c, k) + Sub(w, k), w.net.vars[c], a),
                      Rest(w, Part(w, c, k), w.net.vars[c], a), Rest(w, Sub(w, k), w.Above(k), a))
  {
    ParentOf(w, k);
    PartAndSub(w, c, k);
    forall m | m in Part(w, c, k) ensures m < w.Size() { PartIs(w, c, k, m); }
    Separate(w, k, Part(w, c, k));
    VarsHas(w, Part(w, c, k), c);
    RestOfTwo(w, Part(w, c, k), Sub(w, k), w.net.vars[c], w.Above(k), a);
  }

  lemma WeightAfterReport(w: Job, c: nat, a: Assignment, j: nat)
    requires Sound(w) && c < w.Size() && a in w.start[c] && 0 < j < w.Size() && w.IsChild(j, c)
    requires Weight(w, c, UpTo(w.Size()), a, j) == Rest(w, Part(w, c, j), w.net.vars[c], a)
    requires var s := Project(a, w.Above(j)); Report(w, j, s) == Rest(w, Sub(w, j), w.Above(j), s) <= 1.0
    ensures Weight(w, c, UpTo(w.Size()), a, j + 1) == Rest(w, Part(w, c, j + 1), w.net.vars[c], a)
  {
    hide Rest, Sub, Report;
    var s := Project(a, w.Above(j));
    assert Project(s, w.Above(j)) == Project(a, w.Above(j));
    RestLocal(w, Sub(w, j), w.Above(j), s, a);
    RestOfPart(w, c, j, a);
  }

  /** The entries from which a clique reports sum the product of the tables in its subtree. */
  lemma {:induction false} WeightIs(w: Job, c: nat, a: Assignment, k: nat)
    requires Sound(w) && AllWeighLittle(w) && c < w.Size() && a in w.start[c] && k <= w.Size()
    ensures Weight(w, c, UpTo(w.Size()), a, k) == Rest(w, Part(w, c, k), w.net.vars[c], a)
    decreases Highest(w.rank) - w.rank[c], k
  {
    if k == 0 {
      RestOfOne(w, c, a);
    } else {
      WeightIs(w, c, a, k - 1);
      if w.IsChild(k - 1, c) {
        ParentOf(w, k - 1);
        var s := Project(a, w.Above(k - 1));
        OverProject(a, w.net.vars[c], w.Above(k - 1), w.net.card);
        ReportIs(w, k - 1, s);
        assert WeighsLittle(w, k - 1, s);
        WeightAfterReport(w, c, a, k - 1);
      }
    }
  }

  /** The report of clique c sums the product of the tables in its subtree. */
  lemma {:induction false} ReportIs(w: Job, c: nat, s: Assignment)
    requires Sound(w) && AllWeighLittle(w) && 0 < c < w.Size() && w.parent[c] < w.Size()
    requires Over(s, w.Above(c), w.net.card)
    ensures Report(w, c, s) == Rest(w, Sub(w, c), w.Above(c), s)
    decreases Highest(w.rank) - w.rank[c], w.Size() + 1
  {
    forall a | a in w.start[c] ensures Upward(w, c)[a] == Rest(w, Sub(w, c), w.net.vars[c], a) {
      WeightIs(w, c, a, w.Size());
      PartIsSub(w, c);
    }
    ParentOf(w, c);
    assert Under(w, c, c);
    RawOfRest(w, Upward(w, c), c, Sub(w, c), w.Above(c), s);
  }

  // ----------------------------------------------------------- on the way down

  lemma Everything(w: Job)
    requires w.Valid()
    ensures Sub(w, 0) == UpTo(w.Size())
  {
    forall m: nat | m < w.Size() ensures Under(w, 0, m) {
      UnderAll(w, m);
    }
  }

  /** Below and beside c. */
  lemma RestOfAll(w: Job, c: nat, e: set<nat>, a: Assignment)
    requires Sound(w) && 0 < c < w.Size() && w.parent[c] < w.Size()
    requires e == w.net.vars[c] || e == w.Above(c)
    ensures IsProduct(Rest(w, Sub(w, 0), e, a), Rest(w, Sub(w, c), e, a), Rest(w, Sub(w, 0) - Sub(w, c), w.Above(c), a))
  {
    ParentOf(w, c);
    Everything(w);
    var others := Sub(w, 0) - Sub(w, c);
    Separate(w, c, others);
    assert Under(w, c, c);
    VarsHas(w, Sub(w, c), c);
    RestOfTwo(w, Sub(w, c), others, e, w.Above(c), a);
    assert Sub(w, c) + others == Sub(w, 0);
  }

  lemma Rescale(below: real, beside: real, all: real, answer: real, report: real, f: real)
    requires IsProduct(all, below, beside) && IsProduct(answer, report, beside)
    requires f == Factor(answer, report) && (report == 0.0 ==> below == 0.0)
    ensures Times(below, f) == all
  {
    if report != 0.0 {
      assert f == beside by { assert f * report == answer; assert (f - beside) * report == 0.0; }
    }
  }

  lemma FinalEntry(w: Job, c: nat, a: Assignment)
    requires w.Valid() && 0 < c < w.Size() && a in w.start[c] && w.parent[c] < w.Size()
    ensures a in Final(w, c) && a in Upward(w, c)
    ensures var s := Project(a, w.Above(c));
            Final(w, c)[a] == Times(Upward(w, c)[a], Factor(Clip(Answer(w, c, s)), Clip(Report(w, c, s))))
  {
  }

  lemma RestNonNegative(w: Job, cs: set<nat>, e: set<nat>, x: Assignment)
    requires Sound(w)
    ensures Rest(w, cs, e, x) >= 0.0
  {
    VarsSized(w, cs);
    forall y ensures ProdOf(w, cs)(y) >= 0.0 {
      ProdNonNegative(w, cs, y, w.Size());
    }
    SumOverNonNegative(w.net.card, Vars(w, cs) - e, x, ProdOf(w, cs));
  }

  lemma ZeroReport(w: Job, c: nat, a: Assignment)
    requires Sound(w) && AllWeighLittle(w) && 0 < c < w.Size() && a in w.start[c] && w.parent[c] < w.Size()
    requires Report(w, c, Project(a, w.Above(c))) == 0.0
    ensures Upward(w, c)[a] == 0.0
  {
    forall b | b in w.start[c] ensures Upward(w, c)[b] >= 0.0 {
      WeightIs(w, c, b, w.Size());
      RestNonNegative(w, Part(w, c, w.Size()), w.net.vars[c], b);
    }
    RawBounds(Upward(w, c), w.Above(c), Project(a, w.Above(c)));
  }

  lemma FinalAfterAnswer(w: Job, c: nat, a: Assignment)
    requires Sound(w) && 0 < c < w.Size() && a in w.start[c] && w.parent[c] < w.Size()
    requires Upward(w, c)[a] == Rest(w, Sub(w, c), w.net.vars[c], a)
    requires var s := Project(a, w.Above(c));
             && Report(w, c, s) == Rest(w, Sub(w, c), w.Above(c), s) <= 1.0
             && Answer(w, c, s) == Rest(w, Sub(w, 0), w.Above(c), s) <= 1.0
             && (Report(w, c, s) == 0.0 ==> Upward(w, c)[a] == 0.0)
    ensures a in Final(w, c) && Final(w, c)[a] == Rest(w, Sub(w, 0), w.net.vars[c], a)
  {
    hide Rest;
    var e, beside := w.Above(c), Sub(w, 0) - Sub(w, c);
    var s := Project(a, e);
    RestOfAll(w, c, w.net.vars[c], a);
    RestOfAll(w, c, e, s);
    assert Project(s, e) == Project(a, e);
    RestLocal(w, beside, e, s, a);
    FinalEntry(w, c, a);
    Rescale(Upward(w, c)[a], Rest(w, beside, e, a), Rest(w, Sub(w, 0), w.net.vars[c], a),
            Answer(w, c, s), Report(w, c, s), Factor(Answer(w, c, s), Report(w, c, s)));
  }

  /** The final table of clique c is the marginal of the product of all initial tables. */
  lemma {:induction false} FinalIsMarginal(w: Job, c: nat, a: Assignment)
    requires Sound(w) && AllWeighLittle(w) && c < w.Size() && a in w.start[c]
    ensures a in Final(w, c) && Final(w, c)[a] == Rest(w, Sub(w, 0), w.net.vars[c], a)
    decreases w.rank[c], 1
  {
    WeightIs(w, c, a, w.Size());
    PartIsSub(w, c);
    if c != 0 {
      ParentOf(w, c);
      var s := Project(a, w.Above(c));
      OverProject(a, w.net.vars[c], w.Above(c), w.net.card);
      AnswerIs(w, c, s);
      ReportIs(w, c, s);
      assert WeighsLittle(w, c, s);
      if Report(w, c, s) == 0.0 { ZeroReport(w, c, a); }
      FinalAfterAnswer(w, c, a);
    }
  }

  lemma {:induction false} AnswerIs(w: Job, c: nat, s: Assignment)
    requires Sound(w) && AllWeighLittle(w) && 0 < c < w.Size() && w.parent[c] < w.Size()
    requires Over(s, w.Above(c), w.net.card)
    ensures Answer(w, c, s) == Rest(w, Sub(w, 0), w.Above(c), s)
    decreases w.rank[c], 0
  {
    ParentOf(w, c);
    var p := w.parent[c];
    forall a | a in w.start[p] ensures Final(w, p)[a] == Rest(w, Sub(w, 0), w.net.vars[p], a) {
      FinalIsMarginal(w, p, a);
    }
    Everything(w);
    assert Final(w, p).Keys == w.start[p].Keys;
    RawOfRest(w, Final(w, p), p, Sub(w, 0), w.Above(c), s);
  }
}
