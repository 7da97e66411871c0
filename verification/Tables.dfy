/**
 Joint probability tables: an assignment gives a value to each variable of a
 clique, a table gives a weight to each assignment.  The tables of the source
 keep their entries sorted by assignment; here they are maps, and two tables
 walked side by side have the same key set.
 */
module Tables {

  type Assignment = map<nat, nat>
  type Table = map<Assignment, real>

  /** `a` assigns a legal value to exactly the variables in `vars`; variable v has card[v] values. */
  ghost predicate Over(a: Assignment, vars: set<nat>, card: seq<nat>) {
    a.Keys == vars && forall v :: v in vars ==> v < |card| && a[v] < card[v]
  }

  ghost predicate Full(t: Table, vars: set<nat>, card: seq<nat>) {
    forall a :: a in t <==> Over(a, vars, card)
  }

  ghost predicate Legal(vars: set<nat>, card: seq<nat>) {
    forall v :: v in vars ==> v < |card| && card[v] > 0
  }

  function Project(a: Assignment, e: set<nat>): Assignment {
    map v | v in a && v in e :: a[v]
  }

  // ---------------------------------------------------------------- sums

  ghost function Sum(t: Table, keys: set<Assignment>): real
    requires keys <= t.Keys
  {
    if keys == {} then 0.0 else
      var a :| a in keys;
      t[a] + Sum(t, keys - {a})
  }

  lemma SumPick(t: Table, keys: set<Assignment>, a: Assignment)
    requires keys <= t.Keys && a in keys
    ensures Sum(t, keys) == t[a] + Sum(t, keys - {a})
  {
    var b :| b in keys && Sum(t, keys) == t[b] + Sum(t, keys - {b});
    if a != b {
      SumPick(t, keys - {b}, a);
      SumPick(t, keys - {a}, b);
      assert keys - {b} - {a} == keys - {a} - {b};
    }
  }

  lemma {:induction false} SumUnion(t: Table, x: set<Assignment>, y: set<Assignment>)
    requires x <= t.Keys && y <= t.Keys && x !! y
    ensures Sum(t, x + y) == Sum(t, x) + Sum(t, y)
  {
    if x == {} {
      assert x + y == y;
    } else {
      var a :| a in x;
      SumPick(t, x, a);
      SumPick(t, x + y, a);
      assert x + y - {a} == (x - {a}) + y;
      SumUnion(t, x - {a}, y);
    }
  }

  ghost predicate NonNegative(t: Table) {
    forall a :: a in t ==> t[a] >= 0.0
  }

  lemma {:induction false} SumNonNegative(t: Table, keys: set<Assignment>)
    requires keys <= t.Keys && NonNegative(t)
    ensures Sum(t, keys) >= 0.0
    ensures forall a :: a in keys ==> t[a] <= Sum(t, keys)
  {
    if keys != {} {
      forall a | a in keys ensures 0.0 <= t[a] <= Sum(t, keys) {
        SumPick(t, keys, a);
        SumNonNegative(t, keys - {a});
      }
      var a :| a in keys;
    }
  }

  lemma {:induction false} SumBelow(t: Table, u: Table, keys: set<Assignment>)
    requires keys <= t.Keys && keys <= u.Keys && forall a :: a in keys ==> t[a] <= u[a]
    ensures Sum(t, keys) <= Sum(u, keys)
  {
    if keys != {} {
      var a :| a in keys;
      SumPick(t, keys, a);
      SumPick(u, keys, a);
      SumBelow(t, u, keys - {a});
    }
  }

  /** Products are named by this relation where they meet sums, which keeps
      nonlinear terms away from the solver. */
  ghost predicate IsProduct(p: real, x: real, f: real) {
    p == x * f
  }

  function Times(x: real, f: real): (p: real)
    ensures IsProduct(p, x, f)
  {
    x * f
  }

  lemma AddProducts(x: real, y: real, f: real, p: real, q: real)
    requires IsProduct(p, x, f) && IsProduct(q, y, f)
    ensures IsProduct(p + q, x + y, f)
  {
  }

  lemma {:induction false} SumScaled(t: Table, u: Table, keys: set<Assignment>, f: real)
    requires keys <= t.Keys && keys <= u.Keys && forall a :: a in keys ==> IsProduct(u[a], t[a], f)
    ensures IsProduct(Sum(u, keys), Sum(t, keys), f)
  {
    if keys != {} {
      var a :| a in keys;
      SumScaled(t, u, keys - {a}, f);
      SumPick(t, keys, a);
      SumPick(u, keys, a);
      AddProducts(t[a], Sum(t, keys - {a}), f, u[a], Sum(u, keys - {a}));
    }
  }

  // ----------------------------------------------------------- marginals

  /** The entries of `t` that agree with `s` on the variables in `e`. */
  ghost function Fibre(t: Table, e: set<nat>, s: Assignment): (r: set<Assignment>)
    ensures r <= t.Keys
  {
    set a | a in t && Project(a, e) == s
  }

  /** The sum the source forms for separator assignment `s`, before any clipping. */
  ghost function Raw(t: Table, e: set<nat>, s: Assignment): real {
    Sum(t, Fibre(t, e, s))
  }

  ghost function Image(t: Table, e: set<nat>): set<Assignment> {
    set a | a in t :: Project(a, e)
  }

  ghost function RawTable(t: Table, e: set<nat>): Table {
    map s | s in Image(t, e) :: Raw(t, e, s)
  }

  function Clip(x: real): real {
    if x > 1.0 then 1.0 else x
  }

  /** What `marginalize` leaves in its output table. */
  ghost function Marginal(t: Table, e: set<nat>): Table {
    map s | s in Image(t, e) :: Clip(Raw(t, e, s))
  }

  ghost function Mass(t: Table): real {
    Sum(t, t.Keys)
  }

  ghost predicate Probabilities(t: Table) {
    forall a :: a in t ==> 0.0 <= t[a] <= 1.0
  }

  lemma RawBounds(t: Table, e: set<nat>, s: Assignment)
    requires NonNegative(t)
    ensures 0.0 <= Raw(t, e, s) <= Mass(t)
    ensures forall a :: a in t && Project(a, e) == s ==> t[a] <= Raw(t, e, s)
  {
    var fibre := Fibre(t, e, s);
    SumNonNegative(t, fibre);
    SumNonNegative(t, t.Keys - fibre);
    SumUnion(t, fibre, t.Keys - fibre);
    assert fibre + (t.Keys - fibre) == t.Keys;
  }

  lemma {:induction false} SumByFibre(t: Table, e: set<nat>, keys: set<Assignment>)
    requires keys <= Image(t, e)
    ensures Sum(t, set a | a in t && Project(a, e) in keys) == Sum(RawTable(t, e), keys)
  {
    var all := set a | a in t && Project(a, e) in keys;
    if keys == {} {
      assert all == {};
    } else {
      var s :| s in keys;
      SumPick(RawTable(t, e), keys, s);
      SumByFibre(t, e, keys - {s});
      var rest := set a | a in t && Project(a, e) in keys - {s};
      assert all == Fibre(t, e, s) + rest;
      SumUnion(t, Fibre(t, e, s), rest);
    }
  }

  /** A separator assignment outside the image has nothing to sum. */
  lemma MassByFibre(t: Table, e: set<nat>)
    ensures Mass(t) == Mass(RawTable(t, e))
  {
    SumByFibre(t, e, Image(t, e));
    assert t.Keys == set a | a in t && Project(a, e) in Image(t, e);
    assert RawTable(t, e).Keys == Image(t, e);
  }

  lemma ImageOfFull(t: Table, vars: set<nat>, e: set<nat>, card: seq<nat>)
    requires Full(t, vars, card) && e <= vars && Legal(vars, card)
    ensures forall s :: s in Image(t, e) <==> Over(s, e, card)
  {
    forall s | Over(s, e, card) ensures s in Image(t, e) {
      var a: Assignment := map v | v in vars :: if v in e then s[v] else 0;
      assert Over(a, vars, card);
      assert Project(a, e) == s;
    }
  }

  // ------------------------------------------------- the steps of a message

  /** joint_probability_table::add_probability on an entry that is a probability. */
  function AddProbability(t: Table, a: Assignment, p: real): (r: Table)
    requires 0.0 <= p <= 1.0
    requires a in t ==> 0.0 <= t[a] <= 1.0
    ensures r.Keys == t.Keys + {a} && 0.0 <= r[a] <= 1.0
    ensures forall b :: b in t && b != a ==> r[b] == t[b]
  {
    if a in t then t[a := Clip(t[a] + p)] else t[a := p]
  }

  /** The output table of `marginalize` once the entries in `done` were added. */
  ghost function PartMarginal(t: Table, e: set<nat>, done: set<Assignment>): Table
    requires done <= t.Keys
  {
    map s | s in (set a | a in done :: Project(a, e)) :: Clip(Sum(t, done * Fibre(t, e, s)))
  }

  lemma PartMarginalOther(t: Table, e: set<nat>, done: set<Assignment>, a: Assignment, s: Assignment)
    requires done <= t.Keys && a in t && a !in done
    requires s in PartMarginal(t, e, done) && s != Project(a, e)
    ensures s in PartMarginal(t, e, done + {a})
    ensures PartMarginal(t, e, done + {a})[s] == PartMarginal(t, e, done)[s]
  {
    assert (done + {a}) * Fibre(t, e, s) == done * Fibre(t, e, s);
    assert exists b :: b in done && Project(b, e) == s;
    assert exists b :: b in done + {a} && Project(b, e) == s;
  }

  lemma PartMarginalSame(t: Table, e: set<nat>, done: set<Assignment>, a: Assignment)
    requires Probabilities(t) && done <= t.Keys && a in t && a !in done
    ensures var s := Project(a, e); var before := PartMarginal(t, e, done); var after := PartMarginal(t, e, done + {a});
            s in after && after[s] == if s in before then Clip(before[s] + t[a]) else t[a]
  {
    var s := Project(a, e);
    assert (done + {a}) * Fibre(t, e, s) - {a} == done * Fibre(t, e, s);
    SumPick(t, (done + {a}) * Fibre(t, e, s), a);
    SumNonNegative(t, done * Fibre(t, e, s));
    assert a in done + {a} && Project(a, e) == s;
    if s !in PartMarginal(t, e, done) {
      assert done * Fibre(t, e, s) == {};
    }
  }

  lemma OneAdded(before: Table, after: Table, s: Assignment, p: real)
    requires Probabilities(before) && 0.0 <= p <= 1.0 && after.Keys == before.Keys + {s}
    requires after[s] == if s in before then Clip(before[s] + p) else p
    requires forall u :: u in before && u != s ==> u in after && after[u] == before[u]
    ensures after == AddProbability(before, s, p)
  {
  }

  lemma PartMarginalKeys(t: Table, e: set<nat>, done: set<Assignment>, a: Assignment)
    requires done <= t.Keys && a in t
    ensures PartMarginal(t, e, done + {a}).Keys == PartMarginal(t, e, done).Keys + {Project(a, e)}
  {
  }

  lemma PartMarginalIsProbabilities(t: Table, e: set<nat>, done: set<Assignment>)
    requires Probabilities(t) && done <= t.Keys
    ensures Probabilities(PartMarginal(t, e, done))
  {
    forall s | s in PartMarginal(t, e, done) ensures 0.0 <= PartMarginal(t, e, done)[s] <= 1.0 {
      SumNonNegative(t, done * Fibre(t, e, s));
    }
  }

  lemma PartMarginalStep(t: Table, e: set<nat>, done: set<Assignment>, a: Assignment)
    requires Probabilities(t) && done <= t.Keys && a in t && a !in done
    ensures Probabilities(PartMarginal(t, e, done))
    ensures PartMarginal(t, e, done + {a}) == AddProbability(PartMarginal(t, e, done), Project(a, e), t[a])
  {
    hide PartMarginal, Project, Clip;
    PartMarginalKeys(t, e, done, a);
    PartMarginalIsProbabilities(t, e, done);
    PartMarginalSame(t, e, done, a);
    forall s | s in PartMarginal(t, e, done) && s != Project(a, e)
      ensures s in PartMarginal(t, e, done + {a})
      ensures PartMarginal(t, e, done + {a})[s] == PartMarginal(t, e, done)[s]
    {
      PartMarginalOther(t, e, done, a, s);
    }
    OneAdded(PartMarginal(t, e, done), PartMarginal(t, e, done + {a}), Project(a, e), t[a]);
  }

  method Marginalize(t: Table, e: set<nat>) returns (out: Table)
    requires Probabilities(t)
    ensures out == Marginal(t, e) && Probabilities(out)
  {
    out := map[];
    var todo := t.Keys;
    ghost var done: set<Assignment> := {};
    while todo != {}
      invariant done !! todo && done + todo == t.Keys
      invariant out == PartMarginal(t, e, done) && Probabilities(out)
    {
      var a :| a in todo;
      PartMarginalStep(t, e, done, a);
      out := AddProbability(out, Project(a, e), t[a]);
      todo, done := todo - {a}, done + {a};
    }
    assert done == t.Keys;
    assert forall s :: done * Fibre(t, e, s) == Fibre(t, e, s);
  }

  /** Divide the new separator by the old one; an empty old separator stands for
      all ones, and an old entry 0 leaves the new entry as it is. */
  ghost function Quotient(new_s: Table, old_s: Table): (r: Table)
    requires old_s == map[] || old_s.Keys == new_s.Keys
  {
    if old_s == map[] then new_s
    else map s | s in new_s :: if old_s[s] != 0.0 then new_s[s] / old_s[s] else new_s[s]
  }

  ghost predicate Covers(f: Table, t: Table, e: set<nat>) {
    forall a :: a in t ==> Project(a, e) in f
  }

  ghost function Scale(t: Table, e: set<nat>, f: Table): (r: Table)
    requires Covers(f, t, e)
    ensures r.Keys == t.Keys
  {
    map a | a in t :: Times(t[a], f[Project(a, e)])
  }

  method Divide(new_s: Table, old_s: Table) returns (temp: Table)
    requires old_s == map[] || old_s.Keys == new_s.Keys
    ensures temp == Quotient(new_s, old_s)
  {
    temp := new_s;
    if |old_s| > 0 {
      var todo := temp.Keys;
      while todo != {}
        invariant todo <= new_s.Keys == temp.Keys
        invariant forall s :: s in todo ==> temp[s] == new_s[s]
        invariant forall s :: s in new_s && s !in todo ==> temp[s] == Quotient(new_s, old_s)[s]
      {
        var s :| s in todo;
        if old_s[s] != 0.0 {
          temp := temp[s := temp[s] / old_s[s]];
        }
        todo := todo - {s};
      }
    }
  }

  lemma ScaleAt(t: Table, e: set<nat>, f: Table, a: Assignment)
    requires Covers(f, t, e) && a in t
    ensures IsProduct(Scale(t, e, f)[a], t[a], f[Project(a, e)])
  {
  }

  lemma ScaleIs(t: Table, e: set<nat>, f: Table, d: Table)
    requires Covers(f, t, e) && d.Keys == t.Keys
    requires forall a :: a in t ==> IsProduct(d[a], t[a], f[Project(a, e)])
    ensures d == Scale(t, e, f)
  {
    forall a | a in t ensures d[a] == Scale(t, e, f)[a] {
      ScaleAt(t, e, f, a);
    }
  }

  method Multiply(t: Table, e: set<nat>, temp: Table) returns (d: Table)
    requires Covers(temp, t, e)
    ensures d == Scale(t, e, temp)
  {
    d := t;
    var todo := t.Keys;
    while todo != {}
      invariant todo <= t.Keys == d.Keys
      invariant forall a :: a in todo ==> d[a] == t[a]
      invariant forall a :: a in t && a !in todo ==> IsProduct(d[a], t[a], temp[Project(a, e)])
    {
      var a :| a in todo;
      d := d[a := Times(d[a], temp[Project(a, e)])];
      todo := todo - {a};
    }
    ScaleIs(t, e, temp, d);
  }

  /** Scaling by a function of the separator scales each marginal sum. */
  lemma RawOfScale(t: Table, e: set<nat>, f: Table, s: Assignment)
    requires Covers(f, t, e) && s in f
    ensures IsProduct(Raw(Scale(t, e, f), e, s), Raw(t, e, s), f[s])
  {
    var u := Scale(t, e, f);
    assert Fibre(u, e, s) == Fibre(t, e, s);
    forall a | a in Fibre(t, e, s) ensures IsProduct(u[a], t[a], f[s]) {
      ScaleAt(t, e, f, a);
    }
    SumScaled(t, u, Fibre(t, e, s), f[s]);
  }
}
