/**
 Three more things every message keeps: the order of the messages already sent,
 the joint distribution the tables stand for, and, if no clique starts with more
 than one unit of weight, the absence of clipping.
 */
module Invariants {
  import opened Trees
  import opened Tables
  import opened Schedule
  import opened Calibration
  import opened Propagation

  // ------------------------------------------------------ the order of messages

  /** Message number t went from a node that had heard from all its other
      neighbours; the root had heard from everybody. */
  ghost predicate Timely(g: Graph, log: seq<Edge>, t: nat)
    requires t < |log|
  {
    var (i, j) := log[t];
    i < |g| && j in g[i] && forall k :: k in g[i] && (k != j || i == 0) ==> (k, i) in log[..t]
  }

  ghost predicate NoRepeats(log: seq<Edge>) {
    forall t, u :: 0 <= t < u < |log| ==> log[t] != log[u]
  }

  ghost predicate Ordered(g: Graph, log: seq<Edge>) {
    NoRepeats(log) && forall t :: 0 <= t < |log| ==> Timely(g, log, t)
  }

  ghost predicate LogOk(net: Network, st: State) {
    && |st.send| == |st.recv| == |net.g|
    && Ordered(net.g, st.log)
    && forall i: nat, j: nat :: (i, j) in st.log <==> Sent(net.g, st.send, i, j)
  }

  lemma SendKeepsLog(net: Network, st: State, i: nat, j: nat)
    requires WellFormed(net.g) && Safe(net.g, st.send, st.recv) && LogOk(net, st)
    requires Ready(net, st, i, j) && Fits(net, st, i, j) && j < |net.g|
    ensures LogOk(net, Send(net, st, i, j))
  {
    StepKeepsSafe(net.g, st.send, st.recv, i, j);
    var st' := Send(net, st, i, j);
    assert (i, j) !in st.log by { assert !Sent(net.g, st.send, i, j); }
    forall t | 0 <= t < |st'.log| ensures Timely(net.g, st'.log, t) {
      if t < |st.log| {
        assert Timely(net.g, st.log, t);
        assert st'.log[..t] == st.log[..t];
      } else {
        assert st'.log[..t] == st.log;
        forall k | k in net.g[i] && (k != j || i == 0) ensures (k, i) in st.log {
          assert Sent(net.g, st.send, k, i);
        }
      }
    }
    forall k: nat, l: nat ensures (k, l) in st'.log <==> Sent(net.g, st'.send, k, l) {
      assert Sent(net.g, st'.send, k, l) <==> Sent(net.g, st.send, k, l) || (k == i && l == j);
    }
  }

  /** In a timely log the root has spoken before any message away from it. */
  lemma {:induction false} RootSpeaksFirst(g: Graph, parent: seq<nat>, rank: seq<nat>, log: seq<Edge>, t: nat)
    requires Rooted(g, parent, rank) && Ordered(g, log) && t < |log|
    requires 0 < log[t].1 < |g| && log[t].0 == parent[log[t].1]
    ensures exists u :: 0 <= u <= t && log[u].0 == 0
    decreases t
  {
    var (p, c) := log[t];
    assert Timely(g, log, t);
    assert Hangs(g, parent, rank, c);
    if p != 0 {
      assert Hangs(g, parent, rank, p);
      assert parent[p] != c && (parent[p], p) in log[..t];
      var u :| 0 <= u < t && log[u] == (parent[p], p);
      RootSpeaksFirst(g, parent, rank, log, u);
    }
  }

  // ------------------------------------------------------ the joint distribution

  ghost function Product(s: seq<real>): real {
    if s == [] then 1.0 else Times(Product(s[..|s| - 1]), s[|s| - 1])
  }

  lemma SwapFactors(p: real, inner: real, x: real, y: real, whole: real, rest: real)
    requires IsProduct(p, inner, x) && IsProduct(whole, p, y) && IsProduct(rest, inner, y)
    ensures IsProduct(whole, rest, x)
  {
  }

  /** One factor of a product can be taken out; the rest does not depend on it. */
  lemma {:induction false} TakeOut(s: seq<real>, k: nat, v: real) returns (rest: real)
    requires k < |s|
    ensures IsProduct(Product(s), rest, s[k]) && IsProduct(Product(s[k := v]), rest, v)
  {
    var last := |s| - 1;
    if k == last {
      rest := Product(s[..last]);
      assert s[k := v][..last] == s[..last];
    } else {
      assert s[k := v][..last] == s[..last][k := v];
      var inner := TakeOut(s[..last], k, v);
      rest := Times(inner, s[last]);
      SwapFactors(Product(s[..last]), inner, s[k], s[last], Product(s), rest);
      SwapFactors(Product(s[..last][k := v]), inner, v, s[last], Product(s[k := v]), rest);
    }
  }

  /** The weight of x at each clique. */
  ghost function CliqueWeights(net: Network, tables: seq<Table>, x: Assignment): seq<real>
    requires |tables| == |net.vars|
  {
    seq(|tables|, i requires 0 <= i < |tables| =>
      var y := Project(x, net.vars[i]); if y in tables[i] then tables[i][y] else 0.0)
  }

  /** The weight of x at the separator above clique c, 1 while no message has passed. */
  ghost function SepWeight(net: Network, parent: seq<nat>, seps: map<Edge, Table>, x: Assignment, c: nat): real
    requires |parent| == |net.vars| && c < |net.vars|
  {
    if c != 0 && parent[c] < |net.vars| && Key(c, parent[c]) in seps then
      var sep, s := seps[Key(c, parent[c])], Project(x, net.Sep(c, parent[c]));
      if s in sep then sep[s] else 1.0
    else 1.0
  }

  ghost function SepWeights(net: Network, parent: seq<nat>, seps: map<Edge, Table>, x: Assignment): seq<real>
    requires |parent| == |net.vars|
  {
    seq(|net.vars|, c requires 0 <= c < |net.vars| => SepWeight(net, parent, seps, x, c))
  }

  /** x gives every variable of every clique a legal value. */
  ghost predicate World(net: Network, x: Assignment) {
    forall i, v :: 0 <= i < |net.vars| && v in net.vars[i] ==> v in x && v < |net.card| && x[v] < net.card[v]
  }

  lemma WorldInTables(net: Network, st: State, x: Assignment)
    requires |st.tables| == |net.vars| && TablesOk(net, st) && World(net, x)
    ensures forall i :: 0 <= i < |st.tables| ==> Project(x, net.vars[i]) in st.tables[i]
  {
    forall i | 0 <= i < |st.tables| ensures Project(x, net.vars[i]) in st.tables[i] {
      assert Over(Project(x, net.vars[i]), net.vars[i], net.card);
      assert Full(st.tables[i], net.vars[i], net.card);
    }
  }

  /** The child end of the edge between i and j. */
  ghost function ChildEnd(parent: seq<nat>, i: nat, j: nat): nat
    requires i < |parent|
  {
    if i != 0 && j == parent[i] then i else j
  }

  lemma ProjectTwice(x: Assignment, vars: set<nat>, e: set<nat>)
    requires e <= vars
    ensures Project(Project(x, vars), e) == Project(x, e)
  {
  }

  lemma QuotientValue(n: real, o: real, f: real)
    requires f == if o != 0.0 then n / o else n
    requires o == 0.0 ==> n == 0.0
    ensures IsProduct(n, f, o)
  {
  }

  /** Where the separator is already 0, the next message is 0 too. */
  lemma AnswerToZero(net: Network, parent: seq<nat>, rank: seq<nat>, st: State, i: nat, j: nat, s: Assignment)
    requires Inv(net, parent, rank, st) && Ready(net, st, i, j) && Fits(net, st, i, j)
    requires s in st.seps[Key(i, j)] && st.seps[Key(i, j)][s] == 0.0
    requires s in Marginal(st.tables[i], net.Sep(i, j))
    ensures Marginal(st.tables[i], net.Sep(i, j))[s] == 0.0
  {
    StepKeepsSafe(net.g, st.send, st.recv, i, j);
    SepSymmetric(net, i, j);
    assert j in net.g[i];
    assert i != 0 ==> EdgeOk(net, parent, st, i);
    if !(i != 0 && j == parent[i]) {
      AnswerIsLate(net, parent, rank, st, j);
      assert EdgeOk(net, parent, st, j);
      SumOfZeros(st.tables[i], Fibre(st.tables[i], net.Sep(i, j), s));
    }
  }

  /** The edge of a ready message is the one above its child end. */
  lemma ChildEndOf(net: Network, parent: seq<nat>, rank: seq<nat>, st: State, i: nat, j: nat)
    requires Inv(net, parent, rank, st) && Ready(net, st, i, j) && Fits(net, st, i, j)
    ensures j < |net.g| == |net.vars| == |parent| && i < |net.g|
    ensures var c := ChildEnd(parent, i, j);
            && 0 < c < |net.g| && parent[c] < |net.g| && Key(c, parent[c]) == Key(i, j)
            && net.Sep(c, parent[c]) == net.Sep(i, j)
  {
    TravelledEdge(net, parent, rank, st, i, j);
    SepSymmetric(net, i, j);
  }

  /** The receiver's entry is multiplied by the factor by which the separator's weight changes. */
  lemma FactorOf(net: Network, parent: seq<nat>, rank: seq<nat>, st: State, i: nat, j: nat, x: Assignment)
    requires Inv(net, parent, rank, st) && Ready(net, st, i, j) && Fits(net, st, i, j) && World(net, x)
    ensures j < |net.g|
    ensures var e, c := net.Sep(i, j), ChildEnd(parent, i, j); var s := Project(x, e);
      var new_s := Marginal(st.tables[i], e);
            && c < |net.g| && s in new_s
            && IsProduct(new_s[s], Quotient(new_s, st.seps[Key(i, j)])[s], SepWeight(net, parent, st.seps, x, c))
  {
    ChildEndOf(net, parent, rank, st, i, j);
    assert Project(x, net.vars[i]) in st.tables[i] by { WorldInTables(net, st, x); }
    var e := net.Sep(i, j);
    var s := Project(x, e);
    var old_s, new_s := st.seps[Key(i, j)], Marginal(st.tables[i], e);
    ProjectTwice(x, net.vars[i], e);
    assert s in Image(st.tables[i], e);
    if old_s != map[] {
      if old_s[s] == 0.0 {
        AnswerToZero(net, parent, rank, st, i, j, s);
      }
      hide Inv, ChildEnd, Clip, Raw;
      QuotientValue(new_s[s], old_s[s], Quotient(new_s, old_s)[s]);
    }
  }

  /** The product of the clique tables is k times the product of the separators. */
  ghost predicate StandsFor(net: Network, parent: seq<nat>, st: State, x: Assignment, k: real)
    requires |st.tables| == |parent| == |net.vars|
  {
    && (forall i :: 0 <= i < |st.tables| ==> Project(x, net.vars[i]) in st.tables[i])
    && IsProduct(Product(CliqueWeights(net, st.tables, x)), k, Product(SepWeights(net, parent, st.seps, x)))
  }

  lemma RescaledProducts(k: real, f: real, m: real, m': real, q: real, q': real, pm: real, pm': real, pq: real,
      pq': real, rm: real, rq: real)
    requires IsProduct(pm, rm, m) && IsProduct(pm', rm, m') && IsProduct(pq, rq, q) && IsProduct(pq', rq, q')
    requires IsProduct(m', m, f) && IsProduct(q', f, q) && IsProduct(pm, k, pq)
    ensures IsProduct(pm', k, pq')
  {
    calc {
      pm';
      rm * (m * f);
      (rm * m) * f;
      (k * (rq * q)) * f;
      k * ((rq * q) * f);
      k * (rq * (q * f));
    }
  }

  lemma RescaledWeights(cliques: seq<real>, seps: seq<real>, j: nat, c: nat, d: real, n: real, k: real, f: real)
    requires j < |cliques| && c < |seps|
    requires IsProduct(d, cliques[j], f) && IsProduct(n, f, seps[c])
    requires IsProduct(Product(cliques), k, Product(seps))
    ensures IsProduct(Product(cliques[j := d]), k, Product(seps[c := n]))
  {
    var rm := TakeOut(cliques, j, d);
    var rq := TakeOut(seps, c, n);
    RescaledProducts(k, f, cliques[j], d, seps[c], n, Product(cliques), Product(cliques[j := d]),
                     Product(seps), Product(seps[c := n]), rm, rq);
  }

  lemma OtherKey(net: Network, parent: seq<nat>, rank: seq<nat>, i: nat, j: nat, b: nat)
    requires Hung(net, parent, rank) && i < |net.g| && j in net.g[i] && 0 < b < |net.g|
    requires b != ChildEnd(parent, i, j)
    ensures Key(b, parent[b]) != Key(i, j)
  {
    assert Hangs(net.g, parent, rank, b);
    assert (i != 0 && j == parent[i]) || (j != 0 && i == parent[j]);
    if i != 0 { assert Hangs(net.g, parent, rank, i); }
    if j != 0 { assert Hangs(net.g, parent, rank, j); }
  }

  lemma SepWeightsStep(net: Network, parent: seq<nat>, rank: seq<nat>, seps: map<Edge, Table>, i: nat, j: nat,
      x: Assignment, n: Table)
    requires Hung(net, parent, rank) && i < |net.g| && j < |net.g| && j in net.g[i]
    requires Project(x, net.Sep(i, j)) in n
    ensures var c := ChildEnd(parent, i, j);
            c < |net.g| && SepWeights(net, parent, seps[Key(i, j) := n], x) ==
            SepWeights(net, parent, seps, x)[c := n[Project(x, net.Sep(i, j))]]
  {
    assert (i != 0 && j == parent[i]) || (j != 0 && i == parent[j]);
    SepSymmetric(net, i, j);
    forall b | 0 < b < |net.g| && b != ChildEnd(parent, i, j) ensures Key(b, parent[b]) != Key(i, j) {
      OtherKey(net, parent, rank, i, j, b);
    }
  }

  lemma ReceivedEntry(net: Network, st: State, i: nat, j: nat, x: Assignment, f: real)
    requires Fits(net, st, i, j) && Project(x, net.vars[j]) in st.tables[j]
    requires var e := net.Sep(i, j); var new_s := Marginal(st.tables[i], e);
             Project(x, e) in new_s && f == Quotient(new_s, st.seps[Key(i, j)])[Project(x, e)]
    ensures var d := Receive(net, st, i, j); var y := Project(x, net.vars[j]);
            y in d && IsProduct(d[y], st.tables[j][y], f)
  {
    var e := net.Sep(i, j);
    ProjectTwice(x, net.vars[j], e);
    ScaleAt(st.tables[j], e, Quotient(Marginal(st.tables[i], e), st.seps[Key(i, j)]), Project(x, net.vars[j]));
  }

  lemma CliqueWeightsStep(net: Network, tables: seq<Table>, j: nat, d: Table, x: Assignment)
    requires j < |tables| == |net.vars| && Project(x, net.vars[j]) in d
    requires forall k :: 0 <= k < |tables| ==> Project(x, net.vars[k]) in tables[k]
    ensures forall k :: 0 <= k < |tables| ==> Project(x, net.vars[k]) in tables[j := d][k]
    ensures CliqueWeights(net, tables[j := d], x) == CliqueWeights(net, tables, x)[j := d[Project(x, net.vars[j])]]
  {
  }

  lemma ReadyIsEdge(net: Network, parent: seq<nat>, rank: seq<nat>, st: State, i: nat, j: nat)
    requires Inv(net, parent, rank, st) && Ready(net, st, i, j)
    ensures Hung(net, parent, rank) && i < |net.g| == |net.vars| == |parent| && j < |net.g| && j in net.g[i]
  {
    StepKeepsSafe(net.g, st.send, st.recv, i, j);
  }

  /** A message changes one clique's weight and one separator's. */
  lemma SentWeights(net: Network, parent: seq<nat>, rank: seq<nat>, st: State, i: nat, j: nat, x: Assignment)
    requires Hung(net, parent, rank) && Fits(net, st, i, j) && j < |net.g| && i < |net.g| && j in net.g[i]
    requires |st.send| == |st.recv| == |net.g| == |parent| && Project(x, net.vars[j]) in Receive(net, st, i, j)
    requires forall k :: 0 <= k < |st.tables| ==> Project(x, net.vars[k]) in st.tables[k]
    requires Project(x, net.Sep(i, j)) in Marginal(st.tables[i], net.Sep(i, j))
    ensures ChildEnd(parent, i, j) < |net.g|
    ensures var st', d := Send(net, st, i, j), Receive(net, st, i, j)[Project(x, net.vars[j])];
            var n := Marginal(st.tables[i], net.Sep(i, j))[Project(x, net.Sep(i, j))];
            && |st'.tables| == |net.vars|
            && (forall k :: 0 <= k < |st'.tables| ==> Project(x, net.vars[k]) in st'.tables[k])
            && CliqueWeights(net, st'.tables, x) == CliqueWeights(net, st.tables, x)[j := d]
            && SepWeights(net, parent, st'.seps, x) ==
              SepWeights(net, parent, st.seps, x)[ChildEnd(parent, i, j) := n]
  {
    hide Hung, Marginal, CliqueWeights, SepWeights, ChildEnd;
    SepWeightsStep(net, parent, rank, st.seps, i, j, x, Marginal(st.tables[i], net.Sep(i, j)));
    CliqueWeightsStep(net, st.tables, j, Receive(net, st, i, j), x);
  }

  /** Messages do not change the distribution the tables stand for. */
  lemma SendKeepsJoint(net: Network, parent: seq<nat>, rank: seq<nat>, st: State, i: nat, j: nat, x: Assignment,
      k: real)
    requires Inv(net, parent, rank, st) && Ready(net, st, i, j) && Fits(net, st, i, j) && World(net, x)
    requires StandsFor(net, parent, st, x, k)
    ensures StandsFor(net, parent, Send(net, st, i, j), x, k)
  {
    FactorOf(net, parent, rank, st, i, j, x);
    ReadyIsEdge(net, parent, rank, st, i, j);
    hide Inv, Hung, Ready, Fits, World, Receive, Send, Product;
    var e, c := net.Sep(i, j), ChildEnd(parent, i, j);
    var n := Marginal(st.tables[i], e)[Project(x, e)];
    var f := Quotient(Marginal(st.tables[i], e), st.seps[Key(i, j)])[Project(x, e)];
    ReceivedEntry(net, st, i, j, x, f);
    SentWeights(net, parent, rank, st, i, j, x);
    var cliques, seps := CliqueWeights(net, st.tables, x), SepWeights(net, parent, st.seps, x);
    RescaledWeights(cliques, seps, j, c, Receive(net, st, i, j)[Project(x, net.vars[j])], n, k, f);
  }

  // ------------------------------------------------------- when nothing is clipped

  ghost predicate AtMostOne(t: Table) {
    forall a :: a in t ==> t[a] <= 1.0
  }

  /** Every clique holds at most one unit of weight and no sum was clipped so far. */
  ghost predicate Light(st: State) {
    && (forall i :: 0 <= i < |st.tables| ==> Mass(st.tables[i]) <= 1.0)
    && forall k :: k in st.raw ==> AtMostOne(st.raw[k])
  }

  lemma RawIsLight(t: Table, e: set<nat>)
    requires NonNegative(t) && Mass(t) <= 1.0
    ensures AtMostOne(RawTable(t, e))
  {
    forall s | s in RawTable(t, e) ensures RawTable(t, e)[s] <= 1.0 {
      RawBounds(t, e, s);
    }
  }

  lemma ReportIsLight(e: set<nat>, tc: Table, tp: Table)
    requires Probabilities(tc) && Probabilities(tp) && SameImage(tc, tp, e) && Covers(Marginal(tc, e), tp, e)
    ensures Mass(Scale(tp, e, Marginal(tc, e))) <= Mass(tp)
  {
    ReportUp(e, tc, tp);
    SumBelow(Scale(tp, e, Marginal(tc, e)), tp, tp.Keys);
  }

  lemma AnswerBelow(x: real, u: real, n: real)
    requires Answered(x, u, n) && 0.0 <= u <= 1.0 && 0.0 <= n
    ensures x <= n
  {
    if u != 0.0 {
      assert (x - n) * u == 0.0;
    }
  }

  /** After an unclipped report the answer leaves the child no heavier than the parent. */
  lemma AnswerIsLight(e: set<nat>, tc: Table, tp: Table, n: Table, rawUp: Table, rawDown: Table)
    requires EdgeState(true, true, e, tc, tp, n, rawUp, rawDown)
    requires NonNegative(tp) && NonNegative(rawUp) && AtMostOne(rawUp) && SameImage(tc, tp, e)
    ensures Mass(tc) <= Mass(tp)
  {
    MassByFibre(tc, e);
    MassByFibre(tp, e);
    var xc, xp := RawTable(tc, e), RawTable(tp, e);
    assert xc.Keys == Image(tc, e) == xp.Keys;
    forall s | s in xc.Keys ensures xc[s] <= xp[s] {
      RawBounds(tp, e, s);
      assert AnsweredAt(tc, tp, e, n, rawUp, s);
      AnswerBelow(xc[s], rawUp[s], n[s]);
    }
    SumBelow(xc, xp, xc.Keys);
  }

  lemma ReceiverIsLight(net: Network, parent: seq<nat>, rank: seq<nat>, st: State, i: nat, j: nat)
    requires Inv(net, parent, rank, st) && Ready(net, st, i, j) && Fits(net, st, i, j) && Light(st)
    ensures Mass(Receive(net, st, i, j)) <= 1.0
  {
    TravelledEdge(net, parent, rank, st, i, j);
    var e, d := net.Sep(i, j), Receive(net, st, i, j);
    SameImages(net, st, i, j);
    if i != 0 && j == parent[i] {
      assert EdgeOk(net, parent, st, i);
      assert st.seps[Key(i, j)] == map[];
      ImageCovers(st.tables[j], e, Marginal(st.tables[i], e));
      ReportIsLight(e, st.tables[i], st.tables[j]);
    } else {
      assert Image(d, e) == Image(st.tables[j], e) by { assert d.Keys == st.tables[j].Keys; }
      AnswerIsLight(e, d, st.tables[i], Marginal(st.tables[i], e), st.raw[(j, i)], RawTable(st.tables[i], e));
    }
  }

  lemma LightAfter(st: State, st': State, j: nat, d: Table, key: Edge, raw: Table)
    requires Light(st) && Mass(d) <= 1.0 && AtMostOne(raw) && j < |st.tables|
    requires st'.tables == st.tables[j := d] && st'.raw == st.raw[key := raw]
    ensures Light(st')
  {
  }

  lemma SendKeepsLight(net: Network, parent: seq<nat>, rank: seq<nat>, st: State, i: nat, j: nat)
    requires Inv(net, parent, rank, st) && Ready(net, st, i, j) && Fits(net, st, i, j) && j < |net.g| && Light(st)
    ensures Light(Send(net, st, i, j))
  {
    var raw := RawTable(st.tables[i], net.Sep(i, j));
    assert AtMostOne(raw) by { RawIsLight(st.tables[i], net.Sep(i, j)); }
    ReceiverIsLight(net, parent, rank, st, i, j);
    LightAfter(st, Send(net, st, i, j), j, Receive(net, st, i, j), (i, j), raw);
  }
}
