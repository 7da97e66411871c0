/**
 What a run of the message loop will leave, computed from the tables it starts
 with: the table of each clique when it reports, and at the end.
 */
module Forecast {
  import opened Sequences
  import opened Trees
  import opened Tables
  import opened Schedule
  import opened Calibration
  import opened Propagation

  /** A join tree hung from node 0, and the tables it starts with. */
  datatype Job = Job(net: Network, parent: seq<nat>, rank: seq<nat>, start: seq<Table>) {
    ghost predicate Valid() {
      Hung(net, parent, rank) && |start| == |net.g|
    }

    function Size(): nat { |net.g| }

    /** The separator above clique c. */
    function Above(c: nat): set<nat>
      requires c < |net.vars| && c < |parent| && parent[c] < |net.vars|
    {
      net.Sep(c, parent[c])
    }

    predicate IsChild(k: nat, c: nat) {
      0 < k < |parent| && parent[k] == c
    }
  }

  lemma ParentOf(w: Job, c: nat)
    requires w.Valid() && 0 < c < w.Size()
    ensures w.parent[c] < w.Size() && w.rank[w.parent[c]] < w.rank[c] <= Highest(w.rank)
    ensures w.parent[c] in w.net.g[c] && c in w.net.g[w.parent[c]]
  {
    assert Hangs(w.net.g, w.parent, w.rank, c);
  }

  /** The table of clique c once those of its children that are in `heard` have reported. */
  ghost function Heard(w: Job, c: nat, heard: set<nat>): Table
    requires w.Valid() && c < w.Size()
    decreases Highest(w.rank) - w.rank[c], w.Size() + 1
  {
    map a | a in w.start[c] :: Weight(w, c, heard, a, w.Size())
  }

  /** An entry of that table: the initial one times the clipped sums of the reports of the
      children below k. */
  ghost function Weight(w: Job, c: nat, heard: set<nat>, a: Assignment, k: nat): real
    requires w.Valid() && c < w.Size() && k <= w.Size() && a in w.start[c]
    decreases Highest(w.rank) - w.rank[c], k
  {
    if k == 0 then w.start[c][a]
    else if w.IsChild(k - 1, c) && k - 1 in heard then
      ParentOf(w, k - 1);
      Times(Weight(w, c, heard, a, k - 1), Clip(Report(w, k - 1, Project(a, w.Above(k - 1)))))
    else Weight(w, c, heard, a, k - 1)
  }

  /** The sum that clique c reports for separator assignment s. */
  ghost function Report(w: Job, c: nat, s: Assignment): real
    requires w.Valid() && 0 < c < w.Size()
    decreases Highest(w.rank) - w.rank[c], w.Size() + 2
  {
    ParentOf(w, c);
    Raw(Heard(w, c, UpTo(w.Size())), w.Above(c), s)
  }

  /** The table from which clique c reports, all its children heard. */
  ghost function Upward(w: Job, c: nat): Table
    requires w.Valid() && c < w.Size()
  {
    Heard(w, c, UpTo(w.Size()))
  }

  /** The factor for new sum n and old entry o. */
  function Factor(n: real, o: real): real {
    if o != 0.0 then n / o else n
  }

  /** The table of clique c once it has been answered, or the root's when all have reported. */
  ghost function Final(w: Job, c: nat): Table
    requires w.Valid() && c < w.Size()
    decreases w.rank[c]
  {
    if c == 0 then Upward(w, 0)
    else
      ParentOf(w, c);
      map a | a in w.start[c] ::
        var s := Project(a, w.Above(c));
        Times(Upward(w, c)[a], Factor(Clip(Answer(w, c, s)), Clip(Report(w, c, s))))
  }

  /** The sum with which clique c is answered for separator assignment s. */
  ghost function Answer(w: Job, c: nat, s: Assignment): real
    requires w.Valid() && 0 < c < w.Size()
    decreases w.rank[c], 0
  {
    ParentOf(w, c);
    Raw(Final(w, w.parent[c]), w.Above(c), s)
  }

  // ---------------------------------------------------------- hearing from a child

  /** Only children count. */
  lemma {:induction false} WeightSame(w: Job, c: nat, heard: set<nat>, heard': set<nat>, a: Assignment, k: nat)
    requires w.Valid() && c < w.Size() && k <= w.Size() && a in w.start[c]
    requires forall j :: 0 <= j < k && w.IsChild(j, c) ==> (j in heard <==> j in heard')
    ensures Weight(w, c, heard, a, k) == Weight(w, c, heard', a, k)
  {
    if k > 0 { WeightSame(w, c, heard, heard', a, k - 1); }
  }

  lemma HeardSame(w: Job, c: nat, heard: set<nat>, heard': set<nat>)
    requires w.Valid() && c < w.Size()
    requires forall j :: 0 <= j < w.Size() && w.IsChild(j, c) ==> (j in heard <==> j in heard')
    ensures Heard(w, c, heard) == Heard(w, c, heard')
  {
    forall a | a in w.start[c]
      ensures Weight(w, c, heard, a, w.Size()) == Weight(w, c, heard', a, w.Size())
    {
      WeightSame(w, c, heard, heard', a, w.Size());
    }
  }

  lemma SwapLast(p: real, q: real, x: real, y: real, r: real)
    requires IsProduct(q, p, x) && IsProduct(r, p, y)
    ensures Times(q, y) == Times(r, x)
  {
  }

  lemma {:induction false} WeightMore(w: Job, c: nat, heard: set<nat>, j: nat, a: Assignment, k: nat)
    requires w.Valid() && c < w.Size() && k <= w.Size() && a in w.start[c]
    requires 0 < j < w.Size() && w.IsChild(j, c) && j !in heard
    ensures Weight(w, c, heard + {j}, a, k) ==
      if j < k then Times(Weight(w, c, heard, a, k), Clip(Report(w, j, Project(a, w.net.Sep(j, c)))))
      else Weight(w, c, heard, a, k)
  {
    if k == 0 {
    } else {
      WeightMore(w, c, heard, j, a, k - 1);
      var i: nat := k - 1;
      if i != j && w.IsChild(i, c) && i in heard {
        ParentOf(w, i);
        var p := Weight(w, c, heard, a, i);
        var x, y := Clip(Report(w, i, Project(a, w.Above(i)))), Clip(Report(w, j, Project(a, w.net.Sep(j, c))));
        SwapLast(p, Times(p, x), x, y, Times(p, y));
      }
    }
  }

  /** One more report multiplies the table by its clipped sums. */
  lemma HeardMore(w: Job, c: nat, heard: set<nat>, j: nat)
    requires w.Valid() && c < w.Size() && 0 < j < w.Size() && w.IsChild(j, c) && j !in heard
    requires Covers(Marginal(Upward(w, j), w.net.Sep(j, c)), Heard(w, c, heard), w.net.Sep(j, c))
    ensures Heard(w, c, heard + {j}) ==
            Scale(Heard(w, c, heard), w.net.Sep(j, c), Marginal(Upward(w, j), w.net.Sep(j, c)))
  {
    var e := w.net.Sep(j, c);
    var m := Marginal(Upward(w, j), e);
    var t := Heard(w, c, heard);
    forall a | a in w.start[c]
      ensures Heard(w, c, heard + {j})[a] == Times(t[a], m[Project(a, e)])
    {
      WeightMore(w, c, heard, j, a, w.Size());
      assert a in t;
    }
  }

  // ------------------------------------------------------------------ during a run

  /** The children of c that have reported. */
  ghost function Reporters(w: Job, st: State, c: nat): (r: set<nat>)
    requires |st.send| == w.Size()
    ensures forall k: nat {:trigger k in r} :: k in r <==> w.IsChild(k, c) && Sent(w.net.g, st.send, k, c)
  {
    set k | k in UpTo(|w.parent|) && w.IsChild(k, c) && Sent(w.net.g, st.send, k, c)
  }

  ghost predicate HasAnswer(w: Job, st: State, c: nat)
    requires w.Valid() && |st.send| == w.Size() && c < w.Size()
  {
    c != 0 && Sent(w.net.g, st.send, w.parent[c], c)
  }

  ghost predicate TableForeseen(w: Job, st: State, c: nat)
    requires w.Valid() && Shape(w.net, st) && c < w.Size()
  {
    st.tables[c] == if HasAnswer(w, st, c) then Final(w, c) else Heard(w, c, Reporters(w, st, c))
  }

  ghost predicate SumsForeseen(w: Job, st: State, c: nat)
    requires w.Valid() && Shape(w.net, st) && 0 < c < w.Size()
  {
    ParentOf(w, c);
    var p := w.parent[c];
    && (Sent(w.net.g, st.send, c, p) ==> st.raw[(c, p)] == RawTable(Upward(w, c), w.Above(c)))
    && (Sent(w.net.g, st.send, p, c) ==> st.raw[(p, c)] == RawTable(Final(w, p), w.Above(c)))
  }

  /** Every table and every sum of the run so far is one that `start` determines. */
  ghost predicate Foreseen(w: Job, st: State) {
    && w.Valid() && Shape(w.net, st)
    && (forall c :: 0 <= c < w.Size() ==> TableForeseen(w, st, c))
    && forall c :: 0 < c < w.Size() ==> SumsForeseen(w, st, c)
  }

  /** Once the root has heard from everybody, every clique has heard from its children. */
  lemma AllHeard(w: Job, st: State, c: nat)
    requires w.Valid() && |st.send| == w.Size() && Safe(w.net.g, st.send, st.recv) && st.recv[0] == {} && c < w.Size()
    ensures Heard(w, c, Reporters(w, st, c)) == Upward(w, c)
  {
    forall j | 0 <= j < w.Size() && w.IsChild(j, c) ensures Sent(w.net.g, st.send, j, c) {
      AllReported(w.net.g, st.send, st.recv, w.parent, w.rank, j);
    }
    HeardSame(w, c, Reporters(w, st, c), UpTo(w.Size()));
  }

  /** A clique that may report has heard from its children. */
  lemma ChildrenHeard(w: Job, st: State, c: nat)
    requires w.Valid() && |st.send| == w.Size() && Safe(w.net.g, st.send, st.recv) && 0 < c < w.Size()
    requires st.recv[c] <= {w.parent[c]}
    ensures Heard(w, c, Reporters(w, st, c)) == Upward(w, c)
  {
    forall j | 0 <= j < w.Size() && w.IsChild(j, c) ensures Sent(w.net.g, st.send, j, c) {
      ParentOf(w, j);
      ParentOf(w, c);
    }
    HeardSame(w, c, Reporters(w, st, c), UpTo(w.Size()));
  }

  lemma RootHeard(w: Job, st: State, c: nat)
    requires w.Valid() && |st.send| == w.Size() && Safe(w.net.g, st.send, st.recv) && c < w.Size()
    requires HasAnswer(w, st, c)
    ensures st.recv[0] == {}
    ensures forall k :: 0 < k < w.Size() ==> Sent(w.net.g, st.send, k, w.parent[k])
  {
    ParentOf(w, c);
    RootSpoke(w.net.g, st.send, st.recv, w.parent, w.rank, c);
    forall k | 0 < k < w.Size() ensures Sent(w.net.g, st.send, k, w.parent[k]) {
      AnswerMeansAllReported(w.net.g, st.send, st.recv, w.parent, w.rank, c, k);
    }
  }

  // ---- a report

  lemma ReportForeseen(w: Job, st: State, i: nat, j: nat)
    requires Foreseen(w, st) && Inv(w.net, w.parent, w.rank, st)
    requires Ready(w.net, st, i, j) && Fits(w.net, st, i, j) && 0 < i < w.Size() && j == w.parent[i] < w.Size()
    ensures st.tables[i] == Upward(w, i) && !HasAnswer(w, st, i) && !HasAnswer(w, st, j)
    ensures st.seps[Key(i, j)] == map[] && i !in Reporters(w, st, j)
    ensures Receive(w.net, st, i, j) == Heard(w, j, Reporters(w, st, j) + {i})
  {
    ParentOf(w, i);
    assert TableForeseen(w, st, i) && TableForeseen(w, st, j);
    if HasAnswer(w, st, i) { RootHeard(w, st, i); }
    if HasAnswer(w, st, j) { RootHeard(w, st, j); }
    ChildrenHeard(w, st, i);
    assert EdgeOk(w.net, w.parent, st, i);
    HeardMore(w, j, Reporters(w, st, j), i);
  }

  // ---- an answer

  lemma FinalAt(w: Job, j: nat, n: Table, o: Table, a: Assignment)
    requires w.Valid() && 0 < j < w.Size() && w.parent[j] < w.Size() && a in w.start[j]
    requires n == Marginal(Final(w, w.parent[j]), w.Above(j)) && o == Marginal(Upward(w, j), w.Above(j))
    requires n.Keys == o.Keys && Project(a, w.Above(j)) in n
    ensures a in Upward(w, j)
    ensures Final(w, j)[a] == Times(Upward(w, j)[a], Quotient(n, o)[Project(a, w.Above(j))])
  {
  }

  lemma QuotientKeys(n: Table, o: Table)
    requires n.Keys == o.Keys
    ensures Quotient(n, o).Keys == n.Keys
  {
  }

  lemma FinalIs(w: Job, j: nat, n: Table, o: Table)
    requires w.Valid() && 0 < j < w.Size() && w.parent[j] < w.Size()
    requires n == Marginal(Final(w, w.parent[j]), w.Above(j)) && o == Marginal(Upward(w, j), w.Above(j))
    requires n.Keys == o.Keys && Covers(Quotient(n, o), Upward(w, j), w.Above(j))
    ensures Scale(Upward(w, j), w.Above(j), Quotient(n, o)) == Final(w, j)
  {
    hide Quotient, Marginal;
    var d := Scale(Upward(w, j), w.Above(j), Quotient(n, o));
    assert d.Keys == Upward(w, j).Keys == w.start[j].Keys;
    assert Final(w, j).Keys == w.start[j].Keys;
    forall a | a in w.start[j] ensures d[a] == Final(w, j)[a] {
      assert a in Upward(w, j) && Project(a, w.Above(j)) in Quotient(n, o);
      assert Quotient(n, o).Keys == n.Keys by { QuotientKeys(n, o); }
      FinalAt(w, j, n, o, a);
    }
  }

  /** A clique that answers has had its own answer, and everybody has reported. */
  lemma AnswererHeard(w: Job, st: State, i: nat, j: nat)
    requires Inv(w.net, w.parent, w.rank, st) && w.Valid()
    requires Ready(w.net, st, i, j) && 0 < j < w.Size() && i == w.parent[j] < w.Size()
    ensures Sent(w.net.g, st.send, j, i) && !HasAnswer(w, st, j)
    ensures st.recv[0] == {} && (i != 0 ==> HasAnswer(w, st, i))
  {
    ParentOf(w, j);
    AnswerIsLate(w.net, w.parent, w.rank, st, j);
    assert j !in st.recv[i];
    assert st.recv[i] == {};
    if i != 0 {
      ParentOf(w, i);
      assert HasAnswer(w, st, i);
      RootHeard(w, st, i);
    }
  }

  lemma AnswerTables(w: Job, st: State, i: nat, j: nat)
    requires Foreseen(w, st) && Inv(w.net, w.parent, w.rank, st)
    requires Ready(w.net, st, i, j) && 0 < j < w.Size() && i == w.parent[j] < w.Size()
    ensures st.tables[i] == Final(w, i) && st.tables[j] == Upward(w, j)
  {
    AnswererHeard(w, st, i, j);
    assert TableForeseen(w, st, i) && TableForeseen(w, st, j);
    AllHeard(w, st, i);
    AllHeard(w, st, j);
  }

  lemma AnswerForeseen(w: Job, st: State, i: nat, j: nat)
    requires Foreseen(w, st) && Inv(w.net, w.parent, w.rank, st)
    requires Ready(w.net, st, i, j) && Fits(w.net, st, i, j) && 0 < j < w.Size() && i == w.parent[j] < w.Size()
    ensures st.tables[i] == Final(w, i) && Receive(w.net, st, i, j) == Final(w, j)
    ensures Sent(w.net.g, st.send, j, i) && st.recv[0] == {} && (i != 0 ==> HasAnswer(w, st, i))
  {
    AnswererHeard(w, st, i, j);
    AnswerTables(w, st, i, j);
    ParentOf(w, j);
    SepSymmetric(w.net, i, j);
    SameImages(w.net, st, i, j);
    assert EdgeOk(w.net, w.parent, st, j);
    var e := w.Above(j);
    assert st.seps[Key(i, j)] == Marginal(Upward(w, j), e);
    FinalIs(w, j, Marginal(Final(w, i), e), Marginal(Upward(w, j), e));
  }

  // ---- any message

  lemma OthersForeseen(w: Job, st: State, i: nat, j: nat, c: nat)
    requires Foreseen(w, st) && WellFormed(w.net.g) && Safe(w.net.g, st.send, st.recv)
    requires Ready(w.net, st, i, j) && Fits(w.net, st, i, j) && j < w.Size() && c < w.Size()
    requires Shape(w.net, Send(w.net, st, i, j)) && c != j
    ensures TableForeseen(w, Send(w.net, st, i, j), c)
  {
    var st' := Send(w.net, st, i, j);
    StepKeepsSafe(w.net.g, st.send, st.recv, i, j);
    assert TableForeseen(w, st, c);
    assert Reporters(w, st', c) == Reporters(w, st, c);
    if c != 0 { ParentOf(w, c); }
  }

  lemma InvIsSafe(w: Job, st: State)
    requires Inv(w.net, w.parent, w.rank, st)
    requires Foreseen(w, st)
    ensures w.Valid() && WellFormed(w.net.g) && Safe(w.net.g, st.send, st.recv)
  {
  }

  lemma ReportKeepsForeseen(w: Job, st: State, i: nat, j: nat)
    requires Foreseen(w, st) && Inv(w.net, w.parent, w.rank, st)
    requires Ready(w.net, st, i, j) && Fits(w.net, st, i, j) && 0 < i < w.Size() && j == w.parent[i] < w.Size()
    requires Shape(w.net, Send(w.net, st, i, j))
    ensures TableForeseen(w, Send(w.net, st, i, j), j) && SumsForeseen(w, Send(w.net, st, i, j), i)
  {
    hide Inv, Foreseen, Heard, RawTable;
    var st' := Send(w.net, st, i, j);
    ReportForeseen(w, st, i, j);
    assert w.Valid() && WellFormed(w.net.g) && Safe(w.net.g, st.send, st.recv) by { InvIsSafe(w, st); }
    StepKeepsSafe(w.net.g, st.send, st.recv, i, j);
    ParentOf(w, i);
    assert Reporters(w, st', j) == Reporters(w, st, j) + {i};
    assert HasAnswer(w, st', j) == HasAnswer(w, st, j) by { if j != 0 { ParentOf(w, j); } }
    assert !Sent(w.net.g, st'.send, j, i);
  }

  lemma AnswerKeepsForeseen(w: Job, st: State, i: nat, j: nat)
    requires Foreseen(w, st) && Inv(w.net, w.parent, w.rank, st)
    requires Ready(w.net, st, i, j) && Fits(w.net, st, i, j) && 0 < j < w.Size() && i == w.parent[j] < w.Size()
    requires Shape(w.net, Send(w.net, st, i, j))
    ensures TableForeseen(w, Send(w.net, st, i, j), j) && SumsForeseen(w, Send(w.net, st, i, j), j)
  {
    var st' := Send(w.net, st, i, j);
    AnswerForeseen(w, st, i, j);
    StepKeepsSafe(w.net.g, st.send, st.recv, i, j);
    ParentOf(w, j);
    SepSymmetric(w.net, i, j);
    assert HasAnswer(w, st', j);
    assert SumsForeseen(w, st, j);
  }

  lemma OtherSumsForeseen(w: Job, st: State, i: nat, j: nat, c: nat)
    requires Foreseen(w, st) && WellFormed(w.net.g) && Safe(w.net.g, st.send, st.recv)
    requires Ready(w.net, st, i, j) && Fits(w.net, st, i, j) && j < w.Size() && 0 < c < w.Size()
    requires Shape(w.net, Send(w.net, st, i, j)) && !(c == i && w.parent[c] == j) && !(c == j && w.parent[c] == i)
    ensures SumsForeseen(w, Send(w.net, st, i, j), c)
  {
    StepKeepsSafe(w.net.g, st.send, st.recv, i, j);
    assert SumsForeseen(w, st, c);
    ParentOf(w, c);
  }

  /** No message departs from what the initial tables determine. */
  lemma SendKeepsForeseen(w: Job, st: State, i: nat, j: nat)
    requires Foreseen(w, st) && Inv(w.net, w.parent, w.rank, st) && Ready(w.net, st, i, j)
    ensures Fits(w.net, st, i, j) && j < w.Size() && Foreseen(w, Send(w.net, st, i, j))
  {
    SendKeepsInv(w.net, w.parent, w.rank, st, i, j);
    var st' := Send(w.net, st, i, j);
    assert j in w.net.g[i];
    var up := i != 0 && j == w.parent[i];
    if up {
      ParentOf(w, i);
      ReportKeepsForeseen(w, st, i, j);
    } else {
      AnswerKeepsForeseen(w, st, i, j);
    }
    forall c | 0 <= c < w.Size() ensures TableForeseen(w, st', c) {
      if c != j { OthersForeseen(w, st, i, j, c); }
    }
    forall c | 0 < c < w.Size() ensures SumsForeseen(w, st', c) {
      if !(c == i && w.parent[c] == j) && !(c == j && w.parent[c] == i) {
        OtherSumsForeseen(w, st, i, j, c);
      } else if up && c == j {
        ParentOf(w, i);
        ParentOf(w, j);
      }
    }
  }
}
