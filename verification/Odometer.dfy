/** Counting through the joint values of a node's parents, and checking a node's conditional
  * probability table row by row. */
module Odometer {
  import opened Arithmetic
  import opened Sequences
  import opened Tables
  import opened Summation

  /** How many values each node can take. */
  type Counts = map<nat, nat>

  /** Every parent has a number of values. */
  ghost predicate Ranged(parents: seq<nat>, counts: Counts) {
    Distinct(parents) && forall p :: p in parents ==> p in counts
  }

  /** How far the odometer counts: it goes through 0 even for a parent that has no values. */
  function Limit(counts: Counts, p: nat): nat
    requires p in counts
  {
    if counts[p] == 0 then 1 else counts[p]
  }

  predicate Within(parents: seq<nat>, counts: Counts, a: Assignment)
    requires Ranged(parents, counts)
  {
    forall p :: p in parents ==> p in a && a[p] < Limit(counts, p)
  }

  /** An assignment to the parents and to nothing else. */
  ghost predicate Fits(parents: seq<nat>, counts: Counts, a: Assignment)
    requires Ranged(parents, counts)
  {
    Within(parents, counts, a) && |a| == |parents| && forall k :: k in a ==> k in parents
  }

  /** The place of an assignment in the order of counting: the first parent turns fastest. */
  ghost function Place(parents: seq<nat>, counts: Counts, a: Assignment): nat
    requires Ranged(parents, counts) && Within(parents, counts, a)
  {
    if parents == [] then 0
    else a[parents[0]] + Limit(counts, parents[0]) * Place(parents[1..], counts, a)
  }

  /** How many assignments there are. */
  ghost function Combinations(parents: seq<nat>, counts: Counts): nat
    requires Ranged(parents, counts)
  {
    if parents == [] then 1 else Limit(counts, parents[0]) * Combinations(parents[1..], counts)
  }

  /** Add one, carrying from parent to parent; false once the carry leaves the last one. */
  function Next(parents: seq<nat>, counts: Counts, a: Assignment): (Assignment, bool)
    requires Ranged(parents, counts) && Within(parents, counts, a)
  {
    if parents == [] then (a, false)
    else
      var p := parents[0];
      if a[p] + 1 < Limit(counts, p) then (a[p := a[p] + 1], true)
      else Next(parents[1..], counts, a[p := 0])
  }

  lemma {:induction false} PlaceDependsOnParents(parents: seq<nat>, counts: Counts, a: Assignment, b: Assignment)
    requires Ranged(parents, counts) && Within(parents, counts, a) && Within(parents, counts, b)
    requires forall p :: p in parents ==> a[p] == b[p]
    ensures Place(parents, counts, a) == Place(parents, counts, b)
  {
    if parents != [] { PlaceDependsOnParents(parents[1..], counts, a, b); }
  }

  lemma ScaleStep(n: nat, x: nat, y: nat)
    requires x == y + 1
    ensures n * x == n * y + n
  {
  }

  /** One call of the odometer moves to the next place, or from the last place to all zeros. */
  lemma {:induction false} NextMovesOn(parents: seq<nat>, counts: Counts, a: Assignment)
    requires Ranged(parents, counts) && Within(parents, counts, a)
    ensures var (b, more) := Next(parents, counts, a);
      && b.Keys == a.Keys && Within(parents, counts, b)
      && (forall k :: k in a && k !in parents ==> b[k] == a[k])
      && (more ==> Place(parents, counts, b) == Place(parents, counts, a) + 1)
      && (!more ==> Place(parents, counts, a) == Combinations(parents, counts) - 1)
      && (!more ==> forall p :: p in parents ==> b[p] == 0)
  {
    if parents != [] {
      var p, rest := parents[0], parents[1..];
      assert p !in rest;
      if a[p] + 1 < Limit(counts, p) {
        PlaceDependsOnParents(rest, counts, a, a[p := a[p] + 1]);
      } else {
        var c := a[p := 0];
        NextMovesOn(rest, counts, c);
        var (b, more) := Next(rest, counts, c);
        PlaceDependsOnParents(rest, counts, a, c);
        if more {
          ScaleStep(Limit(counts, p), Place(rest, counts, b), Place(rest, counts, a));
        } else {
          ScaleStep(Limit(counts, p), Combinations(rest, counts), Place(rest, counts, a));
        }
      }
    }
  }

  lemma DigitsUnique(n: nat, x: nat, y: nat, u: nat, v: nat)
    requires x < n && y < n && x + n * u == y + n * v
    ensures x == y && u == v
  {
    if u < v { NextMultiple(u, v, n); }
    if v < u { NextMultiple(v, u, n); }
  }

  lemma {:induction false} PlaceInjective(parents: seq<nat>, counts: Counts, a: Assignment, b: Assignment)
    requires Ranged(parents, counts) && Within(parents, counts, a) && Within(parents, counts, b)
    requires Place(parents, counts, a) == Place(parents, counts, b)
    ensures forall p :: p in parents ==> a[p] == b[p]
  {
    if parents != [] {
      var p, rest := parents[0], parents[1..];
      DigitsUnique(Limit(counts, p), a[p], b[p], Place(rest, counts, a), Place(rest, counts, b));
      PlaceInjective(rest, counts, a, b);
    }
  }

  /** Different assignments have different places. */
  lemma PlaceIdentifies(parents: seq<nat>, counts: Counts, a: Assignment, b: Assignment)
    requires Ranged(parents, counts) && Fits(parents, counts, a) && Fits(parents, counts, b)
    requires Place(parents, counts, a) == Place(parents, counts, b)
    ensures a == b
  {
    PlaceInjective(parents, counts, a, b);
    assert a.Keys == b.Keys;
  }

  lemma {:induction false} PlaceBelowCombinations(parents: seq<nat>, counts: Counts, a: Assignment)
    requires Ranged(parents, counts) && Within(parents, counts, a)
    ensures Place(parents, counts, a) < Combinations(parents, counts)
  {
    if parents != [] {
      var p, rest := parents[0], parents[1..];
      PlaceBelowCombinations(rest, counts, a);
      NextMultiple(Place(rest, counts, a), Combinations(rest, counts), Limit(counts, p));
    }
  }

  // ---------- the methods ----------

  lemma {:induction false} ZerosComeFirst(parents: seq<nat>, counts: Counts, a: Assignment)
    requires Ranged(parents, counts) && forall p :: p in parents ==> p in a && a[p] == 0
    ensures Place(parents, counts, a) == 0
  {
    if parents != [] { ZerosComeFirst(parents[1..], counts, a); }
  }

  method FirstParentAssignment(parents: seq<nat>, counts: Counts) returns (a: Assignment)
    requires Ranged(parents, counts)
    ensures Fits(parents, counts, a) && Place(parents, counts, a) == 0
  {
    a := map[];
    for i := 0 to |parents|
      invariant |a| == i && forall k :: k in a <==> k in parents[..i]
      invariant forall k :: k in a ==> a[k] == 0
    {
      assert parents[..i + 1] == parents[..i] + [parents[i]];
      a := a[parents[i] := 0];
    }
    assert parents[..|parents|] == parents;
    ZerosComeFirst(parents, counts, a);
  }

  /** The carry loop. */
  method AddOne(parents: seq<nat>, counts: Counts, a0: Assignment) returns (a: Assignment, more: bool)
    requires Ranged(parents, counts) && Within(parents, counts, a0) && |a0| == |parents|
    ensures (a, more) == Next(parents, counts, a0)
  {
    a := a0;
    for p := 0 to |a|
      invariant |a| == |parents| && Within(parents, counts, a)
      invariant Next(parents[p..], counts, a) == Next(parents, counts, a0)
    {
      var pindex := parents[p];
      assert pindex in parents;
      assert parents[p..][0] == pindex && parents[p..][1..] == parents[p + 1..];
      if a[pindex] + 1 >= counts[pindex] {
        a := a[pindex := 0];
      } else {
        a := a[pindex := a[pindex] + 1];
        return a, true;
      }
    }
    return a, false;
  }

  method NextParentAssignment(parents: seq<nat>, counts: Counts, a0: Assignment) returns (a: Assignment, more: bool)
    requires Ranged(parents, counts) && Fits(parents, counts, a0)
    ensures Fits(parents, counts, a)
    ensures more <==> Place(parents, counts, a0) + 1 < Combinations(parents, counts)
    ensures more ==> Place(parents, counts, a) == Place(parents, counts, a0) + 1
    ensures !more ==> Place(parents, counts, a) == 0
  {
    a, more := AddOne(parents, counts, a0);
    NextMovesOn(parents, counts, a0);
    PlaceBelowCombinations(parents, counts, a);
    if !more { ZerosComeFirst(parents, counts, a); }
    assert |a.Keys| == |a0.Keys|;
    hide Next, Ranged, Place, Combinations;
  }

  /** The assignment at place k comes k-th. */
  ghost predicate InOrder(parents: seq<nat>, counts: Counts, visited: seq<Assignment>)
    requires Ranged(parents, counts)
  {
    forall k :: 0 <= k < |visited| ==> Fits(parents, counts, visited[k]) && Place(parents, counts, visited[k]) == k
  }

  lemma InOrderStarts(parents: seq<nat>, counts: Counts)
    requires Ranged(parents, counts)
    ensures InOrder(parents, counts, [])
  {
  }

  lemma InOrderGrows(parents: seq<nat>, counts: Counts, visited: seq<Assignment>, a: Assignment)
    requires Ranged(parents, counts) && InOrder(parents, counts, visited)
    requires Fits(parents, counts, a) && Place(parents, counts, a) == |visited|
    ensures InOrder(parents, counts, visited + [a])
  {
  }

  lemma InOrderIsComplete(parents: seq<nat>, counts: Counts, visited: seq<Assignment>, a: Assignment)
    requires Ranged(parents, counts) && InOrder(parents, counts, visited) && |visited| == Combinations(parents, counts)
    requires Fits(parents, counts, a)
    ensures Place(parents, counts, a) < |visited| && visited[Place(parents, counts, a)] == a
  {
    PlaceBelowCombinations(parents, counts, a);
    PlaceIdentifies(parents, counts, a, visited[Place(parents, counts, a)]);
  }

  /** The do/while loop every user of the odometer writes meets every assignment exactly once
    * and ends with all zeros. */
  method VisitAll(parents: seq<nat>, counts: Counts) returns (visited: seq<Assignment>, a: Assignment)
    requires Ranged(parents, counts)
    ensures |visited| == Combinations(parents, counts) && InOrder(parents, counts, visited)
    ensures forall b :: Fits(parents, counts, b) ==> b in visited
    ensures Fits(parents, counts, a) && Place(parents, counts, a) == 0
  {
    hide Ranged, Within, Place, Combinations, InOrder;
    visited := [];
    a := FirstParentAssignment(parents, counts);
    InOrderStarts(parents, counts);
    while true
      invariant Fits(parents, counts, a) && Place(parents, counts, a) == |visited|
      invariant InOrder(parents, counts, visited)
      decreases Combinations(parents, counts) - |visited|
    {
      PlaceBelowCombinations(parents, counts, a);
      InOrderGrows(parents, counts, visited, a);
      visited := visited + [a];
      var more;
      a, more := NextParentAssignment(parents, counts, a);
      if !more { break; }
    }
    forall b | Fits(parents, counts, b) ensures b in visited {
      InOrderIsComplete(parents, counts, visited, b);
    }
  }

  // ---------- conditional probability tables ----------

  /** One row of probabilities for each assignment to the parents that has been given any;
    * a negative number marks an entry not yet given. */
  class ConditionalTable {
    var numVals: nat
    var table: map<Assignment, seq<real>>

    ghost predicate Valid()
      reads this
    {
      forall ps :: ps in table ==> |table[ps]| == numVals
    }

    predicate HasEntryFor(value: nat, ps: Assignment)
      requires Valid()
      reads this
    {
      ps in table && value < numVals && table[ps][value] >= 0.0
    }

    constructor ()
      ensures Valid() && numVals == 0 && table == map[]
    {
      numVals, table := 0, map[];
    }

    method SetNumValues(num: nat)
      modifies this
      ensures Valid() && numVals == num
      ensures forall value: nat, ps :: !HasEntryFor(value, ps)
    {
      numVals, table := num, map[];
    }

    /** Exactly this entry is given or changed. */
    method SetProbability(value: nat, ps: Assignment, p: real)
      requires Valid() && value < numVals && 0.0 <= p <= 1.0
      modifies this
      ensures Valid() && numVals == old(numVals)
      ensures HasEntryFor(value, ps) && table[ps][value] == p
      ensures forall v: nat, qs :: (v, qs) != (value, ps) ==> HasEntryFor(v, qs) == old(HasEntryFor(v, qs))
      ensures forall v: nat, qs :: (v, qs) != (value, ps) && old(HasEntryFor(v, qs)) && HasEntryFor(v, qs) ==>
        table[qs][v] == old(table[qs][v])
    {
      if ps in table {
        table := table[ps := table[ps][value := p]];
      } else {
        var dist := seq(numVals, i => -1.0);
        table := table[ps := dist[value := p]];
      }
    }

    function Probability(value: nat, ps: Assignment): (r: real)
      requires Valid() && HasEntryFor(value, ps)
      reads this
      ensures r >= 0.0
    {
      table[ps][value]
    }
  }

  const TOLERANCE := 0.00001

  function RowSum(row: seq<real>): real {
    if row == [] then 0.0 else RowSum(row[..|row| - 1]) + row[|row| - 1]
  }

  /** The entry of a row for the value that x gives to the node, written 0. */
  ghost function EntryOf(row: seq<real>): Weighting {
    (x: Assignment) => if 0 in x && x[0] < |row| then row[x[0]] else 0.0
  }

  /** The sum of a row over the values of the node. */
  ghost function RowTotal(row: seq<real>): real {
    SumOver([|row|], {0}, map[], EntryOf(row))
  }

  lemma {:induction false} RowSumIsSlices(row: seq<real>, k: nat)
    requires k <= |row|
    ensures RowSum(row[..k]) == Slices([|row|], {}, map[], 0, k, EntryOf(row))
  {
    if k > 0 {
      RowSumIsSlices(row, k - 1);
      assert row[..k][..k - 1] == row[..k - 1];
      var x: Assignment := map[];
      assert x[0 := k - 1][0] == k - 1;
    }
  }

  lemma RowSumIsTotal(row: seq<real>)
    ensures RowSum(row) == RowTotal(row)
  {
    RowSumIsSlices(row, |row|);
    assert row[..|row|] == row;
    PickAny([|row|], {0}, map[], 0, EntryOf(row));
    assert {0} - {0} == {};
  }

  /** Every value has an entry, and they add up to one, give or take one part in 100000.  A row
    * that nothing was given to has the sum 0. */
  ghost predicate RowFilled(c: ConditionalTable, ps: Assignment)
    requires c.Valid()
    reads c
  {
    && (forall value :: 0 <= value < c.numVals ==> c.HasEntryFor(value, ps))
    && 99999.0 <= 100000.0 * (if ps in c.table then RowTotal(c.table[ps]) else 0.0) <= 100001.0
  }

  method RowCheck(c: ConditionalTable, ps: Assignment) returns (filled: bool)
    requires c.Valid()
    ensures filled <==> RowFilled(c, ps)
    ensures filled <==>
      && (forall value :: 0 <= value < c.numVals ==> c.HasEntryFor(value, ps))
      && 99999.0 <= 100000.0 * (if ps in c.table then RowTotal(c.table[ps]) else 0.0) <= 100001.0
  {
    var sum := 0.0;
    for value := 0 to c.numVals
      invariant forall v :: 0 <= v < value ==> c.HasEntryFor(v, ps)
      invariant value > 0 ==> ps in c.table
      invariant sum == if ps in c.table then RowSum(c.table[ps][..value]) else 0.0
    {
      if !c.HasEntryFor(value, ps) {
        return false;
      }
      assert c.table[ps][..value + 1][..value] == c.table[ps][..value];
      sum := sum + c.Probability(value, ps);
    }
    if ps in c.table {
      assert c.table[ps][..c.numVals] == c.table[ps];
      RowSumIsTotal(c.table[ps]);
    }
    return !(sum - 1.0 > TOLERANCE || 1.0 - sum > TOLERANCE);
  }

  /** What has been checked once the row of `a` is. */
  lemma Covered(parents: seq<nat>, counts: Counts, a: Assignment, c: ConditionalTable)
    requires Ranged(parents, counts) && c.Valid() && Fits(parents, counts, a) && RowFilled(c, a)
    requires forall b :: Fits(parents, counts, b) && Place(parents, counts, b) < Place(parents, counts, a)
               ==> RowFilled(c, b)
    ensures Place(parents, counts, a) < Combinations(parents, counts)
    ensures forall b :: Fits(parents, counts, b) && Place(parents, counts, b) <= Place(parents, counts, a)
              ==> RowFilled(c, b)
    ensures Place(parents, counts, a) + 1 == Combinations(parents, counts) ==>
              forall b :: Fits(parents, counts, b) ==> RowFilled(c, b)
  {
    PlaceBelowCombinations(parents, counts, a);
    forall b | Fits(parents, counts, b) ensures Place(parents, counts, b) < Combinations(parents, counts)
      ensures Place(parents, counts, b) <= Place(parents, counts, a) ==> RowFilled(c, b)
    {
      PlaceBelowCombinations(parents, counts, b);
      if Place(parents, counts, b) == Place(parents, counts, a) { PlaceIdentifies(parents, counts, a, b); }
    }
  }

  /** True exactly when every assignment to the parents has a full row; a parent without values
    * counts as one that has the value 0. */
  method NodeCptFilledOut(parents: seq<nat>, counts: Counts, c: ConditionalTable) returns (filled: bool)
    requires Ranged(parents, counts) && c.Valid()
    ensures filled <==> forall a :: Fits(parents, counts, a) ==> RowFilled(c, a)
  {
    hide RowFilled;
    var a := FirstParentAssignment(parents, counts);
    while true
      invariant Fits(parents, counts, a)
      invariant forall b :: Fits(parents, counts, b) && Place(parents, counts, b) < Place(parents, counts, a)
                  ==> RowFilled(c, b)
      decreases Combinations(parents, counts) - Place(parents, counts, a)
    {
      var good := RowCheck(c, a);
      if !good { return false; }
      var b, more := NextParentAssignment(parents, counts, a);
      Covered(parents, counts, a, c);
      if !more { break; }
      a := b;
    }
    return true;
  }
}
