/**
 What one message does to the tables at the two ends of an edge.  The child's
 message goes up first, the parent's answer comes down later; `rawUp` and
 `rawDown` keep the marginal sums of the two messages before clipping.
 */
module Calibration {
  import opened Tables

  /** The child's sum x after the answer n, if it was u when the child reported. */
  ghost predicate Answered(x: real, u: real, n: real) {
    if u == 0.0 then x == 0.0 else x * Clip(u) == u * n
  }

  /** Zero separator entries are zero in the receiver's table. */
  ghost predicate ZerosReach(t: Table, e: set<nat>, sep: Table) {
    forall a :: a in t ==> Project(a, e) in sep && (sep[Project(a, e)] == 0.0 ==> t[a] == 0.0)
  }

  ghost predicate AnsweredAt(tc: Table, tp: Table, e: set<nat>, sep: Table, rawUp: Table, s: Assignment)
    requires s in sep && s in rawUp
  {
    Answered(Raw(tc, e, s), rawUp[s], sep[s]) && (rawUp[s] == 0.0 ==> Raw(tp, e, s) == 0.0)
  }

  /** The tables around one edge, according to the messages it has carried. */
  ghost predicate EdgeState(up: bool, down: bool, e: set<nat>, tc: Table, tp: Table, sep: Table, rawUp: Table,
      rawDown: Table) {
    if !up then sep == map[]
    else if !down then
      rawUp == RawTable(tc, e) && sep == Marginal(tc, e) && ZerosReach(tp, e, sep)
    else
      && rawDown == RawTable(tp, e) && sep == Marginal(tp, e) && rawUp.Keys == sep.Keys
      && forall s :: s in sep ==> AnsweredAt(tc, tp, e, sep, rawUp, s)
  }

  /** Both ends agree with the stored separator on `s`. */
  ghost predicate CalibratedAt(tc: Table, tp: Table, e: set<nat>, sep: Table, s: Assignment)
    requires s in sep
  {
    Raw(tc, e, s) == sep[s] == Raw(tp, e, s)
  }

  ghost predicate SameImage(tc: Table, tp: Table, e: set<nat>) {
    Image(tc, e) == Image(tp, e)
  }

  lemma ImageCovers(t: Table, e: set<nat>, f: Table)
    requires f.Keys == Image(t, e)
    ensures Covers(f, t, e)
  {
    forall a | a in t ensures Project(a, e) in f {
      assert Project(a, e) in Image(t, e);
    }
  }

  lemma MonotoneTimes(x: real, y: real, f: real)
    requires 0.0 <= x <= y && 0.0 <= f
    ensures 0.0 <= x * f <= y * f
  {
  }

  lemma ShrinkProbability(x: real, f: real, p: real)
    requires 0.0 <= x <= 1.0 && 0.0 <= f <= 1.0 && IsProduct(p, x, f)
    ensures 0.0 <= p <= x && (x == 0.0 || f == 0.0 ==> p == 0.0)
  {
    MonotoneTimes(f, 1.0, x);
  }

  // --------------------------------------------------------- the child reports

  lemma ReportUp(e: set<nat>, tc: Table, tp: Table)
    requires Probabilities(tc) && Probabilities(tp) && SameImage(tc, tp, e)
    ensures var sep := Marginal(tc, e);
            && Covers(sep, tp, e)
            && var tp' := Scale(tp, e, sep);
            && Probabilities(tp') && Probabilities(sep)
            && EdgeState(true, false, e, tc, tp', sep, RawTable(tc, e), map[])
            && forall a :: a in tp ==> tp'[a] <= tp[a]
  {
    var sep := Marginal(tc, e);
    ImageCovers(tp, e, sep);
    var tp' := Scale(tp, e, sep);
    forall s | s in sep ensures 0.0 <= sep[s] <= 1.0 {
      RawBounds(tc, e, s);
    }
    forall a | a in tp
      ensures Project(a, e) in sep && 0.0 <= tp'[a] <= tp[a] && (sep[Project(a, e)] == 0.0 ==> tp'[a] == 0.0)
    {
      assert Project(a, e) in sep;
      ScaleAt(tp, e, sep, a);
      ShrinkProbability(tp[a], sep[Project(a, e)], tp'[a]);
    }
  }

  lemma ZeroTimes(x: real, f: real, p: real)
    requires IsProduct(p, x, f) && x == 0.0
    ensures p == 0.0
  {
  }

  /** A message on another edge into the parent leaves the edge as it was. */
  lemma OtherMessage(e: set<nat>, tc: Table, tp: Table, sep: Table, rawUp: Table, rawDown: Table, e': set<nat>,
      f: Table)
    requires EdgeState(true, false, e, tc, tp, sep, rawUp, rawDown) && Covers(f, tp, e')
    ensures EdgeState(true, false, e, tc, Scale(tp, e', f), sep, rawUp, rawDown)
  {
    forall a | a in tp && sep[Project(a, e)] == 0.0 ensures Scale(tp, e', f)[a] == 0.0 {
      ScaleAt(tp, e', f, a);
      ZeroTimes(tp[a], f[Project(a, e')], Scale(tp, e', f)[a]);
    }
  }

  // -------------------------------------------------------- the parent answers

  lemma AnswerValue(x: real, u: real, n: real, f: real)
    requires u >= 0.0 && IsProduct(x, u, f) && f == if Clip(u) != 0.0 then n / Clip(u) else n
    ensures Answered(x, u, n)
  {
    if u != 0.0 {
      var c := Clip(u);
      assert f * c == n;
      calc { x * c; (u * f) * c; u * (f * c); u * n; }
    }
  }

  lemma AnswerEntry(p: real, x: real, u: real, n: real, f: real)
    requires 0.0 <= x <= Clip(u) && u >= 0.0 && 0.0 <= n <= 1.0
    requires IsProduct(p, x, f) && f == if Clip(u) != 0.0 then n / Clip(u) else n
    ensures 0.0 <= p <= 1.0
  {
    var c := Clip(u);
    if c != 0.0 {
      assert f * c == n;
      assert 0.0 <= f;
      calc { p; x * f; <= { MonotoneTimes(x, c, f); } c * f; n; }
    }
  }

  lemma {:induction false} SumOfZeros(t: Table, keys: set<Assignment>)
    requires keys <= t.Keys && forall a :: a in keys ==> t[a] == 0.0
    ensures Sum(t, keys) == 0.0
  {
    if keys != {} {
      var a :| a in keys;
      SumPick(t, keys, a);
      SumOfZeros(t, keys - {a});
    }
  }

  /** The factor by which an answer scales the entries at `s`. */
  lemma QuotientAt(e: set<nat>, tc: Table, tp: Table, sep: Table, s: Assignment)
    requires SameImage(tc, tp, e) && sep == Marginal(tc, e) && s in sep
    ensures var new_s := Marginal(tp, e);
            sep.Keys == new_s.Keys && Covers(Quotient(new_s, sep), tc, e) &&
            Quotient(new_s, sep)[s] == if sep[s] != 0.0 then new_s[s] / sep[s] else new_s[s]
  {
    assert sep.Keys == Image(tc, e) == Marginal(tp, e).Keys;
    ImageCovers(tc, e, Quotient(Marginal(tp, e), sep));
  }

  lemma AnswerDownEntry(e: set<nat>, tc: Table, tp: Table, sep: Table, rawUp: Table, a: Assignment)
    requires Probabilities(tc) && Probabilities(tp) && SameImage(tc, tp, e) && a in tc
    requires EdgeState(true, false, e, tc, tp, sep, rawUp, map[])
    ensures var new_s := Marginal(tp, e);
            sep.Keys == new_s.Keys && Covers(Quotient(new_s, sep), tc, e) &&
            0.0 <= Scale(tc, e, Quotient(new_s, sep))[a] <= 1.0
  {
    var new_s := Marginal(tp, e);
    var s := Project(a, e);
    assert s in Image(tc, e);
    QuotientAt(e, tc, tp, sep, s);
    var f := Quotient(new_s, sep);
    RawBounds(tc, e, s);
    RawBounds(tp, e, s);
    ScaleAt(tc, e, f, a);
    AnswerEntry(Scale(tc, e, f)[a], tc[a], Raw(tc, e, s), new_s[s], f[s]);
  }

  lemma AnswerDownSum(e: set<nat>, tc: Table, tp: Table, sep: Table, rawUp: Table, s: Assignment)
    requires Probabilities(tc) && Probabilities(tp) && SameImage(tc, tp, e) && s in Marginal(tp, e)
    requires EdgeState(true, false, e, tc, tp, sep, rawUp, map[])
    ensures var new_s := Marginal(tp, e);
            sep.Keys == new_s.Keys && Covers(Quotient(new_s, sep), tc, e) && s in rawUp &&
            AnsweredAt(Scale(tc, e, Quotient(new_s, sep)), tp, e, new_s, rawUp, s)
  {
    var new_s := Marginal(tp, e);
    QuotientAt(e, tc, tp, sep, s);
    var f := Quotient(new_s, sep);
    RawBounds(tc, e, s);
    RawOfScale(tc, e, f, s);
    AnswerValue(Raw(Scale(tc, e, f), e, s), Raw(tc, e, s), new_s[s], f[s]);
    if rawUp[s] == 0.0 {
      SumOfZeros(tp, Fibre(tp, e, s));
    }
  }

  lemma AnswerCovers(e: set<nat>, tc: Table, tp: Table, sep: Table, rawUp: Table)
    requires SameImage(tc, tp, e) && EdgeState(true, false, e, tc, tp, sep, rawUp, map[])
    ensures sep.Keys == Marginal(tp, e).Keys && Covers(Quotient(Marginal(tp, e), sep), tc, e)
  {
    assert sep.Keys == Image(tc, e) == Marginal(tp, e).Keys;
    ImageCovers(tc, e, Quotient(Marginal(tp, e), sep));
  }

  lemma MarginalIsProbabilities(t: Table, e: set<nat>)
    requires Probabilities(t)
    ensures Probabilities(Marginal(t, e))
  {
    forall s | s in Marginal(t, e) ensures 0.0 <= Marginal(t, e)[s] <= 1.0 {
      RawBounds(t, e, s);
    }
  }

  lemma AnswerDown(e: set<nat>, tc: Table, tp: Table, sep: Table, rawUp: Table)
    requires Probabilities(tc) && Probabilities(tp) && SameImage(tc, tp, e)
    requires EdgeState(true, false, e, tc, tp, sep, rawUp, map[])
    ensures var new_s := Marginal(tp, e);
            && sep.Keys == new_s.Keys && Covers(Quotient(new_s, sep), tc, e)
            && var tc' := Scale(tc, e, Quotient(new_s, sep));
            && Probabilities(tc') && Probabilities(new_s)
            && EdgeState(true, true, e, tc', tp, new_s, rawUp, RawTable(tp, e))
  {
    AnswerCovers(e, tc, tp, sep, rawUp);
    MarginalIsProbabilities(tp, e);
    var new_s := Marginal(tp, e);
    var tc' := Scale(tc, e, Quotient(new_s, sep));
    assert rawUp.Keys == new_s.Keys;
    forall a | a in tc' ensures 0.0 <= tc'[a] <= 1.0 {
      AnswerDownEntry(e, tc, tp, sep, rawUp, a);
    }
    hide Marginal, Quotient, Scale, Raw, SameImage, AnsweredAt;
    forall s | s in new_s ensures AnsweredAt(tc', tp, e, new_s, rawUp, s) {
      AnswerDownSum(e, tc, tp, sep, rawUp, s);
    }
  }

  // --------------------------------------------------------------- agreement

  lemma AnswerAgrees(x: real, u: real, n: real)
    requires u >= 0.0 && n >= 0.0 && Answered(x, u, n) && (u == 0.0 ==> n == 0.0)
    ensures x == n <==> u <= 1.0 || n == 0.0
  {
    if u > 1.0 {
      assert x == u * n;
      if n > 0.0 { assert (u - 1.0) * n > 0.0; }
    } else if u != 0.0 {
      assert x * u == n * u;
      assert (x - n) * u == 0.0;
    }
  }

  /** After both messages the two ends agree on `s` exactly when the answer was
      not clipped there, and neither was the report unless the answer is 0. */
  lemma Calibrated(e: set<nat>, tc: Table, tp: Table, sep: Table, rawUp: Table, rawDown: Table, s: Assignment)
    requires EdgeState(true, true, e, tc, tp, sep, rawUp, rawDown)
    requires NonNegative(tp) && s in sep && rawUp[s] >= 0.0
    ensures s in rawDown
    ensures CalibratedAt(tc, tp, e, sep, s) <==> rawDown[s] <= 1.0 && (rawUp[s] <= 1.0 || sep[s] == 0.0)
  {
    RawBounds(tp, e, s);
    assert AnsweredAt(tc, tp, e, sep, rawUp, s);
    AnswerAgrees(Raw(tc, e, s), rawUp[s], sep[s]);
  }
}
