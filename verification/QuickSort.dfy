/** Quicksort that gives up on a range when its splits have been too uneven for too long. */
module QuickSort {
  import opened Ordering
  import opened InsertionSort
  import opened HeapSort

  /** s[lo..p] is smaller than s[p], and nothing in s[p..hi] is. */
  ghost predicate SplitAt<T>(comp: (T, T) -> bool, s: seq<T>, lo: nat, p: nat, hi: nat)
    requires lo <= p < hi <= |s|
  {
    && (forall k :: lo <= k < p ==> comp(s[k], s[p]))
    && (forall k :: p < k < hi ==> Le(comp, s[p], s[k]))
  }

  /** How far the partition loop has come: s[lo..i] is smaller than the pivot s[right] and
    * s[i..j] is not. */
  ghost predicate Parting<T>(comp: (T, T) -> bool, s: seq<T>, lo: nat, i: nat, j: nat, right: nat)
    requires right < |s|
  {
    && lo <= i <= j <= right
    && (forall k :: lo <= k < i ==> comp(s[k], s[right]))
    && (forall k :: i <= k < j ==> Le(comp, s[right], s[k]))
  }

  lemma PartStep<T>(comp: (T, T) -> bool, s: seq<T>, lo: nat, i: nat, j: nat, right: nat)
    requires right < |s| && j < right && Parting(comp, s, lo, i, j, right)
    ensures comp(s[j], s[right]) ==> Parting(comp, Swapped(s, i, j), lo, i + 1, j + 1, right)
    ensures !comp(s[j], s[right]) ==> Parting(comp, s, lo, i, j + 1, right)
  {
  }

  lemma PartStart<T>(comp: (T, T) -> bool, s: seq<T>, lo: nat, right: nat)
    requires lo <= right < |s|
    ensures Parting(comp, s, lo, lo, lo, right)
  {
  }

  lemma PartDone<T>(comp: (T, T) -> bool, s: seq<T>, lo: nat, i: nat, right: nat)
    requires right < |s| && Parting(comp, s, lo, i, right, right)
    ensures SplitAt(comp, Swapped(s, i, right), lo, i, right + 1)
  {
  }

  method QsortPartition<T(!new)>(a: array<T>, left: nat, right: nat, comp: (T, T) -> bool) returns (i: nat)
    requires StrictWeak(comp) && left < right < a.Length
    modifies a
    ensures left <= i <= right && SplitAt(comp, a[..], left, i, right + 1)
    ensures Rearranged(old(a[..]), a[..], left, right + 1)
  {
    SwapRearranges(a[..], (right - left) / 2 + left, right, left, right + 1);
    Exchange(a, (right - left) / 2 + left, right);
    hide StrictWeak, SplitAt, Parting, Rearranged;
    ghost var was := old(a[..]);
    PartStart(comp, a[..], left, right);
    i := left;
    for j := left to right
      invariant left <= i <= j && Parting(comp, a[..], left, i, j, right)
      invariant Rearranged(was, a[..], left, right + 1)
    {
      PartStep(comp, a[..], left, i, j, right);
      if comp(a[j], a[right]) {
        SwapAgain(was, a[..], i, j, left, right + 1);
        Exchange(a, i, j);
        i := i + 1;
      }
    }
    PartDone(comp, a[..], left, i, right);
    SwapAgain(was, a[..], i, right, left, right + 1);
    Exchange(a, i, right);
  }

  /** What is left of the depth budget one level down. */
  function Lowered(depthCheck: nat): nat { depthCheck / 2 + depthCheck / 2 / 16 }

  /** Seventeen thirty-seconds of it, rounded down twice. */
  lemma LoweredIs(depthCheck: nat)
    ensures 32 * Lowered(depthCheck) <= 17 * depthCheck < 32 * Lowered(depthCheck) + 64
  {
  }

  /** How many levels a budget lasts. */
  function Levels(depthCheck: nat): nat { if depthCheck == 0 then 0 else 1 + Levels(Lowered(depthCheck)) }

  /** Sorting both sides of a split sorts the range. */
  lemma JoinSplit<T(!new)>(comp: (T, T) -> bool, s: seq<T>, t: seq<T>, u: seq<T>, lo: nat, p: nat, hi: nat)
    requires StrictWeak(comp) && lo <= p < hi <= |s| && SplitAt(comp, s, lo, p, hi)
    requires Rearranged(s, t, lo, p) && Sorted(comp, t, lo, p)
    requires Rearranged(t, u, p + 1, hi) && Sorted(comp, u, p + 1, hi)
    ensures Sorted(comp, u, lo, hi) && Rearranged(s, u, lo, hi)
  {
    forall j | lo <= j < p ensures Le(comp, u[j], u[p]) {
      var k := CameFrom(s, t, lo, p, j);
      assert comp(s[k], s[p]);
    }
    forall j | p < j < hi ensures Le(comp, u[p], u[j]) {
      var k := CameFrom(t, u, p + 1, hi, j);
    }
    forall j, k | lo <= j < k < hi ensures Le(comp, u[j], u[k]) {
      if k < p {
        assert Le(comp, t[j], t[k]);
      } else if j < p < k {
        LeTransitive(comp, u[j], u[p], u[k]);
      }
    }
  }

  /** `depth` counts the nested splits. */
  method QsortArrayMain<T(!new)>(a: array<T>, left: nat, right: nat, depthCheck: nat, comp: (T, T) -> bool)
      returns (ghost depth: nat)
    requires StrictWeak(comp) && left <= right + 1 && right < a.Length
    modifies a
    ensures Sorted(comp, a[..], left, right + 1)
    ensures Rearranged(old(a[..]), a[..], left, right + 1)
    ensures right - left < 30 ==> Stable(comp, old(a[..]), a[..])
    ensures depth <= Levels(depthCheck)
    decreases depthCheck
  {
    hide StrictWeak;
    depth := 0;
    if left < right {
      if right - left < 30 || depthCheck == 0 {
        HsortArray(a, left, right, comp);
      } else {
        var lowered := depthCheck / 2 + depthCheck / 2 / 16;
        var p := QsortPartition(a, left, right, comp);
        ghost var s := a[..];
        ghost var below := 0;
        if p > 0 {
          below := QsortArrayMain(a, left, p - 1, lowered, comp);
        }
        ghost var t := a[..];
        ghost var above := QsortArrayMain(a, p + 1, right, lowered, comp);
        JoinSplit(comp, s, t, a[..], left, p, right + 1);
        depth := 1 + if below < above then above else below;
      }
    }
  }

  method QsortArray<T(!new)>(a: array<T>, left: nat, right: nat, comp: (T, T) -> bool) returns (ghost depth: nat)
    requires StrictWeak(comp) && left <= right < a.Length
    modifies a
    ensures Sorted(comp, a[..], left, right + 1)
    ensures Rearranged(old(a[..]), a[..], left, right + 1)
    ensures right - left < 30 ==> Stable(comp, old(a[..]), a[..])
    ensures depth <= Levels(right - left)
  {
    depth := QsortArrayMain(a, left, right, right - left, comp);
  }

  function Power(b: nat, e: nat): nat { if e == 0 then 1 else b * Power(b, e - 1) }

  lemma PowerStep(d: nat, l: nat, q: nat, r: nat)
    requires 32 * l <= 17 * d && q <= l * r
    ensures 32 * q <= d * (17 * r)
  {
    assert 32 * q <= 32 * (l * r) == (32 * l) * r <= (17 * d) * r;
  }

  /** Each level leaves at most 17/32 of the budget, so there are at most about
    * 1 + log(n) / log(32/17) of them. */
  lemma {:induction false} LevelsLogarithmic(d: nat)
    requires d > 0
    ensures Power(32, Levels(d) - 1) <= d * Power(17, Levels(d) - 1)
  {
    var l := Lowered(d);
    if l > 0 {
      LevelsLogarithmic(l);
      LoweredIs(d);
      PowerStep(d, l, Power(32, Levels(l) - 1), Power(17, Levels(l) - 1));
    }
  }
}
