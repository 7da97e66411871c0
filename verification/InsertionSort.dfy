/** The routine for short ranges: a stable insertion sort by adjacent exchanges. */
module InsertionSort {
  import opened Ordering

  predicate Equivalent<T>(comp: (T, T) -> bool, x: T, y: T) { !comp(x, y) && !comp(y, x) }

  /** The elements equivalent to x, in order. */
  ghost function Equals<T>(comp: (T, T) -> bool, s: seq<T>, x: T): seq<T> {
    if s == [] then []
    else Equals(comp, s[..|s| - 1], x) + if Equivalent(comp, s[|s| - 1], x) then [s[|s| - 1]] else []
  }

  /** Equivalent elements keep their order. */
  ghost predicate Stable<T(!new)>(comp: (T, T) -> bool, s: seq<T>, t: seq<T>) {
    forall x :: Equals(comp, t, x) == Equals(comp, s, x)
  }

  lemma {:induction false} EqualsConcat<T>(comp: (T, T) -> bool, s: seq<T>, t: seq<T>, x: T)
    ensures Equals(comp, s + t, x) == Equals(comp, s, x) + Equals(comp, t, x)
  {
    if t == [] {
      assert s + t == s;
    } else {
      assert (s + t)[..|s + t| - 1] == s + t[..|t| - 1];
      EqualsConcat(comp, s, t[..|t| - 1], x);
    }
  }

  lemma EqualsPair<T>(comp: (T, T) -> bool, y: T, z: T, x: T)
    ensures Equals(comp, [y, z], x) ==
            (if Equivalent(comp, y, x) then [y] else []) + (if Equivalent(comp, z, x) then [z] else [])
  {
    assert [y, z][..1] == [y];
    assert [y][..0] == [];
    assert Equals(comp, [y], x) == if Equivalent(comp, y, x) then [y] else [];
  }

  lemma NotBoth<T(!new)>(comp: (T, T) -> bool, z: T, y: T, x: T)
    requires StrictWeak(comp) && comp(z, y)
    ensures !(Equivalent(comp, y, x) && Equivalent(comp, z, x))
  {
  }

  /** Exchanging two neighbours that are not equivalent keeps every class of equivalent
    * elements in order. */
  lemma NeighbourSwapStable<T(!new)>(comp: (T, T) -> bool, s: seq<T>, k: nat)
    requires StrictWeak(comp) && 0 < k < |s| && comp(s[k], s[k - 1])
    ensures Stable(comp, s, Swapped(s, k, k - 1))
  {
    var t := Swapped(s, k, k - 1);
    forall x ensures Equals(comp, t, x) == Equals(comp, s, x) {
      var y, z := s[k - 1], s[k];
      assert s == s[..k - 1] + ([y, z] + s[k + 1..]);
      assert t == s[..k - 1] + ([z, y] + s[k + 1..]);
      EqualsConcat(comp, s[..k - 1], [y, z] + s[k + 1..], x);
      EqualsConcat(comp, s[..k - 1], [z, y] + s[k + 1..], x);
      EqualsConcat(comp, [y, z], s[k + 1..], x);
      EqualsConcat(comp, [z, y], s[k + 1..], x);
      EqualsPair(comp, y, z, x);
      EqualsPair(comp, z, y, x);
      NotBoth(comp, z, y, x);
      assert Equals(comp, [y, z], x) == Equals(comp, [z, y], x);
    }
  }

  /** s[lo..=hi] is sorted but for the element at pos, which is smaller than all after it. */
  ghost predicate Inserting<T>(comp: (T, T) -> bool, s: seq<T>, lo: nat, pos: nat, hi: nat)
    requires hi < |s|
  {
    && (forall j, k {:trigger s[j], s[k]} :: lo <= j < k <= hi && j != pos && k != pos ==> Le(comp, s[j], s[k]))
    && (forall k :: pos < k <= hi ==> comp(s[pos], s[k]))
  }

  lemma InsertStep<T(!new)>(comp: (T, T) -> bool, s: seq<T>, lo: nat, pos: nat, hi: nat)
    requires lo < pos <= hi < |s| && Inserting(comp, s, lo, pos, hi) && comp(s[pos], s[pos - 1])
    ensures Inserting(comp, Swapped(s, pos, pos - 1), lo, pos - 1, hi)
  {
  }

  lemma Inserted<T(!new)>(comp: (T, T) -> bool, s: seq<T>, lo: nat, pos: nat, hi: nat)
    requires StrictWeak(comp) && lo <= pos <= hi < |s| && Inserting(comp, s, lo, pos, hi)
    requires pos > lo ==> !comp(s[pos], s[pos - 1])
    ensures Sorted(comp, s, lo, hi + 1)
  {
    forall j, k | lo <= j < k <= hi ensures Le(comp, s[j], s[k]) {
      if k == pos {
        assert Le(comp, s[pos - 1], s[pos]);
        if j < pos - 1 {
          assert Le(comp, s[j], s[pos - 1]);
          LeTransitive(comp, s[j], s[pos - 1], s[pos]);
        }
      } else if j == pos {
        assert comp(s[pos], s[k]);
      }
    }
  }

  /** The inner loop: move the element at i down to its place. */
  method Insert<T(!new)>(a: array<T>, left: nat, i: nat, comp: (T, T) -> bool)
    requires StrictWeak(comp) && left < i < a.Length && Sorted(comp, a[..], left, i)
    modifies a
    ensures Sorted(comp, a[..], left, i + 1)
    ensures Rearranged(old(a[..]), a[..], left, i + 1) && Stable(comp, old(a[..]), a[..])
  {
    hide StrictWeak, Equals;
    var pos := i;
    var j := i - 1;
    while comp(a[pos], a[j])
      invariant left <= j < pos <= i && j == pos - 1
      invariant Inserting(comp, a[..], left, pos, i)
      invariant Rearranged(old(a[..]), a[..], left, i + 1) && Stable(comp, old(a[..]), a[..])
      decreases j
    {
      InsertStep(comp, a[..], left, pos, i);
      NeighbourSwapStable(comp, a[..], pos);
      SwapRearranges(a[..], pos, j, left, i + 1);
      Exchange(a, pos, j);
      pos := j;
      if j == left { break; }
      j := j - 1;
    }
    Inserted(comp, a[..], left, pos, i);
  }

  method IsortArray<T(!new)>(a: array<T>, left: nat, right: nat, comp: (T, T) -> bool)
    requires StrictWeak(comp) && left <= right < a.Length
    modifies a
    ensures Sorted(comp, a[..], left, right + 1)
    ensures Rearranged(old(a[..]), a[..], left, right + 1) && Stable(comp, old(a[..]), a[..])
  {
    hide StrictWeak, Equals;
    for i := left + 1 to right + 1
      invariant Sorted(comp, a[..], left, i)
      invariant Rearranged(old(a[..]), a[..], left, right + 1) && Stable(comp, old(a[..]), a[..])
    {
      Insert(a, left, i, comp);
    }
  }
}
