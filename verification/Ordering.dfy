/** What the sorting routines promise: a sorted range, nothing lost, nothing outside it touched. */
module Ordering {

  /** A strict weak order, as std::less has to be: asymmetric, and not being smaller is
    * transitive. */
  ghost predicate StrictWeak<T(!new)>(comp: (T, T) -> bool) {
    && (forall x, y {:trigger comp(x, y)} :: comp(x, y) ==> !comp(y, x))
    && (forall x, y, z {:trigger comp(x, y), comp(y, z)} :: !comp(x, y) && !comp(y, z) ==> !comp(x, z))
  }

  predicate Le<T>(comp: (T, T) -> bool, x: T, y: T) { !comp(y, x) }

  lemma LeTransitive<T(!new)>(comp: (T, T) -> bool, x: T, y: T, z: T)
    requires StrictWeak(comp) && Le(comp, x, y) && Le(comp, y, z)
    ensures Le(comp, x, z)
  {
    assert !comp(z, y) && !comp(y, x);
  }

  lemma LeTotal<T(!new)>(comp: (T, T) -> bool, x: T, y: T)
    requires StrictWeak(comp)
    ensures Le(comp, x, y) || Le(comp, y, x)
    ensures Le(comp, x, x)
  {
  }

  /** No element of s[lo..hi] is smaller than one before it. */
  ghost predicate Sorted<T>(comp: (T, T) -> bool, s: seq<T>, lo: nat, hi: nat)
    requires hi <= |s|
  {
    forall j, k {:trigger s[j], s[k]} :: lo <= j < k < hi ==> Le(comp, s[j], s[k])
  }

  /** t is s with the elements of s[lo..hi] in another order. */
  ghost predicate Rearranged<T>(s: seq<T>, t: seq<T>, lo: nat, hi: nat) {
    && |t| == |s|
    && (forall k :: 0 <= k < |s| && !(lo <= k < hi) ==> t[k] == s[k])
    && multiset(t) == multiset(s)
  }

  lemma MultisetSplit<T>(s: seq<T>, lo: nat, hi: nat)
    requires lo <= hi <= |s|
    ensures multiset(s) == multiset(s[..lo]) + multiset(s[lo..hi]) + multiset(s[hi..])
  {
    assert s == (s[..lo] + s[lo..hi]) + s[hi..];
  }

  lemma MultisetCancel<T>(a: multiset<T>, m: multiset<T>, n: multiset<T>, b: multiset<T>)
    requires a + m + b == a + n + b
    ensures m == n
  {
    assert m == (a + m + b) - a - b;
    assert n == (a + n + b) - a - b;
  }

  lemma RangeKept<T>(s: seq<T>, t: seq<T>, lo: nat, hi: nat)
    requires Rearranged(s, t, lo, hi) && lo <= hi <= |s|
    ensures multiset(t[lo..hi]) == multiset(s[lo..hi])
  {
    MultisetSplit(s, lo, hi);
    MultisetSplit(t, lo, hi);
    assert s[..lo] == t[..lo] && s[hi..] == t[hi..];
    MultisetCancel(multiset(s[..lo]), multiset(s[lo..hi]), multiset(t[lo..hi]), multiset(s[hi..]));
  }

  /** Elements only move inside the range. */
  lemma CameFrom<T>(s: seq<T>, t: seq<T>, lo: nat, hi: nat, k: nat) returns (j: nat)
    requires Rearranged(s, t, lo, hi) && lo <= k < hi <= |s|
    ensures lo <= j < hi && t[k] == s[j]
  {
    RangeKept(s, t, lo, hi);
    assert t[k] == t[lo..hi][k - lo];
    assert t[k] in multiset(t[lo..hi]);
    assert t[k] in s[lo..hi];
    var i :| 0 <= i < hi - lo && s[lo..hi][i] == t[k];
    j := lo + i;
  }

  function Swapped<T>(s: seq<T>, i: nat, j: nat): seq<T>
    requires i < |s| && j < |s|
  {
    s[i := s[j]][j := s[i]]
  }

  lemma SwapRearranges<T>(s: seq<T>, i: nat, j: nat, lo: nat, hi: nat)
    requires lo <= i < hi <= |s| && lo <= j < hi
    ensures Rearranged(s, Swapped(s, i, j), lo, hi)
  {
  }

  /** One more exchange inside the range. */
  lemma SwapAgain<T>(s: seq<T>, t: seq<T>, i: nat, j: nat, lo: nat, hi: nat)
    requires Rearranged(s, t, lo, hi) && lo <= i < hi <= |t| && lo <= j < hi
    ensures Rearranged(s, Swapped(t, i, j), lo, hi)
  {
    SwapRearranges(t, i, j, lo, hi);
  }

  method Exchange<T>(a: array<T>, i: nat, j: nat)
    requires i < a.Length && j < a.Length
    modifies a
    ensures a[..] == Swapped(old(a[..]), i, j)
  {
    a[i], a[j] := a[j], a[i];
  }
}
