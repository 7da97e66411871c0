/** The routine for ranges that quicksort splits badly: heapsort on array[left..=right], with
  * the heap's root at `left` instead of 0. */
module HeapSort {
  import opened Ordering
  import opened InsertionSort

  /** c is a child of k in a heap whose root is at start. */
  predicate Child(start: nat, k: nat, c: nat) { c + start == 2 * k + 1 || c + start == 2 * k + 2 }

  /** No child in s[..=end] is larger than its parent, for parents from lo on except `hole`. */
  ghost predicate HeapBut<T>(comp: (T, T) -> bool, s: seq<T>, start: nat, lo: nat, end: nat, hole: int)
    requires end < |s|
  {
    forall k, c {:trigger Child(start, k, c)} ::
      start <= lo <= k < c <= end && Child(start, k, c) && k != hole ==> Le(comp, s[c], s[k])
  }

  ghost predicate Heap<T>(comp: (T, T) -> bool, s: seq<T>, start: nat, lo: nat, end: nat)
    requires end < |s|
  {
    HeapBut(comp, s, start, lo, end, -1)
  }

  /** The children of the hole are no larger than its parent. */
  ghost predicate Bridged<T>(comp: (T, T) -> bool, s: seq<T>, start: nat, lo: nat, end: nat, hole: nat)
    requires end < |s|
  {
    forall p, c {:trigger Child(start, p, hole), Child(start, hole, c)} ::
      start <= lo <= p < hole < c <= end && Child(start, p, hole) && Child(start, hole, c) ==> Le(comp, s[c], s[p])
  }

  /** `largest` is the hole or the larger of its children. */
  ghost predicate Largest<T>(comp: (T, T) -> bool, s: seq<T>, start: nat, end: nat, hole: nat, largest: nat)
    requires end < |s|
  {
    && hole <= largest <= end
    && (largest == hole || (Child(start, hole, largest) && comp(s[hole], s[largest])))
    && forall c {:trigger Child(start, hole, c)} :: hole < c <= end && Child(start, hole, c) ==>
      Le(comp, s[c], s[largest])
  }

  lemma SiftStep<T(!new)>(comp: (T, T) -> bool, s: seq<T>, start: nat, lo: nat, end: nat, hole: nat, largest: nat)
    requires StrictWeak(comp) && start <= lo <= hole <= end < |s|
    requires HeapBut(comp, s, start, lo, end, hole) && Bridged(comp, s, start, lo, end, hole)
    requires Largest(comp, s, start, end, hole, largest) && largest != hole
    ensures HeapBut(comp, Swapped(s, hole, largest), start, lo, end, largest)
    ensures Bridged(comp, Swapped(s, hole, largest), start, lo, end, largest)
  {
    var t := Swapped(s, hole, largest);
    LeTotal(comp, s[hole], s[largest]);
    forall k, c {:trigger Child(start, k, c)} | lo <= k < c <= end && Child(start, k, c) && k != largest
      ensures Le(comp, t[c], t[k])
    {
      if k == hole {
        if c != largest { assert Le(comp, s[c], s[largest]); }
      } else {
        assert Le(comp, s[c], s[k]);
        if c == hole {
          assert Child(start, hole, largest);
        }
      }
    }
    forall p, c {:trigger Child(start, p, largest), Child(start, largest, c)}
      | lo <= p < largest < c <= end && Child(start, p, largest) && Child(start, largest, c)
      ensures Le(comp, t[c], t[p])
    {
      assert p == hole;
      assert Le(comp, s[c], s[largest]);
    }
  }

  lemma SiftDone<T(!new)>(comp: (T, T) -> bool, s: seq<T>, start: nat, lo: nat, end: nat, hole: nat)
    requires end < |s| && HeapBut(comp, s, start, lo, end, hole) && Largest(comp, s, start, end, hole, hole)
    ensures Heap(comp, s, start, lo, end)
  {
  }

  method PickLargest<T(!new)>(a: array<T>, start: nat, end: nat, i: nat, comp: (T, T) -> bool) returns (largest: nat)
    requires StrictWeak(comp) && start <= i <= end < a.Length
    ensures Largest(comp, a[..], start, end, i, largest)
  {
    LeTotal(comp, a[i], a[i]);
    var left := 2 * i + 1 - start;
    var right := left + 1;
    if left <= end && comp(a[i], a[left]) {
      largest := left;
      LeTotal(comp, a[i], a[left]);
    } else {
      largest := i;
    }
    if right <= end && comp(a[largest], a[right]) {
      LeTotal(comp, a[largest], a[right]);
      if left <= end { LeTransitive(comp, a[left], a[largest], a[right]); }
      LeTransitive(comp, a[i], a[largest], a[right]);
      largest := right;
    }
  }

  method Heapify<T(!new)>(a: array<T>, start: nat, end: nat, i: nat, comp: (T, T) -> bool)
    requires StrictWeak(comp) && start <= i <= end < a.Length
    requires Heap(comp, a[..], start, i + 1, end)
    modifies a
    ensures Heap(comp, a[..], start, i, end)
    ensures Rearranged(old(a[..]), a[..], start, end + 1)
  {
    hide StrictWeak;
    var hole := i;
    var keepGoing := true;
    while keepGoing
      invariant i <= hole <= end
      invariant HeapBut(comp, a[..], start, i, end, hole) && Bridged(comp, a[..], start, i, end, hole)
      invariant !keepGoing ==> Heap(comp, a[..], start, i, end)
      invariant Rearranged(old(a[..]), a[..], start, end + 1)
      decreases keepGoing, end - hole
    {
      keepGoing := false;
      var largest := PickLargest(a, start, end, hole, comp);
      if largest != hole {
        SiftStep(comp, a[..], start, i, end, hole, largest);
        SwapRearranges(a[..], hole, largest, start, end + 1);
        Exchange(a, hole, largest);
        hole := largest;
        keepGoing := true;
      } else {
        SiftDone(comp, a[..], start, i, end, hole);
      }
    }
  }

  /** The root of a heap is a largest element. */
  lemma {:induction false} RootIsLargest<T(!new)>(comp: (T, T) -> bool, s: seq<T>, start: nat, end: nat, j: nat)
    requires StrictWeak(comp) && start <= j <= end < |s| && Heap(comp, s, start, start, end)
    ensures Le(comp, s[j], s[start])
    decreases j
  {
    if j == start {
      LeTotal(comp, s[j], s[j]);
    } else {
      var p := start + (j - start - 1) / 2;
      assert Child(start, p, j);
      RootIsLargest(comp, s, start, end, p);
      LeTransitive(comp, s[j], s[p], s[start]);
    }
  }

  /** Every element of s[lo..mid] is at most every element of s[mid..hi]. */
  ghost predicate Below<T>(comp: (T, T) -> bool, s: seq<T>, lo: nat, mid: nat, hi: nat)
    requires hi <= |s|
  {
    forall j, k {:trigger s[j], s[k]} :: lo <= j < mid <= k < hi ==> Le(comp, s[j], s[k])
  }

  lemma BelowKept<T>(comp: (T, T) -> bool, s: seq<T>, t: seq<T>, lo: nat, mid: nat, hi: nat)
    requires lo <= mid <= hi <= |s| && Below(comp, s, lo, mid, hi) && Rearranged(s, t, lo, mid)
    ensures Below(comp, t, lo, mid, hi)
  {
    forall j, k | lo <= j < mid <= k < hi ensures Le(comp, t[j], t[k]) {
      var i := CameFrom(s, t, lo, mid, j);
      assert Le(comp, s[i], s[k]);
    }
  }

  lemma SortedKept<T>(comp: (T, T) -> bool, s: seq<T>, t: seq<T>, lo: nat, mid: nat, hi: nat)
    requires lo <= mid <= hi <= |s| && Sorted(comp, s, mid, hi) && Rearranged(s, t, lo, mid)
    ensures Sorted(comp, t, mid, hi)
  {
  }

  /** Exchanging the root of the heap s[left..=i] with its last element. */
  lemma TakeRoot<T(!new)>(comp: (T, T) -> bool, s: seq<T>, left: nat, i: nat, right: nat)
    requires StrictWeak(comp) && left < i <= right < |s|
    requires Heap(comp, s, left, left, i) && Sorted(comp, s, i + 1, right + 1) && Below(comp, s, left, i + 1, right + 1)
    ensures var t := Swapped(s, i, left);
      && Heap(comp, t, left, left + 1, i - 1)
      && Sorted(comp, t, i, right + 1) && Below(comp, t, left, i, right + 1)
  {
    var t := Swapped(s, i, left);
    forall j | left <= j < i ensures Le(comp, t[j], t[i]) {
      RootIsLargest(comp, s, left, i, if j == left then i else j);
    }
    assert forall j, k {:trigger t[j], t[k]} :: left <= j < i && i < k <= right ==> Le(comp, t[j], t[k]);
    assert forall k :: i < k <= right ==> Le(comp, t[i], t[k]);
  }

  /** Turns the range into a heap, from the last parent to the root. */
  method BuildHeap<T(!new)>(a: array<T>, left: nat, right: nat, comp: (T, T) -> bool)
    requires StrictWeak(comp) && left <= right < a.Length
    modifies a
    ensures Heap(comp, a[..], left, left, right)
    ensures Rearranged(old(a[..]), a[..], left, right + 1)
  {
    hide StrictWeak;
    var i := left + (right - left) / 2;
    while true
      invariant left <= i <= right && Heap(comp, a[..], left, i + 1, right)
      invariant Rearranged(old(a[..]), a[..], left, right + 1)
      decreases i
    {
      Heapify(a, left, right, i, comp);
      if i == left { break; }
      i := i - 1;
    }
  }

  method HsortArray<T(!new)>(a: array<T>, left: nat, right: nat, comp: (T, T) -> bool)
    requires StrictWeak(comp) && left <= right < a.Length
    modifies a
    ensures Sorted(comp, a[..], left, right + 1)
    ensures Rearranged(old(a[..]), a[..], left, right + 1)
    ensures right - left < 30 ==> Stable(comp, old(a[..]), a[..])
  {
    hide StrictWeak;
    if right - left < 30 {
      IsortArray(a, left, right, comp);
      return;
    }
    BuildHeap(a, left, right, comp);
    var i := right;
    while i > left
      invariant left <= i <= right
      invariant Heap(comp, a[..], left, left, i)
      invariant Sorted(comp, a[..], i + 1, right + 1) && Below(comp, a[..], left, i + 1, right + 1)
      invariant Rearranged(old(a[..]), a[..], left, right + 1)
    {
      TakeRoot(comp, a[..], left, i, right);
      SwapRearranges(a[..], i, left, left, right + 1);
      Exchange(a, i, left);
      ghost var s := a[..];
      i := i - 1;
      Heapify(a, left, i, left, comp);
      BelowKept(comp, s, a[..], left, i + 1, right + 1);
      SortedKept(comp, s, a[..], left, i + 1, right + 1);
    }
  }
}
