/** What a set or a map holds after its elements have been put in, in whatever order and with
  * whatever repetitions they come. */
module Containers {
  import opened Framing

  /** The order of the keys is a strict weak order, as std::set and std::map ask. */
  ghost predicate Orders(t: Type)
    requires t.Set? || t.Map?
  {
    && (forall x :: !t.less(x, x))
    && (forall x, y, z :: t.less(x, y) && t.less(y, z) ==> t.less(x, z))
    && (forall x, y, z :: t.less(x, z) ==> t.less(x, y) || t.less(y, z))
  }

  /** Neither key is smaller than the other. */
  ghost predicate Same(t: Type, x: Value, y: Value)
    requires t.Set? || t.Map?
  {
    !t.less(Key(t, x), Key(t, y)) && !t.less(Key(t, y), Key(t, x))
  }

  /** A set keeps its element; a map keeps the key and takes the new second part. */
  function Updated(t: Type, e: Value, x: Value): Value {
    if t.Map? && x.Two? then Two(Key(t, e), x.second) else e
  }

  lemma UpdatedKey(t: Type, e: Value, x: Value)
    ensures t.Map? && e.Two? && x.Two? ==> Updated(t, e, x).Two? && Key(t, Updated(t, e, x)) == Key(t, e)
    ensures t.Set? ==> Updated(t, e, x) == e
  {
  }

  /** The items of a map are pairs. */
  ghost predicate Pairs(t: Type, items: seq<Value>) {
    t.Map? ==> forall i :: 0 <= i < |items| ==> items[i].Two?
  }

  /** What putting x in makes of the members s. */
  ghost predicate Joins(t: Type, s: seq<Value>, x: Value, y: Value)
    requires t.Set? || t.Map?
  {
    || (y in s && !Same(t, y, x))
    || (exists e :: e in s && Same(t, e, x) && y == Updated(t, e, x))
    || (y == x && forall e :: e in s ==> !Same(t, e, x))
  }

  /** An element with another key in front stays as it is. */
  lemma JoinsBehind(t: Type, h: Value, r: seq<Value>, x: Value, y: Value)
    requires (t.Set? || t.Map?) && !Same(t, h, x)
    ensures Joins(t, [h] + r, x, y) <==> y == h || Joins(t, r, x, y)
  {
    var s := [h] + r;
    assert forall e :: e in s <==> e == h || e in r;
  }

  lemma JoinsNew(t: Type, s: seq<Value>, x: Value, y: Value)
    requires (t.Set? || t.Map?) && forall e :: e in s ==> !Same(t, e, x)
    ensures Joins(t, s, x, y) <==> y == x || y in s
  {
  }

  lemma JoinsKnown(t: Type, h: Value, r: seq<Value>, x: Value, y: Value)
    requires (t.Set? || t.Map?) && Same(t, h, x) && forall e :: e in r ==> !Same(t, e, x)
    ensures Joins(t, [h] + r, x, y) <==> y == Updated(t, h, x) || y in r
  {
    var s := [h] + r;
    assert forall e :: e in s <==> e == h || e in r;
    assert h in s;
  }

  lemma KeyOfJoined(t: Type, h: Value, r: seq<Value>, x: Value, y: Value)
    requires (t.Set? || t.Map?) && Pairs(t, r) && Pairs(t, [x]) && Joins(t, r, x, y)
    requires t.less(Key(t, h), Key(t, x)) && forall e :: e in r ==> t.less(Key(t, h), Key(t, e))
    ensures t.less(Key(t, h), Key(t, y)) && Pairs(t, [y])
  {
    assert [x][0] == x;
    if !(y in r && !Same(t, y, x)) && y != x {
      var e :| e in r && Same(t, e, x) && y == Updated(t, e, x);
      UpdatedKey(t, e, x);
    }
  }

  lemma SmallerThanAll(t: Type, s: seq<Value>, x: Value)
    requires (t.Set? || t.Map?) && Orders(t) && Increasing(t, s) && s != [] && t.less(Key(t, x), Key(t, s[0]))
    ensures forall e :: e in s ==> t.less(Key(t, x), Key(t, e))
  {
  }

  lemma BehindFirst(t: Type, s: seq<Value>, x: Value)
    requires (t.Set? || t.Map?) && Orders(t) && Increasing(t, s) && s != [] && Same(t, s[0], x)
    ensures forall e :: e in s[1..] ==> t.less(Key(t, x), Key(t, e))
  {
    forall e | e in s[1..] ensures t.less(Key(t, x), Key(t, e)) {
      assert t.less(Key(t, s[0]), Key(t, e));
    }
  }

  /** A smaller element in front of an increasing list. */
  lemma FrontIncreasing(t: Type, h: Value, r: seq<Value>)
    requires (t.Set? || t.Map?) && Increasing(t, r) && forall e :: e in r ==> t.less(Key(t, h), Key(t, e))
    ensures Increasing(t, [h] + r)
  {
    var s := [h] + r;
    forall i, j | 0 <= i < j < |s| ensures t.less(Key(t, s[i]), Key(t, s[j])) {
      assert s[j] == r[j - 1];
      if i > 0 { assert s[i] == r[i - 1]; }
    }
  }

  lemma Tail(t: Type, s: seq<Value>)
    requires (t.Set? || t.Map?) && Increasing(t, s) && Pairs(t, s) && s != []
    ensures Increasing(t, s[1..]) && Pairs(t, s[1..]) && s == [s[0]] + s[1..]
    ensures forall e :: e in s[1..] ==> t.less(Key(t, s[0]), Key(t, e))
  {
    forall e | e in s[1..] ensures t.less(Key(t, s[0]), Key(t, e)) {
      var i :| 0 <= i < |s| - 1 && s[1..][i] == e;
      assert s[i + 1] == e;
    }
  }

  lemma InsertSame(t: Type, s: seq<Value>, x: Value)
    requires (t.Set? || t.Map?) && Orders(t) && Increasing(t, s) && Pairs(t, s) && Pairs(t, [x])
    requires s != [] && Same(t, s[0], x)
    ensures Pairs(t, Insert(t, s, x)) && Increasing(t, Insert(t, s, x))
    ensures forall y :: y in Insert(t, s, x) <==> Joins(t, s, x, y)
  {
    var h, r := s[0], s[1..];
    Tail(t, s);
    BehindFirst(t, s, x);
    assert [x][0] == x;
    UpdatedKey(t, h, x);
    assert Insert(t, s, x) == [Updated(t, h, x)] + r;
    FrontIncreasing(t, Updated(t, h, x), r);
    forall y ensures y in Insert(t, s, x) <==> Joins(t, s, x, y) {
      JoinsKnown(t, h, r, x, y);
    }
  }

  lemma InsertFront(t: Type, s: seq<Value>, x: Value)
    requires (t.Set? || t.Map?) && s != [] && t.less(Key(t, s[0]), Key(t, x))
    ensures Insert(t, s, x) == [s[0]] + Insert(t, s[1..], x)
  {
  }

  lemma InsertBehind(t: Type, s: seq<Value>, x: Value)
    requires (t.Set? || t.Map?) && Orders(t) && Increasing(t, s) && Pairs(t, s) && Pairs(t, [x])
    requires s != [] && t.less(Key(t, s[0]), Key(t, x))
    requires Pairs(t, Insert(t, s[1..], x)) && Increasing(t, Insert(t, s[1..], x))
    requires forall y :: y in Insert(t, s[1..], x) <==> Joins(t, s[1..], x, y)
    ensures Pairs(t, Insert(t, s, x)) && Increasing(t, Insert(t, s, x))
    ensures forall y :: y in Insert(t, s, x) <==> Joins(t, s, x, y)
  {
    var h, r := s[0], s[1..];
    Tail(t, s);
    var more := Insert(t, r, x);
    hide Joins, Insert, Increasing;
    forall y | y in more ensures t.less(Key(t, h), Key(t, y)) {
      KeyOfJoined(t, h, r, x, y);
    }
    InsertFront(t, s, x);
    FrontIncreasing(t, h, more);
    forall y ensures y in Insert(t, s, x) <==> Joins(t, s, x, y) {
      JoinsBehind(t, h, r, x, y);
    }
  }

  lemma {:induction false} InsertIs(t: Type, s: seq<Value>, x: Value)
    requires (t.Set? || t.Map?) && Orders(t) && Increasing(t, s) && Pairs(t, s) && Pairs(t, [x])
    ensures Pairs(t, Insert(t, s, x)) && Increasing(t, Insert(t, s, x))
    ensures forall y :: y in Insert(t, s, x) <==> Joins(t, s, x, y)
  {
    if s == [] {
      forall y ensures y in [x] <==> Joins(t, [], x, y) { JoinsNew(t, [], x, y); }
    } else {
      Tail(t, s);
      if t.less(Key(t, s[0]), Key(t, x)) {
        InsertIs(t, s[1..], x);
        InsertBehind(t, s, x);
      } else if t.less(Key(t, x), Key(t, s[0])) {
        SmallerThanAll(t, s, x);
        FrontIncreasing(t, x, s);
        forall y ensures y in Insert(t, s, x) <==> Joins(t, s, x, y) { JoinsNew(t, s, x, y); }
      } else {
        InsertSame(t, s, x);
      }
    }
  }

  // ---------- all the elements ----------

  /** y has the key of item i, the first of its kind, and comes from item l, the last of it. */
  ghost predicate ComesFrom(t: Type, items: seq<Value>, i: nat, l: nat, y: Value)
    requires t.Set? || t.Map?
  {
    && i <= l < |items| && Same(t, items[i], items[l])
    && (forall j :: 0 <= j < i ==> !Same(t, items[j], items[i]))
    && (forall j :: l < j < |items| ==> !Same(t, items[j], items[l]))
    && y == Updated(t, items[i], items[l])
  }

  ghost predicate Held(t: Type, items: seq<Value>, y: Value)
    requires t.Set? || t.Map?
  {
    exists i: nat, l: nat :: ComesFrom(t, items, i, l, y)
  }

  lemma SameIsEquivalence(t: Type, x: Value, y: Value, z: Value)
    requires (t.Set? || t.Map?) && Orders(t)
    ensures Same(t, x, x) && (Same(t, x, y) ==> Same(t, y, x))
    ensures Same(t, x, y) && Same(t, y, z) ==> Same(t, x, z)
  {
  }

  lemma HeldKey(t: Type, items: seq<Value>, i: nat, l: nat, y: Value)
    requires (t.Set? || t.Map?) && Pairs(t, items) && ComesFrom(t, items, i, l, y)
    ensures Key(t, y) == Key(t, items[i]) && Pairs(t, [y])
  {
    UpdatedKey(t, items[i], items[l]);
  }

  /** The first and the last item of a kind. */
  lemma {:induction false} FirstOf(t: Type, items: seq<Value>, k: nat) returns (i: nat)
    requires (t.Set? || t.Map?) && Orders(t) && k < |items|
    ensures i <= k && Same(t, items[i], items[k]) && forall j :: 0 <= j < i ==> !Same(t, items[j], items[i])
  {
    SameIsEquivalence(t, items[k], items[k], items[k]);
    if j :| 0 <= j < k && Same(t, items[j], items[k]) {
      i := FirstOf(t, items, j);
      SameIsEquivalence(t, items[i], items[j], items[k]);
    } else {
      i := k;
    }
  }

  lemma {:induction false} LastOf(t: Type, items: seq<Value>, k: nat) returns (l: nat)
    requires (t.Set? || t.Map?) && Orders(t) && k < |items|
    ensures k <= l < |items| && Same(t, items[k], items[l])
    ensures forall j :: l < j < |items| ==> !Same(t, items[j], items[l])
    decreases |items| - k
  {
    SameIsEquivalence(t, items[k], items[k], items[k]);
    if j :| k < j < |items| && Same(t, items[j], items[k]) {
      SameIsEquivalence(t, items[j], items[k], items[k]);
      l := LastOf(t, items, j);
      SameIsEquivalence(t, items[k], items[j], items[l]);
    } else {
      l := k;
    }
  }

  /** Every item has one of its kind among what is held. */
  lemma KindIsHeld(t: Type, items: seq<Value>, k: nat) returns (i: nat, l: nat, y: Value)
    requires (t.Set? || t.Map?) && Orders(t) && Pairs(t, items) && k < |items|
    ensures ComesFrom(t, items, i, l, y) && Same(t, y, items[k]) && Key(t, y) == Key(t, items[i]) && i <= k
  {
    i := FirstOf(t, items, k);
    l := LastOf(t, items, k);
    SameIsEquivalence(t, items[i], items[k], items[l]);
    y := Updated(t, items[i], items[l]);
    HeldKey(t, items, i, l, y);
  }

  /** One more item: what was held of another kind stays. */
  lemma OthersStay(t: Type, items: seq<Value>, x: Value, i: nat, l: nat, y: Value)
    requires (t.Set? || t.Map?) && Orders(t) && Pairs(t, items) && i < |items| && l < |items|
    ensures ComesFrom(t, items + [x], i, l, y) <==> ComesFrom(t, items, i, l, y) && !Same(t, x, items[l])
  {
    var more := items + [x];
    assert more[|items|] == x && forall j :: 0 <= j < |items| ==> more[j] == items[j];
  }

  lemma OtherIsHeld(t: Type, items: seq<Value>, x: Value, y: Value)
    requires (t.Set? || t.Map?) && Orders(t) && Pairs(t, items) && Held(t, items, y) && !Same(t, y, x)
    ensures Held(t, items + [x], y)
  {
    var i: nat, l: nat :| ComesFrom(t, items, i, l, y);
    HeldKey(t, items, i, l, y);
    SameIsEquivalence(t, x, items[l], items[i]);
    SameIsEquivalence(t, items[i], items[l], x);
    SameIsEquivalence(t, x, items[i], x);
    OthersStay(t, items, x, i, l, y);
  }

  lemma UpdateIsHeld(t: Type, items: seq<Value>, x: Value, e: Value)
    requires (t.Set? || t.Map?) && Orders(t) && Pairs(t, items) && Held(t, items, e) && Same(t, e, x)
    requires Pairs(t, [x])
    ensures Held(t, items + [x], Updated(t, e, x))
  {
    assert [x][0] == x;
    var i: nat, l: nat :| ComesFrom(t, items, i, l, e);
    HeldKey(t, items, i, l, e);
    var more := items + [x];
    assert more[|items|] == x && forall j :: 0 <= j < |items| ==> more[j] == items[j];
    assert ComesFrom(t, more, i, |items|, Updated(t, e, x));
  }

  lemma NewIsHeld(t: Type, items: seq<Value>, x: Value)
    requires (t.Set? || t.Map?) && Orders(t) && Pairs(t, items) && Pairs(t, [x])
    requires forall e :: Held(t, items, e) ==> !Same(t, e, x)
    ensures Held(t, items + [x], x)
  {
    var n, more := |items|, items + [x];
    assert [x][0] == x && more[n] == x && forall j :: 0 <= j < n ==> more[j] == items[j];
    SameIsEquivalence(t, x, x, x);
    forall j | 0 <= j < n ensures !Same(t, items[j], x) {
      var i, l, e := KindIsHeld(t, items, j);
      SameIsEquivalence(t, e, items[j], x);
      assert Held(t, items, e);
    }
    assert ComesFrom(t, more, n, n, x);
  }

  lemma JoinedIsHeld(t: Type, items: seq<Value>, s: seq<Value>, x: Value, y: Value)
    requires (t.Set? || t.Map?) && Orders(t) && Pairs(t, items) && Pairs(t, [x])
    requires (forall e :: e in s <==> Held(t, items, e)) && Joins(t, s, x, y)
    ensures Held(t, items + [x], y)
  {
    hide Held, Orders;
    if y in s && !Same(t, y, x) {
      OtherIsHeld(t, items, x, y);
    } else if e :| e in s && Same(t, e, x) && y == Updated(t, e, x) {
      UpdateIsHeld(t, items, x, e);
    } else {
      NewIsHeld(t, items, x);
    }
  }

  lemma HeldIsJoined(t: Type, items: seq<Value>, s: seq<Value>, x: Value, y: Value)
    requires (t.Set? || t.Map?) && Orders(t) && Pairs(t, items) && Pairs(t, [x])
    requires (forall e :: e in s <==> Held(t, items, e)) && Held(t, items + [x], y)
    ensures Joins(t, s, x, y)
  {
    var n, more := |items|, items + [x];
    assert [x][0] == x && more[n] == x && forall j :: 0 <= j < n ==> more[j] == items[j];
    var i: nat, l: nat :| ComesFrom(t, more, i, l, y);
    if l < n {
      OthersStay(t, items, x, i, l, y);
      HeldKey(t, items, i, l, y);
      assert Held(t, items, y);
      SameIsEquivalence(t, y, x, items[l]);
      SameIsEquivalence(t, items[i], items[l], items[l]);
      SameIsEquivalence(t, x, items[i], items[l]);
      SameIsEquivalence(t, items[i], x, x);
    } else if i < n {
      var i', l', e := KindIsHeld(t, items, i);
      assert i' == i by {
        if i' < i { SameIsEquivalence(t, items[i'], items[i], x); }
      }
      SameIsEquivalence(t, e, items[i], x);
      assert Held(t, items, e) && e in s;
      assert y == Updated(t, e, x);
    } else {
      forall e | e in s ensures !Same(t, e, x) {
        var i': nat, l': nat :| ComesFrom(t, items, i', l', e);
        HeldKey(t, items, i', l', e);
        assert !Same(t, items[i'], x);
      }
    }
  }

  /** A set or map filled from any items: its keys are in increasing order, and it holds, for each
    * kind of item, the first of them, in a map with the second part of the last. */
  lemma {:induction false} FilledIs(t: Type, items: seq<Value>)
    requires (t.Set? || t.Map?) && Orders(t) && Pairs(t, items)
    ensures Increasing(t, Filled(t, items)) && Pairs(t, Filled(t, items))
    ensures forall y :: y in Filled(t, items) <==> Held(t, items, y)
  {
    if items != [] {
      var front, x := items[..|items| - 1], items[|items| - 1];
      FilledIs(t, front);
      var s := Filled(t, front);
      InsertIs(t, s, x);
      assert front + [x] == items;
      hide Joins, Held, Insert, Increasing, Orders;
      forall y ensures y in Filled(t, items) <==> Held(t, items, y) {
        if Joins(t, s, x, y) { JoinedIsHeld(t, front, s, x, y); }
        if Held(t, items, y) { HeldIsJoined(t, front, s, x, y); }
      }
    }
  }
}
