/**
 Reference-counted big integers.  Handles share digit records; a record is
 copied before it is changed through a handle that does not own it alone.
 */
module BigInts {
  import opened Arithmetic
  import opened Digits
  import opened Records
  import opened RecordSub
  import opened RecordShort
  import opened Shifts
  import opened LongMul
  import opened LongDiv

  class BigInt {
    var data: DataRecord

    /** A handle on a record nobody else holds yet. */
    constructor (data: DataRecord)
      ensures this.data == data
    {
      this.data := data;
    }

    ghost function Value(): nat
      requires data.Valid()
      reads this, data`digitsUsed, data.number
    {
      data.Value()
    }
  }

  /** A record of one digit. */
  method PutDigit(data: DataRecord, value: Digit)
    requires data.Valid()
    modifies data`digitsUsed, data.number
    ensures data.Canon() && data.Value() == value
  {
    data.digitsUsed := 1;
    data.number[0] := value;
    assert data.Digits() == [value];
    assert [value][1..] == [];
    assert Val([value]) == value;
  }

  lemma QuotientIs(a: nat, b: nat, q: nat, r: nat)
    requires a == q * b + r && r < b
    ensures q == a / b && r == a % b
  {
    if a / b < q {
      NextMultiple(a / b, q, b);
    } else if q < a / b {
      NextMultiple(q, a / b, b);
    }
  }

  lemma OtherMember<T>(s: set<T>, x: T)
    requires x in s && |s| > 1
    ensures exists y :: y in s && y != x
  {
    var y :| y in s - {x} by {
      assert |s - {x}| >= 1;
    }
  }

  lemma OnlyMember<T>(s: set<T>, x: T)
    requires x in s && |s| == 1
    ensures s == {x}
  {
    assert |s - {x}| == 0;
  }

  /** The live handles and the records not yet deleted. */
  class Store {
    ghost var handles: set<BigInt>
    ghost var records: set<DataRecord>

    constructor ()
      ensures Valid() && handles == {} && records == {}
    {
      handles, records := {}, {};
    }

    ghost function Holders(r: DataRecord): set<BigInt>
      reads this, handles
    {
      set h | h in handles && h.data == r
    }

    ghost function Arrays(): set<array<Digit>>
      reads this
    {
      set r | r in records :: r.number
    }

    /** `references` counts the live handles, and no record is left without one. */
    ghost predicate Counted()
      reads this, handles, records
    {
      && (forall h :: h in handles ==> h.data in records)
      && forall r :: r in records ==> r.references == |Holders(r)| >= 1
    }

    ghost predicate Sound()
      reads this, records, Arrays()
    {
      && (forall r :: r in records ==> r.Canon())
      && forall r, r' :: r in records && r' in records ==> Apart(r, r')
    }

    ghost predicate Valid()
      reads this, handles, records, Arrays()
    {
      Counted() && Sound()
    }

    /** A record that is not in the store yet. */
    ghost predicate Outside(r: DataRecord)
      reads this, r`digitsUsed, r.number
    {
      r !in records && r.Canon() && forall o :: o in records ==> r.number != o.number
    }

    lemma Sole(x: BigInt, h: BigInt)
      requires Counted() && x in handles && h in handles && x.data.references == 1 && h.data == x.data
      ensures h == x
    {
      assert h in Holders(x.data);
      OnlyMember(Holders(x.data), x);
    }

    /** After moving x to temp the counts are right again. */
    twostate lemma MovedCounts(x: BigInt, new temp: DataRecord)
      requires old(Counted()) && x in old(handles) && temp !in old(records)
      requires handles == old(handles) && x.data == temp && temp.references == 1
      requires forall h :: h in handles && h != x ==> h.data == old(h.data)
      requires old(x.data.references) != 1 ==>
        records == old(records) + {temp} && old(x.data).references == old(x.data.references) - 1
      requires old(x.data.references) == 1 ==> records == old(records) + {temp} - {old(x.data)}
      requires forall r :: r in old(records) && r != old(x.data) ==> r.references == old(r.references)
      ensures Counted()
    {
      var was := old(x.data);
      var holders := old(Holders(was));
      assert x in holders && was != temp;
      assert Holders(was) == holders - {x};
      assert Holders(temp) == {x};
      forall r | r in records ensures r.references == |Holders(r)| >= 1 {
        if r != temp && r != was {
          assert Holders(r) == old(Holders(r));
        }
      }
      forall h | h in handles ensures h.data in records {
        if old(was.references) == 1 && h != x && h.data == was {
          assert h in holders;
          OnlyMember(holders, x);
        }
      }
    }

    /** Moves handle x to a record of its own, leaving the old record to its other
        holders, or deleting it if there are none. */
    method Rebind(x: BigInt, temp: DataRecord)
      requires Valid() && x in handles && Outside(temp) && temp.references == 1
      modifies this, x, x.data`references
      ensures Valid() && handles == old(handles) && x.data == temp
      ensures records == old(records) + {temp} - (if old(x.data.references) == 1 then {old(x.data)} else {})
    {
      hide Counted, Sound, Val, Canonical;
      assert x.data in records && x.data.references >= 1 by { Held(x); }
      Move(x, temp);
      MovedCounts(x, temp);
      MovedSound(temp);
    }

    lemma Held(x: BigInt)
      requires Counted() && x in handles
      ensures x.data in records && x.data.references >= 1
    {
    }

    /** Adding a record from outside keeps the digits in order. */
    twostate lemma MovedSound(new temp: DataRecord)
      requires old(Sound()) && Outside'(temp) && records <= old(records) + {temp}
      requires forall r :: r in old(records) ==> r.digitsUsed == old(r.digitsUsed) && r.number[..] == old(r.number[..])
      ensures Sound()
    {
      hide Val, Canonical;
      forall r | r in records ensures r.Canon() {
        if r in old(records) {
          assert old(r.Canon()) && r.Digits() == old(r.Digits());
        }
      }
    }

    twostate predicate Outside'(new r: DataRecord)
      reads r`digitsUsed, r.number
    {
      r.Canon() && forall o :: o in old(records) && o != r ==> r.number != o.number
    }

    method Move(x: BigInt, temp: DataRecord)
      requires x.data in records && temp !in records && x.data.references >= 1
      modifies this, x, x.data`references
      ensures handles == old(handles) && x.data == temp
      ensures old(x.data.references) != 1 ==>
        records == old(records) + {temp} && old(x.data).references == old(x.data.references) - 1
      ensures old(x.data.references) == 1 ==> records == old(records) + {temp} - {old(x.data)}
    {
      Release(x.data);
      x.data := temp;
      records := records + {temp};
    }

    // -------------------------------------------------------------- operators

    /** Every handle but x still holds the same number. */
    twostate predicate Others(new x: BigInt)
      reads handles, set h | h in handles :: h.data, set h | h in handles :: h.data.number, this
    {
      handles >= old(handles) - {x} && forall h :: h in old(handles) && h != x ==>
        h.data == old(h.data) && h.data.digitsUsed == old(h.data.digitsUsed) &&
            h.data.number[..] == old(h.data.number[..])
    }

    lemma Apartness(x: BigInt, y: BigInt)
      requires Valid() && x in handles && y in handles
      ensures x.data.Canon() && y.data.Canon() && Apart(x.data, y.data)
      ensures forall r :: r in records && r != x.data ==> r.number != x.data.number
    {
    }

    /** Work on a record outside the store leaves the store as it is. */
    twostate lemma Untouched()
      requires old(Valid()) && handles == old(handles) && records == old(records)
      requires forall h :: h in handles ==> h.data == old(h.data)
      requires forall r :: r in records ==>
        r.references == old(r.references) && r.digitsUsed == old(r.digitsUsed) && r.number[..] == old(r.number[..])
      ensures Valid()
    {
      hide Val, Canonical;
      forall r | r in records ensures Holders(r) == old(Holders(r)) && r.Canon() {
        assert old(r.Canon()) && r.Digits() == old(r.Digits());
      }
    }

    lemma OutsideFresh(temp: DataRecord)
      requires temp !in records && temp.Canon() && forall r :: r in records ==> r.number != temp.number
      ensures Outside(temp)
    {
    }

    /** Changing the digits of a record with one holder changes no other handle. */
    twostate lemma InPlace(x: BigInt)
      requires old(Valid()) && x in old(handles) && handles == old(handles) && records == old(records)
      requires x.data == old(x.data) && x.data.references == old(x.data.references) == 1 && x.data.Canon()
      requires forall h :: h in handles ==> h.data == old(h.data)
      requires forall r :: r in records ==> r.references == old(r.references)
      requires forall r :: r in records && r != x.data ==>
        r.digitsUsed == old(r.digitsUsed) && r.number[..] == old(r.number[..])
      ensures Valid() && Others(x)
    {
      hide Val, Canonical;
      forall r | r in records ensures Holders(r) == old(Holders(r)) && r.Canon() {
        if r != x.data {
          assert old(r.Canon()) && r.Digits() == old(r.Digits());
        }
      }
      forall h | h in handles && h != x ensures h.data != x.data {
        if h.data == x.data { Sole(x, h); }
      }
    }

    /** bigint(item): one more holder of the same record. */
    method CopyHandle(item: BigInt) returns (h: BigInt)
      requires Valid() && item in handles
      modifies this, item.data`references
      ensures Valid() && fresh(h) && handles == old(handles) + {h} && records == old(records)
      ensures h.data == item.data && Others(h)
    {
      Apartness(item, item);
      h := new BigInt(item.data);
      item.data.references := item.data.references + 1;
      handles := handles + {h};
      Joined(h, item);
    }

    /** A new holder of y's record keeps the store in order. */
    twostate lemma Joined(new x: BigInt, y: BigInt)
      requires old(Valid()) && x !in old(handles) && y in old(handles)
      requires handles == old(handles) + {x} && records == old(records) && x.data == y.data == old(y.data)
      requires forall h :: h in old(handles) ==> h.data == old(h.data)
      requires y.data.references == old(y.data.references) + 1
      requires forall r :: r in records && r != y.data ==> r.references == old(r.references)
      requires forall r :: r in records ==> r.digitsUsed == old(r.digitsUsed) && r.number[..] == old(r.number[..])
      ensures Valid()
    {
      hide Val, Canonical;
      forall r | r in records ensures r.references == |Holders(r)| >= 1 && r.Canon() {
        assert old(r.Canon()) && r.Digits() == old(r.Digits());
        if r == y.data {
          assert Holders(r) == old(Holders(r)) + {x};
        } else {
          assert Holders(r) == old(Holders(r));
        }
      }
    }

    /** ~bigint(): the record goes when its last holder goes. */
    method Destroy(x: BigInt)
      requires Valid() && x in handles
      modifies this, x.data`references
      ensures Valid() && handles == old(handles) - {x} && Others(x)
      ensures records == old(records) - (if exists h :: h in handles && h.data == x.data then {} else {x.data})
    {
      ghost var holders := Holders(x.data);
      assert x in holders && x.data.references == |holders|;
      if x.data.references == 1 {
        OnlyMember(holders, x);
        records := records - {x.data};
      } else {
        OtherMember(holders, x);
        x.data.references := x.data.references - 1;
      }
      handles := handles - {x};
      Left(x);
    }

    /** Without x, its record has one holder less. */
    twostate lemma Left(x: BigInt)
      requires old(Valid()) && x in old(handles) && handles == old(handles) - {x}
      requires forall h :: h in old(handles) ==> h.data == old(h.data)
      requires old(x.data.references) == 1 ==> records == old(records) - {x.data}
      requires old(x.data.references) != 1 ==>
        records == old(records) && x.data.references == old(x.data.references) - 1
      requires forall r :: r in records && r != x.data ==> r.references == old(r.references)
      requires forall r :: r in records ==> r.digitsUsed == old(r.digitsUsed) && r.number[..] == old(r.number[..])
      ensures Valid()
    {
      hide Val, Canonical;
      assert x in old(Holders(x.data));
      forall r | r in records ensures r.references == |Holders(r)| >= 1 && r.Canon() {
        assert old(r.Canon()) && r.Digits() == old(r.Digits());
        if r == x.data {
          assert Holders(r) == old(Holders(r)) - {x};
        } else {
          assert Holders(r) == old(Holders(r));
        }
      }
      forall h | h in handles ensures h.data in records {
        if h.data == x.data && old(x.data.references) == 1 {
          assert h in old(Holders(x.data));
          OnlyMember(old(Holders(x.data)), x);
        }
      }
    }

    /** x = rhs */
    method Assign(x: BigInt, rhs: BigInt)
      requires Valid() && x in handles && rhs in handles
      modifies this, x, x.data`references, rhs.data`references
      ensures Valid() && handles == old(handles) && Others(x)
      ensures x.data == old(rhs.data) && records <= old(records)
    {
      if x != rhs && x.data != rhs.data {
        hide Val, Canonical, Counted, Sound;
        AssignOther(x, rhs);
      }
    }

    /** x = rhs for handles on different records. */
    method AssignOther(x: BigInt, rhs: BigInt)
      requires Valid() && x in handles && rhs in handles && x.data != rhs.data
      modifies this, x, x.data`references, rhs.data`references
      ensures Valid() && handles == old(handles) && Others(x) && x.data == old(rhs.data)
      ensures old(x.data.references) == 1 ==> records == old(records) - {old(x.data)}
      ensures old(x.data.references) != 1 ==> records == old(records)
    {
      hide Val, Canonical, Counted, Sound;
      Held(x);
      Held(rhs);
      Release(x.data);
      var shared := rhs.data;
      x.data := shared;
      shared.references := shared.references + 1;
      Switched(x, rhs);
    }

    /** One holder of r is about to leave. */
    method Release(r: DataRecord)
      requires r.references >= 1
      modifies this`records, r`references
      ensures old(r.references) == 1 ==> records == old(records) - {r} && r.references == old(r.references)
      ensures old(r.references) != 1 ==> records == old(records) && r.references == old(r.references) - 1
    {
      if r.references == 1 {
        records := records - {r};
      } else {
        r.references := r.references - 1;
      }
    }

    twostate lemma Switched(x: BigInt, new rhs: BigInt)
      requires old(Valid()) && x in old(handles) && rhs in old(handles) && handles == old(handles)
      requires old(x.data) != old(rhs.data) && x.data == old(rhs.data)
      requires forall h :: h in handles && h != x ==> h.data == old(h.data)
      requires old(x.data.references) == 1 ==> records == old(records) - {old(x.data)}
      requires old(x.data.references) != 1 ==>
        records == old(records) && old(x.data).references == old(x.data.references) - 1
      requires x.data.references == old(rhs.data.references) + 1
      requires forall r :: r in records && r != x.data && r != old(x.data) ==> r.references == old(r.references)
      requires forall r :: r in records ==> r.digitsUsed == old(r.digitsUsed) && r.number[..] == old(r.number[..])
      ensures Valid()
    {
      hide Val, Canonical, Sound;
      var was := old(x.data);
      KeptSound();
      assert x in old(Holders(was)) && x !in old(Holders(rhs.data));
      assert Holders(x.data) == old(Holders(rhs.data)) + {x};
      assert Holders(was) == old(Holders(was)) - {x};
      forall r | r in records && r != x.data && r != was ensures Holders(r) == old(Holders(r)) { }
      if old(x.data.references) == 1 {
        assert forall h :: h in handles && h != x && h.data == was ==> h in old(Holders(was));
        OnlyMember(old(Holders(was)), x);
      }
    }

    /** Fewer records, with the digits they had. */
    twostate lemma KeptSound()
      requires old(Sound()) && records <= old(records)
      requires forall r :: r in records ==> r.digitsUsed == old(r.digitsUsed) && r.number[..] == old(r.number[..])
      ensures Sound()
    {
      hide Val, Canonical;
      forall r | r in records ensures r.Canon() {
        assert old(r.Canon()) && r.Digits() == old(r.Digits());
      }
    }

    /** x += rhs */
    method AddAssign(x: BigInt, rhs: BigInt)
      requires Valid() && x in handles && rhs in handles
      modifies this, x, x.data`references, x.data`digitsUsed, x.data.number
      ensures Valid() && handles == old(handles) && Others(x)
      ensures x.data.Canon() && x.data.Value() == old(x.data.Value() + rhs.data.Value())
    {
      hide Counted, Sound, Val, Canonical, Pow;
      Apartness(x, rhs);
      var used := Max(x.data.digitsUsed, rhs.data.digitsUsed);
      if x.data.references != 1 || x.data.Size() <= used {
        var temp := new DataRecord(used + SLACK);
        LongAdd(x.data, rhs.data, temp);
        Untouched();
        OutsideFresh(temp);
        Rebind(x, temp);
      } else {
        LongAdd(x.data, rhs.data, x.data);
        InPlace(x);
      }
    }

    /** x -= rhs */
    method SubAssign(x: BigInt, rhs: BigInt)
      requires Valid() && x in handles && rhs in handles && rhs.data.Valid() && x.data.Valid()
      requires rhs.data.Value() <= x.data.Value()
      modifies this, x, x.data`references, x.data`digitsUsed, x.data.number
      ensures Valid() && handles == old(handles) && Others(x)
      ensures x.data.Canon() && x.data.Value() == old(x.data.Value() - rhs.data.Value())
    {
      hide Counted, Sound, Val, Canonical, Pow;
      Apartness(x, rhs);
      NotLonger(rhs.data.Digits(), x.data.Digits());
      if x.data.references != 1 {
        var temp := new DataRecord(x.data.digitsUsed + SLACK);
        LongSub(x.data, rhs.data, temp);
        Untouched();
        OutsideFresh(temp);
        Rebind(x, temp);
      } else {
        LongSub(x.data, rhs.data, x.data);
        InPlace(x);
      }
    }

    /** x *= rhs */
    method MulAssign(x: BigInt, rhs: BigInt)
      requires Valid() && x in handles && rhs in handles
      modifies this, x, x.data`references
      ensures Valid() && handles == old(handles) && Others(x)
      ensures x.data.Canon() && x.data.Value() == old(x.data.Value() * rhs.data.Value())
    {
      hide Counted, Sound, Val, Canonical, Pow;
      Apartness(x, rhs);
      var temp := new DataRecord(rhs.data.digitsUsed + x.data.digitsUsed + SLACK);
      LongMultiply(x.data, rhs.data, temp);
      Untouched();
      OutsideFresh(temp);
      Rebind(x, temp);
    }

    /** The quotient and the remainder of two handles, in records of their own. */
    method DivideApart(x: BigInt, rhs: BigInt) returns (temp: DataRecord, remainder: DataRecord)
      requires Valid() && x in handles && rhs in handles && rhs.data.Valid() && rhs.data.Value() > 0
      ensures Valid() && fresh(temp) && fresh(temp.number) && fresh(remainder) && fresh(remainder.number)
      ensures Outside(temp) && Outside(remainder) && temp.references == remainder.references == 1
      ensures x.data.Valid() && rhs.data.Valid()
      ensures x.data.Value() == temp.Value() * rhs.data.Value() + remainder.Value() &&
        remainder.Value() < rhs.data.Value()
    {
      hide Counted, Sound, Val, Canonical, Pow;
      Apartness(x, rhs);
      temp := new DataRecord(x.data.digitsUsed + SLACK);
      remainder := new DataRecord(x.data.digitsUsed + SLACK);
      LongDivide(x.data, rhs.data, temp, remainder);
      Untouched();
      OutsideFresh(temp);
      OutsideFresh(remainder);
    }

    /** x /= rhs */
    method DivAssign(x: BigInt, rhs: BigInt)
      requires Valid() && x in handles && rhs in handles && rhs.data.Valid() && rhs.data.Value() > 0
      modifies this, x, x.data`references
      ensures Valid() && handles == old(handles) && Others(x)
      ensures x.data.Canon() && x.data.Value() == old(x.data.Value() / rhs.data.Value())
    {
      hide Counted, Sound, Val, Canonical, Pow;
      Apartness(x, rhs);
      ghost var a, b := x.data.Value(), rhs.data.Value();
      var temp, remainder := DivideApart(x, rhs);
      QuotientIs(a, b, temp.Value(), remainder.Value());
      Rebind(x, temp);
    }

    /** x %= rhs */
    method ModAssign(x: BigInt, rhs: BigInt)
      requires Valid() && x in handles && rhs in handles && rhs.data.Valid() && rhs.data.Value() > 0
      modifies this, x, x.data`references
      ensures Valid() && handles == old(handles) && Others(x)
      ensures x.data.Canon() && x.data.Value() == old(x.data.Value() % rhs.data.Value())
    {
      hide Counted, Sound, Val, Canonical, Pow;
      Apartness(x, rhs);
      ghost var a, b := x.data.Value(), rhs.data.Value();
      var temp, remainder := DivideApart(x, rhs);
      QuotientIs(a, b, temp.Value(), remainder.Value());
      Rebind(x, remainder);
    }

    /** bigint(): a new handle on a new record that represents zero. */
    method Zero() returns (h: BigInt)
      requires Valid()
      modifies this
      ensures Valid() && fresh(h) && fresh(h.data) && fresh(h.data.number) && handles == old(handles) + {h} &&
        records == old(records) + {h.data}
      ensures h.data.Canon() && h.data.Value() == 0 && h.data.references == 1 && Others(h)
    {
      hide Counted, Sound, Val, Canonical, Pow;
      var temp := new DataRecord(SLACK);
      h := new BigInt(temp);
      handles, records := handles + {h}, records + {temp};
      Entered(h, temp);
    }

    /** A new handle on a new record keeps the store in order. */
    twostate lemma Entered(new h: BigInt, new temp: DataRecord)
      requires old(Valid()) && h !in old(handles) && temp !in old(records)
      requires handles == old(handles) + {h} && records == old(records) + {temp}
      requires h.data == temp && temp.references == 1 && Outside'(temp)
      requires forall y :: y in old(handles) ==> y.data == old(y.data)
      requires forall r :: r in old(records) ==>
        r.references == old(r.references) && r.digitsUsed == old(r.digitsUsed) && r.number[..] == old(r.number[..])
      ensures Valid()
    {
      hide Val, Canonical, Sound;
      MovedSound(temp);
      assert Holders(temp) == {h};
      forall r | r in records && r != temp ensures Holders(r) == old(Holders(r)) { }
    }

    /** x *= value, for a factor other than 0 */
    method ShortMulAssign(x: BigInt, value: Digit)
      requires Valid() && x in handles && value != 0
      modifies this, x, x.data`references, x.data`digitsUsed, x.data.number
      ensures Valid() && handles == old(handles) && Others(x)
      ensures x.data.Canon() && x.data.Value() == old(x.data.Value()) * value
      ensures x.data.references == 1 && (x.data == old(x.data) || (fresh(x.data) && fresh(x.data.number)))
    {
      hide Counted, Sound, Val, Canonical, Pow;
      Apartness(x, x);
      if x.data.references != 1 || x.data.digitsUsed == x.data.Size() {
        var temp := new DataRecord(x.data.digitsUsed + SLACK);
        ShortMul(x.data, value, temp);
        Untouched();
        OutsideFresh(temp);
        Rebind(x, temp);
      } else {
        ShortMul(x.data, value, x.data);
        InPlace(x);
      }
    }

    /** x += value */
    method ShortAddAssign(x: BigInt, value: Digit)
      requires Valid() && x in handles
      modifies this, x, x.data`references, x.data`digitsUsed, x.data.number
      ensures Valid() && handles == old(handles) && Others(x)
      ensures x.data.Canon() && x.data.Value() == old(x.data.Value()) + value
      ensures x.data.references == 1 && (x.data == old(x.data) || (fresh(x.data) && fresh(x.data.number)))
    {
      hide Counted, Sound, Val, Canonical, Pow;
      Apartness(x, x);
      if x.data.references != 1 || x.data.digitsUsed == x.data.Size() {
        var temp := new DataRecord(x.data.digitsUsed + SLACK);
        ShortAdd(x.data, value, temp);
        Untouched();
        OutsideFresh(temp);
        Rebind(x, temp);
      } else {
        ShortAdd(x.data, value, x.data);
        InPlace(x);
      }
    }

    /** ++x */
    method PreIncrement(x: BigInt)
      requires Valid() && x in handles
      modifies this, x, x.data`references, x.data`digitsUsed, x.data.number
      ensures Valid() && handles == old(handles) && Others(x)
      ensures x.data.Canon() && x.data.Value() == old(x.data.Value()) + 1
    {
      hide Counted, Sound, Val, Canonical, Pow;
      Apartness(x, x);
      if x.data.references != 1 || x.data.digitsUsed == x.data.Size() {
        var temp := new DataRecord(x.data.digitsUsed + SLACK);
        Increment(x.data, temp);
        Untouched();
        OutsideFresh(temp);
        Rebind(x, temp);
      } else {
        Increment(x.data, x.data);
        InPlace(x);
      }
    }

    /** x++: x moves to a new record, and the handle returned takes its place on the old one. */
    method PostIncrement(x: BigInt) returns (h: BigInt)
      requires Valid() && x in handles
      modifies this, x
      ensures Valid() && fresh(h) && handles == old(handles) + {h} && Others(x)
      ensures h.data == old(x.data) && h.data.Valid() && h.data.Value() == old(x.data.Value())
      ensures x.data.Canon() && x.data.Value() == old(x.data.Value()) + 1
    {
      hide Counted, Sound, Val, Canonical, Pow;
      Apartness(x, x);
      var temp2 := new DataRecord(x.data.digitsUsed + SLACK);
      Increment(x.data, temp2);
      h := new BigInt(x.data);
      x.data := temp2;
      handles, records := handles + {h}, records + {temp2};
      TookOver(h, x, temp2);
    }

    /** --x */
    method PreDecrement(x: BigInt)
      requires Valid() && x in handles && x.data.Valid() && x.data.Value() > 0
      modifies this, x, x.data`references, x.data`digitsUsed, x.data.number
      ensures Valid() && handles == old(handles) && Others(x)
      ensures x.data.Canon() && x.data.Value() == old(x.data.Value()) - 1
    {
      hide Counted, Sound, Val, Canonical, Pow;
      Apartness(x, x);
      if x.data.references != 1 {
        var temp := new DataRecord(x.data.digitsUsed + SLACK);
        Decrement(x.data, temp);
        Untouched();
        OutsideFresh(temp);
        Rebind(x, temp);
      } else {
        Decrement(x.data, x.data);
        InPlace(x);
      }
    }

    /** x--: x moves to a new record, and the handle returned takes its place on the old one. */
    method PostDecrement(x: BigInt) returns (h: BigInt)
      requires Valid() && x in handles && x.data.Valid() && x.data.Value() > 0
      modifies this, x
      ensures Valid() && fresh(h) && handles == old(handles) + {h} && Others(x)
      ensures h.data == old(x.data) && h.data.Valid() && h.data.Value() == old(x.data.Value())
      ensures x.data.Canon() && x.data.Value() == old(x.data.Value()) - 1
    {
      hide Counted, Sound, Val, Canonical, Pow;
      Apartness(x, x);
      var temp2 := new DataRecord(x.data.digitsUsed + SLACK);
      Decrement(x.data, temp2);
      h := new BigInt(x.data);
      x.data := temp2;
      handles, records := handles + {h}, records + {temp2};
      TookOver(h, x, temp2);
    }

    /** x -= value */
    method ShortSubAssign(x: BigInt, value: Digit)
      requires Valid() && x in handles && x.data.Valid() && value <= x.data.Value()
      modifies this, x, x.data`references, x.data`digitsUsed, x.data.number
      ensures Valid() && handles == old(handles) && Others(x)
      ensures x.data.Canon() && x.data.Value() == old(x.data.Value()) - value
    {
      hide Counted, Sound, Val, Canonical, Pow;
      Apartness(x, x);
      if x.data.references != 1 {
        var temp := new DataRecord(x.data.digitsUsed + SLACK);
        ShortSub(x.data, value, temp);
        Untouched();
        OutsideFresh(temp);
        Rebind(x, temp);
      } else {
        ShortSub(x.data, value, x.data);
        InPlace(x);
      }
    }

    /** x = value */
    method AssignDigit(x: BigInt, value: Digit)
      requires Valid() && x in handles
      modifies this, x, x.data`references, x.data`digitsUsed, x.data.number
      ensures Valid() && handles == old(handles) && Others(x)
      ensures x.data.Canon() && x.data.Value() == value
    {
      hide Counted, Sound, Val, Canonical, Pow;
      Apartness(x, x);
      if x.data.references != 1 {
        var temp := new DataRecord(SLACK);
        PutDigit(temp, value);
        Untouched();
        OutsideFresh(temp);
        Rebind(x, temp);
      } else {
        PutDigit(x.data, value);
        InPlace(x);
      }
    }

    /** h takes x's place on the old record, x has a record of its own. */
    twostate lemma TookOver(new h: BigInt, x: BigInt, new temp: DataRecord)
      requires old(Valid()) && x in old(handles) && h !in old(handles) && temp !in old(records)
      requires handles == old(handles) + {h} && records == old(records) + {temp}
      requires h.data == old(x.data) && x.data == temp && temp.references == 1 && Outside'(temp)
      requires forall y :: y in old(handles) && y != x ==> y.data == old(y.data)
      requires forall r :: r in old(records) ==>
        r.references == old(r.references) && r.digitsUsed == old(r.digitsUsed) && r.number[..] == old(r.number[..])
      ensures Valid()
    {
      hide Val, Canonical, Sound;
      MovedSound(temp);
      var shared := h.data;
      assert x in old(Holders(shared)) && h !in old(Holders(shared));
      assert Holders(shared) == old(Holders(shared)) - {x} + {h};
      assert Holders(temp) == {x};
      forall r | r in records && r != temp && r != shared ensures Holders(r) == old(Holders(r)) { }
    }
  }
}
