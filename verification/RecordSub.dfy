/**
 Subtraction and comparison of digit records.
 */
module RecordSub {
  import opened Digits
  import opened Records

  /** The digits v and the borrow w hold the difference of x and y so far. */
  ghost predicate DiffSoFar(v: seq<Digit>, w: nat, x: nat, y: nat) {
    Val(v) == x - y + w * Pow(|v|)
  }

  /** A 32-bit difference of two digits and a borrow; bit 31 is the next borrow. */
  function Difference(a: Digit, b: Digit, w: nat): (t: nat)
    requires w <= 1
    ensures t < 0x1_0000_0000 && t / 0x8000_0000 <= 1
    ensures t % 0x1_0000 == a - b - w + 0x1_0000 * (t / 0x8000_0000)
  {
    (a as int - b - w) % 0x1_0000_0000
  }

  lemma SubStep(v: int, w: nat, x: int, y: int, a: nat, b: nat, p: nat, d: nat, w': nat)
    requires v == x - y + w * p && d == a - b - w + 0x1_0000 * w'
    ensures v + d * p == (x + a * p) - (y + b * p) + w' * (0x1_0000 * p)
  {
    assert d * p == a * p - b * p - w * p + (0x1_0000 * w') * p;
    assert (0x1_0000 * w') * p == w' * (0x1_0000 * p);
  }

  lemma SubDigit(v: seq<Digit>, w: nat, x: nat, y: nat, a: Digit, b: Digit)
    requires w <= 1 && DiffSoFar(v, w, x, y)
    ensures var t := Difference(a, b, w);
            DiffSoFar(v + [t % 0x1_0000], t / 0x8000_0000, x + a * Pow(|v|), y + b * Pow(|v|))
  {
    var t := Difference(a, b, w);
    ValSnoc(v, t % 0x1_0000);
    SubStep(Val(v), w, x, y, a, b, Pow(|v|), t % 0x1_0000, t / 0x8000_0000);
  }

  lemma SubBothDigits(v: seq<Digit>, w: nat, a: seq<Digit>, b: seq<Digit>)
    requires w <= 1 && |v| < |a| && |v| < |b| && DiffSoFar(v, w, Val(a[..|v|]), Val(b[..|v|]))
    ensures var t := Difference(a[|v|], b[|v|], w);
            DiffSoFar(v + [t % 0x1_0000], t / 0x8000_0000, Val(a[..|v| + 1]), Val(b[..|v| + 1]))
  {
    ValTake(a, |v|);
    ValTake(b, |v|);
    SubDigit(v, w, Val(a[..|v|]), Val(b[..|v|]), a[|v|], b[|v|]);
  }

  lemma SubOneDigit(v: seq<Digit>, w: nat, a: seq<Digit>, y: nat)
    requires w <= 1 && |v| < |a| && DiffSoFar(v, w, Val(a[..|v|]), y)
    ensures var t := Difference(a[|v|], 0, w);
            DiffSoFar(v + [t % 0x1_0000], t / 0x8000_0000, Val(a[..|v| + 1]), y)
  {
    ValTake(a, |v|);
    SubDigit(v, w, Val(a[..|v|]), y, a[|v|], 0);
  }

  lemma BorrowTimes(w: nat, p: nat)
    ensures w == 0 ==> w * p == 0
    ensures w == 1 ==> w * p == p
  {
  }

  lemma NoBorrowLeft(v: seq<Digit>, w: nat, x: nat, y: nat)
    requires DiffSoFar(v, w, x, y) && w <= 1 && y <= x
    ensures w == 0 && Val(v) == x - y
  {
    ValBound(v);
    BorrowTimes(w, Pow(|v|));
  }

  method SubCommon(number1: array<Digit>, number2: array<Digit>, out: array<Digit>, used2: nat) returns (temp: nat)
    requires used2 <= number1.Length && used2 <= number2.Length && used2 <= out.Length
    modifies out
    ensures temp / 0x8000_0000 <= 1
    ensures DiffSoFar(out[..used2], temp / 0x8000_0000, old(Val(number1[..used2])), old(Val(number2[..used2])))
    ensures forall i :: used2 <= i < out.Length ==> out[i] == old(out[i])
  {
    ghost var a, b := number1[..used2], number2[..used2];
    ghost var v: seq<Digit> := [];
    temp := 0;
    var k := 0;
    while k < used2
      invariant k <= used2 && temp / 0x8000_0000 <= 1
      invariant |v| == k && out[..k] == v && DiffSoFar(v, temp / 0x8000_0000, Val(a[..k]), Val(b[..k]))
      invariant forall i :: k <= i < used2 ==> number1[i] == a[i]
      invariant forall i :: k <= i < used2 ==> number2[i] == b[i]
      invariant forall i :: used2 <= i < out.Length ==> out[i] == old(out[i])
    {
      SubBothDigits(v, temp / 0x8000_0000, a, b);
      temp := Difference(number1[k], number2[k], temp / 0x8000_0000);
      out[k] := temp % 0x1_0000;
      v := v + [temp % 0x1_0000];
      k := k + 1;
    }
    assert a[..k] == a && b[..k] == b;
  }

  method SubRest(number1: array<Digit>, out: array<Digit>, from: nat, used1: nat, first: nat,
      ghost a: seq<Digit>, ghost y: nat)
    requires from <= used1 == |a| && used1 <= number1.Length && used1 <= out.Length && first / 0x8000_0000 <= 1
    requires DiffSoFar(out[..from], first / 0x8000_0000, Val(a[..from]), y) && y <= Val(a)
    requires forall i :: from <= i < used1 ==> number1[i] == a[i]
    modifies out
    ensures Val(out[..used1]) == Val(a) - y
  {
    var temp := first;
    var k := from;
    ghost var v := out[..k];
    while k < used1
      invariant from <= k <= used1 && temp / 0x8000_0000 <= 1
      invariant |v| == k && out[..k] == v && DiffSoFar(v, temp / 0x8000_0000, Val(a[..k]), y)
      invariant forall i :: k <= i < used1 ==> number1[i] == a[i]
    {
      SubOneDigit(v, temp / 0x8000_0000, a, y);
      temp := Difference(number1[k], 0, temp / 0x8000_0000);
      out[k] := temp % 0x1_0000;
      v := v + [temp % 0x1_0000];
      k := k + 1;
    }
    assert a[..k] == a;
    NoBorrowLeft(v, temp / 0x8000_0000, Val(a), y);
  }

  /** Leading zeros do not count as used digits. */
  method Trim(result: DataRecord)
    requires result.Valid()
    modifies result`digitsUsed
    ensures result.Canon() && result.Value() == old(result.Value())
  {
    while result.number[result.digitsUsed - 1] == 0 && result.digitsUsed > 1
      invariant result.Valid() && result.Value() == old(result.Value())
    {
      DropTopZero(result.Digits());
      assert result.number[..result.digitsUsed - 1] == result.Digits()[..result.digitsUsed - 1];
      result.digitsUsed := result.digitsUsed - 1;
    }
  }

  /** result becomes lhs - rhs; result may be either operand, or both. */
  method LongSub(lhs: DataRecord, rhs: DataRecord, result: DataRecord)
    requires lhs.Valid() && rhs.Valid() && Apart(lhs, result) && Apart(rhs, result)
    requires lhs.digitsUsed <= result.Size() && rhs.digitsUsed <= lhs.digitsUsed && rhs.Value() <= lhs.Value()
    modifies result`digitsUsed, result.number
    ensures result.Canon() && result.Value() == old(lhs.Value() - rhs.Value())
  {
    var used1, used2 := lhs.digitsUsed, rhs.digitsUsed;
    ghost var a, y := lhs.Digits(), rhs.Value();
    assert a[..used2] == lhs.number[..used2];
    var temp := SubCommon(lhs.number, rhs.number, result.number, used2);
    SubRest(lhs.number, result.number, used2, used1, temp, a, y);
    result.digitsUsed := used1;
    Trim(result);
  }

  // --------------------------------------------------------------- comparison

  method IsLessThan(lhs: DataRecord, rhs: DataRecord) returns (less: bool)
    requires lhs.Canon() && rhs.Canon()
    ensures less <==> lhs.Value() < rhs.Value()
  {
    ghost var a, b := lhs.Digits(), rhs.Digits();
    if lhs.digitsUsed < rhs.digitsUsed {
      LongerIsLarger(a, b);
      return true;
    } else if lhs.digitsUsed > rhs.digitsUsed {
      LongerIsLarger(b, a);
      return false;
    }
    var k := lhs.digitsUsed;
    while k > 0
      invariant 0 <= k <= |a| == |b| && a[k..] == b[k..]
    {
      k := k - 1;
      if lhs.number[k] < rhs.number[k] {
        CompareAt(a, b, k);
        return true;
      } else if lhs.number[k] > rhs.number[k] {
        CompareAt(b, a, k);
        return false;
      }
    }
    return false;
  }

  method IsEqualTo(lhs: DataRecord, rhs: DataRecord) returns (equal: bool)
    requires lhs.Canon() && rhs.Canon()
    ensures equal <==> lhs.Value() == rhs.Value()
  {
    ghost var a, b := lhs.Digits(), rhs.Digits();
    if Val(a) == Val(b) { CanonicalUnique(a, b); }
    if lhs.digitsUsed != rhs.digitsUsed {
      return false;
    }
    var k := 0;
    while k < lhs.digitsUsed
      invariant 0 <= k <= |a| == |b| && a[..k] == b[..k]
    {
      if lhs.number[k] != rhs.number[k] {
        return false;
      }
      k := k + 1;
    }
    assert a[..k] == a && b[..k] == b;
    return true;
  }
}
