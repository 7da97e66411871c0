/**
 The digit records behind dlib's big integers, and the loops that add, subtract,
 compare, increment and decrement them in place.  Source and result may be the
 same record.
 */
module Records {
  import opened Arithmetic
  import opened Digits

  const SLACK: nat := 25

  class DataRecord {
    const number: array<Digit>
    var digitsUsed: nat
    var references: nat

    /** A record of `size` digits that represents zero. */
    constructor (size: nat)
      requires size > 0
      ensures Valid() && Canonical(Digits()) && Value() == 0 && Size() == size && references == 1
      ensures digitsUsed == 1 && fresh(number)
    {
      number := new Digit[size](_ => 0);
      references, digitsUsed := 1, 1;
      new;
      ValZeros(Digits());
    }

    /** A copy of `item` with room for `extra` more digits. */
    constructor Copy(item: DataRecord, extra: nat)
      requires item.Valid()
      ensures Valid() && Digits() == item.Digits() && Size() == item.digitsUsed + extra && references == 1
      ensures digitsUsed == item.digitsUsed && fresh(number)
    {
      number := new Digit[item.digitsUsed + extra](i requires 0 <= i reads item,
          item.number => if i < item.digitsUsed && i < item.number.Length then item.number[i] else 0);
      references, digitsUsed := 1, item.digitsUsed;
    }

    function Size(): nat {
      number.Length
    }

    ghost predicate Valid()
      reads this`digitsUsed
    {
      1 <= digitsUsed <= number.Length
    }

    ghost function Digits(): (s: seq<Digit>)
      requires Valid()
      reads this`digitsUsed, number
      ensures |s| == digitsUsed
    {
      number[..digitsUsed]
    }

    ghost function Value(): nat
      requires Valid()
      reads this`digitsUsed, number
    {
      Val(Digits())
    }

    /** No leading zeros: what every operation leaves behind. */
    ghost predicate Canon()
      reads this`digitsUsed, number
    {
      Valid() && Canonical(Digits())
    }
  }

  /** Distinct records have distinct digit arrays. */
  predicate Apart(a: DataRecord, b: DataRecord) {
    a != b ==> a.number != b.number
  }

  // ---------------------------------------------------------------- addition

  function Max(x: nat, y: nat): nat {
    if x < y then y else x
  }

  /** The digits v and the carry c hold the sum of x and y so far. */
  ghost predicate SumSoFar(v: seq<Digit>, c: nat, x: nat, y: nat) {
    Val(v) + c * Pow(|v|) == x + y
  }

  lemma AddStep(v: nat, c: nat, x: nat, y: nat, a: nat, b: nat, p: nat, t: nat)
    requires v + c * p == x + y && t == a + b + c
    ensures (v + (t % 0x1_0000) * p) + (t / 0x1_0000) * (0x1_0000 * p) == (x + a * p) + (y + b * p)
  {
    var q, r := t / 0x1_0000, t % 0x1_0000;
    assert t == q * 0x1_0000 + r;
    assert q * (0x1_0000 * p) == (q * 0x1_0000) * p;
    assert (q * 0x1_0000 + r) * p == (q * 0x1_0000) * p + r * p;
    assert (a + b + c) * p == a * p + b * p + c * p;
  }

  lemma AddDigit(v: seq<Digit>, c: nat, x: nat, y: nat, a: nat, b: nat, t: nat)
    requires SumSoFar(v, c, x, y) && t == a + b + c
    ensures SumSoFar(v + [t % 0x1_0000], t / 0x1_0000, x + a * Pow(|v|), y + b * Pow(|v|))
  {
    ValSnoc(v, t % 0x1_0000);
    AddStep(Val(v), c, x, y, a, b, Pow(|v|), t);
  }

  lemma AddBothDigits(v: seq<Digit>, c: nat, a: seq<Digit>, b: seq<Digit>, t: nat)
    requires |v| < |a| && |v| < |b| && t == a[|v|] + b[|v|] + c
    requires SumSoFar(v, c, Val(a[..|v|]), Val(b[..|v|]))
    ensures SumSoFar(v + [t % 0x1_0000], t / 0x1_0000, Val(a[..|v| + 1]), Val(b[..|v| + 1]))
  {
    ValTake(a, |v|);
    ValTake(b, |v|);
    AddDigit(v, c, Val(a[..|v|]), Val(b[..|v|]), a[|v|], b[|v|], t);
  }

  lemma AddOneDigit(v: seq<Digit>, c: nat, x: nat, b: seq<Digit>, t: nat)
    requires |v| < |b| && t == b[|v|] + c && SumSoFar(v, c, x, Val(b[..|v|]))
    ensures SumSoFar(v + [t % 0x1_0000], t / 0x1_0000, x, Val(b[..|v| + 1]))
  {
    ValTake(b, |v|);
    AddDigit(v, c, x, Val(b[..|v|]), 0, b[|v|], t);
  }

  /** The digits of a sum, once the top carry is in place. */
  lemma SumIsCanonical(s: seq<Digit>, a: seq<Digit>, b: seq<Digit>)
    requires Canonical(a) && Canonical(b) && Val(s) == Val(a) + Val(b)
    requires |s| > 0 && (|s| == Max(|a|, |b|) || s[|s| - 1] != 0)
    ensures Canonical(s)
  {
    if |s| == |a| > 1 {
      CanonicalBound(a);
      CanonicalFromValue(s);
    } else if |s| == |b| > 1 {
      CanonicalBound(b);
      CanonicalFromValue(s);
    }
  }

  /** The carry left after all digits; it is 0 where the result has no room for it. */
  lemma LastCarry(v: seq<Digit>, c: Digit, x: nat, y: nat, room: nat)
    requires SumSoFar(v, c, x, y) && (|v| < room || (|v| == room && x + y < Pow(room)))
    ensures c == 0 ==> Val(v) == x + y
    ensures c != 0 ==> |v| < room && Val(v + [c]) == x + y
  {
    ValSnoc(v, c);
    if c != 0 {
      TimesAtLeast(c, Pow(|v|));
    }
  }

  /** The loop of `long_add` over the digits both numbers have. */
  method AddCommon(minNum: array<Digit>, maxNum: array<Digit>, out: array<Digit>, minUsed: nat) returns (temp: nat)
    requires minUsed <= minNum.Length && minUsed <= maxNum.Length && minUsed <= out.Length
    modifies out
    ensures temp < 0x2_0000
    ensures SumSoFar(out[..minUsed], temp / 0x1_0000, old(Val(minNum[..minUsed])), old(Val(maxNum[..minUsed])))
    ensures forall i :: minUsed <= i < out.Length ==> out[i] == old(out[i])
  {
    ghost var a, b := minNum[..minUsed], maxNum[..minUsed];
    ghost var v: seq<Digit> := [];
    temp := 0;
    var k := 0;
    while k < minUsed
      invariant k <= minUsed && temp < 0x2_0000
      invariant |v| == k && out[..k] == v && SumSoFar(v, temp / 0x1_0000, Val(a[..k]), Val(b[..k]))
      invariant forall i :: k <= i < minUsed ==> minNum[i] == a[i]
      invariant forall i :: k <= i < minUsed ==> maxNum[i] == b[i]
      invariant forall i :: minUsed <= i < out.Length ==> out[i] == old(out[i])
    {
      ghost var carry := temp / 0x1_0000;
      temp := minNum[k] as nat + maxNum[k] + temp / 0x1_0000;
      out[k] := temp % 0x1_0000;
      AddBothDigits(v, carry, a, b, temp);
      v := v + [temp % 0x1_0000];
      k := k + 1;
    }
    assert a[..k] == a && b[..k] == b;
  }

  /** The loop of `long_add` over the digits only the longer number has. */
  method AddRest(maxNum: array<Digit>, out: array<Digit>, minUsed: nat, maxUsed: nat, first: nat, ghost x: nat,
      ghost b: seq<Digit>) returns (temp: nat)
    requires minUsed <= maxUsed == |b| && maxUsed <= maxNum.Length && maxUsed <= out.Length && first < 0x2_0000
    requires SumSoFar(out[..minUsed], first / 0x1_0000, x, Val(b[..minUsed]))
    requires forall i :: minUsed <= i < maxUsed ==> maxNum[i] == b[i]
    modifies out
    ensures temp < 0x2_0000 && SumSoFar(out[..maxUsed], temp / 0x1_0000, x, Val(b))
  {
    temp := first;
    var k := minUsed;
    ghost var v := out[..k];
    while k < maxUsed
      invariant minUsed <= k <= maxUsed && temp < 0x2_0000
      invariant |v| == k && out[..k] == v && SumSoFar(v, temp / 0x1_0000, x, Val(b[..k]))
      invariant forall i :: k <= i < maxUsed ==> maxNum[i] == b[i]
    {
      ghost var carry := temp / 0x1_0000;
      temp := maxNum[k] as nat + temp / 0x1_0000;
      out[k] := temp % 0x1_0000;
      AddOneDigit(v, carry, x, b, temp);
      v := v + [temp % 0x1_0000];
      k := k + 1;
    }
    assert b[..k] == b;
  }

  /** The final carry of an addition. */
  method FinishAdd(result: DataRecord, maxUsed: nat, temp: nat, ghost l: seq<Digit>, ghost r: seq<Digit>)
    requires maxUsed == Max(|l|, |r|) > 0 && maxUsed <= result.Size() && temp < 0x2_0000
    requires SumSoFar(result.number[..maxUsed], temp / 0x1_0000, Val(l), Val(r)) ||
      SumSoFar(result.number[..maxUsed], temp / 0x1_0000, Val(r), Val(l))
    requires maxUsed < result.Size() || Val(l) + Val(r) < Pow(result.Size())
    modifies result`digitsUsed, result.number
    ensures result.Valid() && result.Value() == Val(l) + Val(r)
    ensures Canonical(l) && Canonical(r) ==> result.Canon()
  {
    ghost var v := result.number[..maxUsed];
    assert SumSoFar(v, temp / 0x1_0000, Val(l), Val(r));
    LastCarry(v, temp / 0x1_0000, Val(l), Val(r), result.Size());
    if temp / 0x1_0000 != 0 {
      result.number[maxUsed] := temp / 0x1_0000;
      result.digitsUsed := maxUsed + 1;
      assert result.Digits() == v + [temp / 0x1_0000];
    } else {
      result.digitsUsed := maxUsed;
    }
    if Canonical(l) && Canonical(r) {
      SumIsCanonical(result.Digits(), l, r);
    }
  }

  /** result becomes lhs + rhs; result may be either operand, or both. */
  method LongAdd(lhs: DataRecord, rhs: DataRecord, result: DataRecord)
    requires lhs.Valid() && rhs.Valid() && Apart(lhs, result) && Apart(rhs, result)
    requires Max(lhs.digitsUsed, rhs.digitsUsed) <= result.Size()
    requires Max(lhs.digitsUsed, rhs.digitsUsed) < result.Size() || lhs.Value() + rhs.Value() < Pow(result.Size())
    modifies result`digitsUsed, result.number
    ensures result.Valid() && result.Value() == old(lhs.Value() + rhs.Value())
    ensures old(lhs.Canon() && rhs.Canon()) ==> result.Canon()
  {
    ghost var l, r := lhs.Digits(), rhs.Digits();
    var minNum, maxNum, minUsed, maxUsed := rhs.number, lhs.number, rhs.digitsUsed, lhs.digitsUsed;
    if lhs.digitsUsed < rhs.digitsUsed {
      minNum, maxNum, minUsed, maxUsed := lhs.number, rhs.number, lhs.digitsUsed, rhs.digitsUsed;
    }
    ghost var a, b := minNum[..minUsed], maxNum[..maxUsed];
    assert b[..minUsed] == maxNum[..minUsed];
    var temp := AddCommon(minNum, maxNum, result.number, minUsed);
    temp := AddRest(maxNum, result.number, minUsed, maxUsed, temp, Val(a), b);
    FinishAdd(result, maxUsed, temp, l, r);
  }
}
