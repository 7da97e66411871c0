/**
 Multiplication by shifting and adding, one bit of the shorter operand at a time.
 */
module LongMul {
  import opened Arithmetic
  import opened Digits
  import opened Records
  import opened Shifts

  /** Bitwise and. */
  function And(x: nat, y: nat): nat {
    if x == 0 || y == 0 then 0
    else (if x % 2 == 1 && y % 2 == 1 then 1 else 0) + 2 * And(x / 2, y / 2)
  }

  function Bit(x: nat, i: nat): (b: nat)
    ensures b <= 1
  {
    if i == 0 then x % 2 else Bit(x / 2, i - 1)
  }

  lemma {:induction false} BitOfZero(i: nat)
    ensures Bit(0, i) == 0
  {
    if i > 0 { BitOfZero(i - 1); }
  }

  lemma {:induction false} AndBit(x: nat, i: nat)
    ensures And(x, Pow2(i)) != 0 <==> Bit(x, i) == 1
  {
    if i > 0 {
      AndBit(x / 2, i - 1);
      assert Pow2(i) / 2 == Pow2(i - 1);
      if x == 0 { BitOfZero(i); }
    } else if x > 0 {
      assert And(x / 2, 0) == 0;
    }
  }

  /** The i low bits of x. */
  function LowBits(x: nat, i: nat): nat {
    if i == 0 then 0 else x % 2 + 2 * LowBits(x / 2, i - 1)
  }

  lemma {:induction false} NextBit(x: nat, i: nat)
    ensures LowBits(x, i + 1) == LowBits(x, i) + Bit(x, i) * Pow2(i)
  {
    if i > 0 {
      NextBit(x / 2, i - 1);
      MulAssoc(2, Bit(x / 2, i - 1), Pow2(i - 1));
      MulAssoc(Bit(x / 2, i - 1), 2, Pow2(i - 1));
    }
  }

  lemma {:induction false} AllBits(x: nat, i: nat)
    requires x < Pow2(i)
    ensures LowBits(x, i) == x
  {
    if i > 0 {
      AllBits(x / 2, i - 1);
    }
  }

  lemma {:induction false} LowBitsBelow(x: nat, i: nat)
    ensures LowBits(x, i) <= x
  {
    if i > 0 {
      LowBitsBelow(x / 2, i - 1);
    }
  }

  /** The value of the digits of s below place k together with i bits of digit k. */
  ghost function LowPart(s: seq<Digit>, k: nat, i: nat): nat
    requires k < |s|
  {
    Val(s[..k]) + LowBits(s[k], i) * Pow(k)
  }

  lemma BitTimes(l: nat, b: nat, p: nat, q: nat)
    ensures (l + b * p) * q == l * q + b * (q * p)
  {
    MulAssoc(b, p, q);
    assert p * q == q * p;
  }

  lemma LowPartStep(s: seq<Digit>, k: nat, i: nat)
    requires k < |s|
    ensures LowPart(s, k, i + 1) == LowPart(s, k, i) + Bit(s[k], i) * Pow2(16 * k + i)
  {
    NextBit(s[k], i);
    PowIsPow2(k);
    Pow2Add(16 * k, i);
    BitTimes(LowBits(s[k], i), Bit(s[k], i), Pow2(i), Pow(k));
  }

  lemma LowPartOfDigit(s: seq<Digit>, k: nat)
    requires k < |s|
    ensures LowPart(s, k, 0) == Val(s[..k]) && LowPart(s, k, 16) == Val(s[..k + 1])
  {
    Pow2Of16();
    AllBits(s[k], 16);
    ValTake(s, k);
  }

  lemma {:induction false} ValTakeBelow(s: seq<Digit>, k: nat)
    requires k <= |s|
    ensures Val(s[..k]) <= Val(s)
    decreases |s| - k
  {
    if k < |s| {
      ValTake(s, k);
      ValTakeBelow(s, k + 1);
    } else {
      assert s[..k] == s;
    }
  }

  lemma LowPartBelow(s: seq<Digit>, k: nat, i: nat)
    requires k < |s|
    ensures LowPart(s, k, i) <= Val(s)
  {
    LowBitsBelow(s[k], i);
    MonotoneTimes(LowBits(s[k], i), s[k], Pow(k));
    ValTake(s, k);
    ValTakeBelow(s, k + 1);
  }

  // ------------------------------------------------------ the state of the loops

  /** The shifted operand with its outstanding shift is B shifted by n bits. */
  ghost predicate Aligned(b: nat, shift: nat, B: nat, n: nat) {
    b * Pow2(shift) == B * Pow2(n)
  }

  ghost predicate Product(r: nat, x: nat, y: nat) {
    r == x * y
  }

  lemma AlignedNext(b: nat, shift: nat, B: nat, n: nat)
    requires Aligned(b, shift, B, n)
    ensures Aligned(b, shift + 1, B, n + 1)
  {
    assert b * Pow2(shift + 1) == 2 * (b * Pow2(shift)) by { MulAssoc(2, b, Pow2(shift)); MulAssoc(b, 2, Pow2(shift)); }
    assert B * Pow2(n + 1) == 2 * (B * Pow2(n)) by { MulAssoc(2, B, Pow2(n)); MulAssoc(B, 2, Pow2(n)); }
  }

  lemma AlignedStart(B: nat)
    ensures Aligned(B, 0, B, 0) && Product(0, 0, B)
  {
  }

  /** After the outstanding shift, adding the operand accounts for bit n. */
  lemma AddBit(b: nat, b': nat, shift: nat, B: nat, n: nat, r: nat, low: nat, low': nat)
    requires Aligned(b, shift, B, n) && b' == b * Pow2(shift)
    requires Product(r, low, B) && low' == low + 1 * Pow2(n)
    ensures Aligned(b', 0, B, n) && Product(r + b', low', B)
  {
    assert (low + Pow2(n)) * B == low * B + Pow2(n) * B;
    assert Pow2(n) * B == B * Pow2(n);
  }

  lemma AlignedZero(b: nat, shift: nat, B: nat, n: nat)
    requires Aligned(b, shift, B, n)
    ensures b == 0 <==> B == 0
  {
    if b != 0 { TimesAtLeast(b, Pow2(shift)); }
    if B != 0 { TimesAtLeast(B, Pow2(n)); }
  }

  lemma NonzeroBound(b: seq<Digit>)
    requires Canonical(b) && Val(b) != 0
    ensures Pow(|b| - 1) <= Val(b)
  {
    if |b| == 1 { NonzeroDigit(b); }
    CanonicalBound(b);
  }

  lemma ShiftedBound(b: seq<Digit>, shift: nat)
    requires |b| > 0 && Pow(|b| - 1) <= Val(b)
    ensures Pow2(16 * (|b| - 1) + shift) <= Val(b) * Pow2(shift)
  {
    PowIsPow2(|b| - 1);
    Pow2Add(16 * (|b| - 1), shift);
    MonotoneTimes(Pow(|b| - 1), Val(b), Pow2(shift));
  }

  /** The shifted operand stays within the copy's digits. */
  lemma RoomToShift(b: seq<Digit>, shift: nat, B: nat, n: nat, used: nat, bits: nat)
    requires Canonical(b) && Aligned(Val(b), shift, B, n) && B < Pow(used) && used > 0
    requires n < 16 * bits && (B == 0 ==> shift < 16)
    ensures |b| + shift / 16 <= used + bits
    ensures Val(b) != 0 || shift < 16
  {
    AlignedZero(Val(b), shift, B, n);
    if Val(b) == 0 {
      ValIsZero(b);
    } else {
      NonzeroBound(b);
      var m := 16 * (|b| - 1) + shift;
      if m >= 16 * used + n {
        ShiftedBound(b, shift);
        Pow2Monotone(16 * used + n, m);
        PowIsPow2(used);
        Pow2Add(16 * used, n);
        StrictTimes(B, Pow(used), Pow2(n));
      }
    }
  }

  /** A partial product fits into the digits of the whole product. */
  lemma PartFits(low: nat, a: seq<Digit>, B: nat, r: nat, used: nat, room: nat)
    requires low <= Val(a) && B < Pow(used) && Product(r, low, B) && |a| + used <= room
    ensures r < Pow(room)
  {
    ValBound(a);
    PowAdd(|a|, used);
    PowMonotone(|a| + used, room);
    ProductBelow(low, Pow(|a|) - 1, B, Pow(used));
    StrictTimes(Pow(|a|) - 1, Pow(|a|), Pow(used));
  }

  /** What holds before bit n = 16 * k + i of the shorter operand a is looked at. */
  ghost predicate Multiplying(a: seq<Digit>, B: nat, used: nat, b: DataRecord, result: DataRecord, shift: nat,
      k: nat, i: nat)
    reads b, b.number, result, result.number
  {
    && k < |a| && b != result && b.number != result.number
    && b.Canon() && result.Canon() && b.Size() == used + |a| + SLACK && result.Size() >= used + |a|
    && B < Pow(used) && used > 0 && (B == 0 ==> |a| == 1) && shift <= 16 * k + i
    && Aligned(b.Value(), shift, B, 16 * k + i) && Product(result.Value(), LowPart(a, k, i), B)
  }

  /** The operand and the result have room for one more addition. */
  lemma RoomToAdd(b: seq<Digit>, r: seq<Digit>, sum: nat, room: nat)
    requires Canonical(b) && Canonical(r) && Val(b) + Val(r) == sum && sum < Pow(room) && room > 0
    ensures Max(|b|, |r|) <= room
  {
    FitsIn(b, room);
    FitsIn(r, room);
  }

  /** Adds the shifted operand to the result for a bit that is set. */
  method AddShifted(b: DataRecord, result: DataRecord, shift: nat, ghost a: seq<Digit>, ghost B: nat,
      ghost used: nat, ghost k: nat, ghost i: nat)
    requires Multiplying(a, B, used, b, result, shift, k, i) && i < 16 && Bit(a[k], i) == 1
    modifies b`digitsUsed, b.number, result`digitsUsed, result.number
    ensures b.Canon() && result.Canon()
    ensures Aligned(b.Value(), 0, B, 16 * k + i) && Product(result.Value(), LowPart(a, k, i + 1), B)
  {
    hide Aligned, Product, LowPart;
    RoomToShift(b.Digits(), shift, B, 16 * k + i, used, |a|);
    ghost var before, r := b.Value(), result.Value();
    ShiftLeft(b, b, shift);
    LowPartStep(a, k, i);
    AddBit(before, b.Value(), shift, B, 16 * k + i, r, LowPart(a, k, i), LowPart(a, k, i + 1));
    LowPartBelow(a, k, i + 1);
    PartFits(LowPart(a, k, i + 1), a, B, r + b.Value(), used, result.Size());
    RoomToAdd(b.Digits(), result.Digits(), r + b.Value(), result.Size());
    LongAdd(b, result, result);
  }

  lemma SkipBit(a: seq<Digit>, B: nat, k: nat, i: nat, r: nat)
    requires k < |a| && Bit(a[k], i) == 0 && Product(r, LowPart(a, k, i), B)
    ensures Product(r, LowPart(a, k, i + 1), B)
  {
    LowPartStep(a, k, i);
  }

  /** Bit 15 is the last one a 16-bit mask reaches. */
  lemma NextMask(i: nat)
    requires i < 16
    ensures (Pow2(i) * 2) % 0x1_0000 == if i + 1 < 16 then Pow2(i + 1) else 0
  {
    Pow2Of16();
    if i + 1 < 16 {
      assert Pow2(16) == 2 * Pow2(15);
      Pow2Monotone(i + 1, 15);
    }
  }

  /** The sixteen bits of digit k of the shorter operand, the lowest first. */
  method MulDigit(digit: Digit, b: DataRecord, result: DataRecord, first: nat, ghost a: seq<Digit>,
      ghost B: nat, ghost used: nat, ghost k: nat) returns (shift: nat)
    requires Multiplying(a, B, used, b, result, first, k, 0) && a[k] == digit
    modifies b`digitsUsed, b.number, result`digitsUsed, result.number
    ensures Multiplying(a, B, used, b, result, shift, k, 16)
  {
    hide Aligned, Product, LowPart, Bit, And;
    shift := first;
    var bit := 1;
    for i := 0 to 16
      invariant Multiplying(a, B, used, b, result, shift, k, i)
      invariant bit == if i < 16 then Pow2(i) else 0
    {
      AndBit(digit, i);
      ghost var before := shift;
      if And(digit, bit) != 0 {
        AddShifted(b, result, shift, a, B, used, k, i);
        shift := 0;
      } else {
        SkipBit(a, B, k, i, result.Value());
      }
      AlignedNext(b.Value(), shift, B, 16 * k + i);
      shift := shift + 1;
      NextMask(i);
      bit := (bit * 2) % 0x1_0000;
    }
  }

  /** From digit to digit nothing is lost. */
  lemma NextDigit(a: seq<Digit>, B: nat, used: nat, b: DataRecord, result: DataRecord, shift: nat, k: nat)
    requires Multiplying(a, B, used, b, result, shift, k, 16)
    ensures k + 1 < |a| ==> Multiplying(a, B, used, b, result, shift, k + 1, 0)
    ensures k + 1 == |a| ==> result.Value() == Val(a) * B
  {
    LowPartOfDigit(a, k);
    if k + 1 < |a| {
      LowPartOfDigit(a, k + 1);
    } else {
      assert a[..k + 1] == a;
    }
  }

  lemma FirstDigit(a: seq<Digit>, B: nat, used: nat, b: DataRecord, result: DataRecord)
    requires |a| > 0 && b != result && b.number != result.number
    requires b.Canon() && b.Value() == B && b.Size() == used + |a| + SLACK
    requires result.Canon() && result.Value() == 0 && result.Size() >= used + |a|
    requires B < Pow(used) && used > 0 && (B == 0 ==> |a| == 1)
    ensures Multiplying(a, B, used, b, result, 0, 0, 0)
  {
    AlignedStart(B);
    LowPartOfDigit(a, 0);
    assert a[..0] == [];
  }

  /** Sets a record to zero. */
  method SetZero(result: DataRecord)
    requires result.Valid()
    modifies result`digitsUsed, result.number
    ensures result.Canon() && result.Value() == 0
  {
    result.digitsUsed := 1;
    result.number[0] := 0;
    ValZeros(result.Digits());
  }

  /** The loop over the digits of the shorter operand. */
  method MulLoop(aa: DataRecord, b: DataRecord, result: DataRecord, ghost a: seq<Digit>, ghost B: nat, ghost used: nat)
    requires aa.Valid() && a == aa.Digits() && aa != result && aa != b && aa.number != result.number &&
      aa.number != b.number
    requires Multiplying(a, B, used, b, result, 0, 0, 0)
    modifies b`digitsUsed, b.number, result`digitsUsed, result.number
    ensures result.Canon() && result.Value() == Val(a) * B
  {
    var shift, k := 0, 0;
    while k < aa.digitsUsed
      invariant k <= aa.digitsUsed == |a| && b.Valid() && result.Valid()
      invariant k < |a| ==> Multiplying(a, B, used, b, result, shift, k, 0)
      invariant k == |a| ==> result.Canon() && result.Value() == Val(a) * B
    {
      shift := MulDigit(aa.number[k], b, result, shift, a, B, used, k);
      NextDigit(a, B, used, b, result, shift, k);
      k := k + 1;
    }
  }

  /** result becomes lhs * rhs; both operands may be the same record. */
  method LongMultiply(lhs: DataRecord, rhs: DataRecord, result: DataRecord)
    requires lhs.Canon() && rhs.Canon() && result.Valid()
    requires result != lhs && result != rhs && Apart(lhs, result) && Apart(rhs, result)
    requires lhs.digitsUsed + rhs.digitsUsed <= result.Size()
    modifies result`digitsUsed, result.number
    ensures result.Canon() && result.Value() == old(lhs.Value() * rhs.Value())
  {
    SetZero(result);
    var aa, bb := rhs, lhs;
    if lhs.digitsUsed < rhs.digitsUsed {
      aa, bb := lhs, rhs;
    }
    var b := new DataRecord.Copy(bb, aa.digitsUsed + SLACK);
    ghost var a, B, used := aa.Digits(), bb.Value(), bb.digitsUsed;
    ValBound(bb.Digits());
    if B == 0 { ValIsZero(bb.Digits()); }
    FirstDigit(a, B, used, b, result);
    MulLoop(aa, b, result, a, B, used);
    TimesCommutes(Val(a), B);
  }
}
