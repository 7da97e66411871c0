/**
 Division by shifting and subtracting: the divisor is aligned with the dividend,
 then brought back one bit at a time.
 */
module LongDiv {
  import opened Arithmetic
  import opened Digits
  import opened Records
  import opened RecordSub
  import opened RecordShort
  import opened Shifts
  import opened LongMul

  /** t is the divisor y shifted left by n bits. */
  ghost predicate ShiftedBy(t: nat, y: nat, n: nat) {
    t == y * Pow2(n)
  }

  lemma ShiftedMore(t: nat, y: nat, n: nat)
    requires ShiftedBy(t, y, n)
    ensures ShiftedBy(t * Pow2(1), y, n + 1) && t * Pow2(1) == 2 * t
  {
    assert Pow2(1) == 2;
    MulAssoc(2, y, Pow2(n));
    MulAssoc(y, 2, Pow2(n));
  }

  lemma ShiftedLess(t: nat, y: nat, n: nat)
    requires ShiftedBy(t, y, n) && n > 0
    ensures ShiftedBy(t / 2, y, n - 1) && t == 2 * (t / 2)
  {
    MulAssoc(2, y, Pow2(n - 1));
    MulAssoc(y, 2, Pow2(n - 1));
    assert t == 2 * (y * Pow2(n - 1));
  }

  lemma UnshiftedIs(t: nat, y: nat)
    requires ShiftedBy(t, y, 0)
    ensures t == y
  {
  }

  /** In units of y shifted by n bits, x is q and a remainder r. */
  ghost predicate Divided(x: nat, q: nat, r: nat, y: nat, n: nat) {
    x == q * (y * Pow2(n)) + r && r < y * Pow2(n)
  }

  /** One bit of the quotient: the divisor fits into the remainder or not. */
  lemma DividedNext(x: nat, q: nat, r: nat, y: nat, n: nat, t: nat)
    requires Divided(x, q, r, y, n) && n > 0 && ShiftedBy(t, y, n - 1)
    ensures r < t ==> Divided(x, 2 * q, r, y, n - 1)
    ensures t <= r ==> Divided(x, 2 * q + 1, r - t, y, n - 1)
  {
    assert y * Pow2(n) == 2 * t by {
      MulAssoc(2, y, Pow2(n - 1));
      MulAssoc(y, 2, Pow2(n - 1));
    }
    assert q * (2 * t) == (2 * q) * t by { MulAssoc(q, 2, t); }
    assert (2 * q + 1) * t == (2 * q) * t + t;
  }

  lemma DividedStart(x: nat, y: nat, n: nat, t: nat)
    requires ShiftedBy(t, y, n) && x < 2 * t
    ensures Divided(x, 0, x, y, n + 1)
  {
    ShiftedMore(t, y, n);
  }

  lemma DividedEnd(x: nat, q: nat, r: nat, y: nat)
    requires Divided(x, q, r, y, 0)
    ensures x == q * y + r && r < y
  {
  }

  /** The quotient never exceeds the dividend. */
  lemma QuotientBelow(x: nat, q: nat, r: nat, y: nat, n: nat)
    requires Divided(x, q, r, y, n) && y > 0
    ensures q <= x && r <= x
  {
    var t := y * Pow2(n);
    TimesAtLeast(y, Pow2(n));
    TimesAtLeast(t, q);
    TimesCommutes(t, q);
  }

  /** A canonical value not above x has at most as many digits as x. */
  lemma NotLonger(s: seq<Digit>, t: seq<Digit>)
    requires Canonical(s) && |t| > 0 && Val(s) <= Val(t)
    ensures |s| <= |t|
  {
    if |t| < |s| { LongerIsLarger(t, s); }
  }

  // ----------------------------------------------------------------- alignment

  lemma ShiftedDefinition(y: nat, n: nat)
    ensures ShiftedBy(y * Pow2(n), y, n)
    ensures y > 0 ==> y * Pow2(n) > 0
  {
    if y > 0 { TimesAtLeast(y, Pow2(n)); }
  }

  /** while (temp < lhs) shift left. */
  method RaiseAbove(lhs: DataRecord, temp: DataRecord, first: nat, ghost y: nat) returns (shifts: nat)
    requires lhs.Canon() && temp.Canon() && temp != lhs && Apart(temp, lhs) && temp.Size() == lhs.digitsUsed + SLACK
    requires ShiftedBy(temp.Value(), y, first) && temp.Value() > 0
    modifies temp`digitsUsed, temp.number
    ensures temp.Canon() && ShiftedBy(temp.Value(), y, shifts) && temp.Value() >= lhs.Value()
    ensures temp.Value() == old(temp.Value()) || temp.Value() < 2 * lhs.Value()
  {
    hide ShiftedBy;
    shifts := first;
    var less := IsLessThan(temp, lhs);
    while less
      invariant temp.Canon() && ShiftedBy(temp.Value(), y, shifts) && temp.Value() > 0
      invariant less <==> temp.Value() < lhs.Value()
      invariant temp.Value() == old(temp.Value()) || temp.Value() < 2 * lhs.Value()
      decreases lhs.Value() - temp.Value() + if less then 1 else 0
    {
      NotLonger(temp.Digits(), lhs.Digits());
      ShiftedMore(temp.Value(), y, shifts);
      ShiftLeft(temp, temp, 1);
      shifts := shifts + 1;
      less := IsLessThan(temp, lhs);
    }
  }

  /** while (lhs < temp) shift right. */
  method LowerBelow(lhs: DataRecord, temp: DataRecord, first: nat, ghost y: nat) returns (shifts: nat)
    requires lhs.Canon() && temp.Canon() && temp != lhs && Apart(temp, lhs)
    requires ShiftedBy(temp.Value(), y, first) && 0 < y <= lhs.Value() <= temp.Value()
    modifies temp`digitsUsed, temp.number
    ensures temp.Canon() && ShiftedBy(temp.Value(), y, shifts)
    ensures temp.Value() <= lhs.Value() < 2 * temp.Value()
  {
    hide ShiftedBy;
    shifts := first;
    var more := IsLessThan(lhs, temp);
    while more
      invariant temp.Canon() && ShiftedBy(temp.Value(), y, shifts)
      invariant more <==> lhs.Value() < temp.Value()
      invariant lhs.Value() < 2 * temp.Value()
      decreases temp.Value()
    {
      if shifts == 0 {
        UnshiftedIs(temp.Value(), y);
      }
      ShiftedLess(temp.Value(), y, shifts);
      ShiftRight(temp, temp);
      shifts := shifts - 1;
      more := IsLessThan(lhs, temp);
    }
  }

  /** Shifts the divisor up to the dividend and back down below it; afterwards one
      more bit would be too much. */
  method Align(lhs: DataRecord, rhs: DataRecord, temp: DataRecord) returns (shifts: nat)
    requires lhs.Canon() && rhs.Canon() && 0 < rhs.Value() <= lhs.Value()
    requires temp.Valid() && temp != lhs && temp != rhs && Apart(temp, lhs) && Apart(temp, rhs)
    requires temp.Size() == lhs.digitsUsed + SLACK
    modifies temp`digitsUsed, temp.number
    ensures temp.Canon() && ShiftedBy(temp.Value(), rhs.Value(), shifts)
    ensures temp.Value() <= lhs.Value() < 2 * temp.Value()
  {
    hide ShiftedBy;
    NotLonger(rhs.Digits(), lhs.Digits());
    shifts := (lhs.digitsUsed - rhs.digitsUsed) * 16;
    ShiftLeft(rhs, temp, shifts);
    ShiftedDefinition(rhs.Value(), shifts);
    shifts := RaiseAbove(lhs, temp, shifts, rhs.Value());
    shifts := LowerBelow(lhs, temp, shifts, rhs.Value());
  }

  // ------------------------------------------------------------ the subtract loop

  /** Adds one to the result in place. */
  method BumpResult(result: DataRecord)
    requires result.Canon() && result.digitsUsed < result.Size()
    modifies result`digitsUsed, result.number
    ensures result.Canon() && result.Value() == old(result.Value()) + 1
  {
    var used := result.digitsUsed;
    ghost var a := result.Digits();
    var k, carry := CarryOver(result, result, used);
    ghost var v := result.number[..k];
    assert old(result.number[..k]) == a[..k];
    assert result.number[..used] == v + a[k..];
    KeepRest(v, a, carry);
    PutCarry(result, used, carry, Val(a), 1);
    ShortSumIsCanonical(result.Digits(), a, 1);
  }

  /** What holds while `shifts` more bits of the quotient are to be found. */
  ghost predicate Dividing(x: seq<Digit>, y: nat, result: DataRecord, remainder: DataRecord, temp: DataRecord,
      shifts: nat)
    reads result, result.number, remainder, remainder.number, temp, temp.number
  {
    && |x| > 0 && result != remainder && result != temp && remainder != temp
    && result.number != remainder.number && result.number != temp.number && remainder.number != temp.number
    && result.Canon() && remainder.Canon() && temp.Canon() && result.Size() > |x| && y > 0
    && Divided(Val(x), result.Value(), remainder.Value(), y, shifts)
    && (shifts > 0 ==> ShiftedBy(temp.Value(), y, shifts - 1))
  }

  /** Takes the aligned divisor off the remainder if it fits, and counts it. */
  method SubtractOnce(result: DataRecord, remainder: DataRecord, temp: DataRecord, ghost x: seq<Digit>)
    requires result.Canon() && remainder.Canon() && temp.Canon()
    requires result != remainder && result != temp && remainder != temp
    requires result.number != remainder.number && result.number != temp.number && remainder.number != temp.number
    requires |x| > 0 && result.Size() > |x|
    requires result.Value() <= Val(x)
    modifies result`digitsUsed, result.number, remainder`digitsUsed, remainder.number
    ensures result.Canon() && remainder.Canon()
    ensures if old(remainder.Value() < temp.Value()) then result.Value() == old(result.Value()) &&
      remainder.Value() == old(remainder.Value())
            else result.Value() == old(result.Value()) + 1 && remainder.Value() == old(remainder.Value() - temp.Value())
  {
    hide Val, Canonical;
    var less := IsLessThan(remainder, temp);
    if !less {
      NotLonger(temp.Digits(), remainder.Digits());
      LongSub(remainder, temp, remainder);
      NotLonger(result.Digits(), x);
      BumpResult(result);
    }
  }

  lemma DoubledBelow(x: nat, q: nat, r: nat, y: nat, n: nat, t: nat)
    requires Divided(x, q, r, y, n) && n > 0 && ShiftedBy(t, y, n - 1) && y > 0
    ensures 2 * q <= x && q * Pow2(1) == 2 * q
  {
    DividedNext(x, q, r, y, n, t);
    if r < t {
      QuotientBelow(x, 2 * q, r, y, n - 1);
    } else {
      QuotientBelow(x, 2 * q + 1, r - t, y, n - 1);
    }
    assert Pow2(1) == 2;
  }

  /** One bit of the quotient. */
  method DivideBit(result: DataRecord, remainder: DataRecord, temp: DataRecord, ghost x: seq<Digit>,
      ghost y: nat, ghost shifts: nat)
    requires Dividing(x, y, result, remainder, temp, shifts) && shifts > 0
    modifies result`digitsUsed, result.number, remainder`digitsUsed, remainder.number, temp`digitsUsed, temp.number
    ensures Dividing(x, y, result, remainder, temp, shifts - 1)
  {
    hide Divided, ShiftedBy, Val, Canonical, Pow2;
    ghost var q, r, t := result.Value(), remainder.Value(), temp.Value();
    QuotientBelow(Val(x), q, r, y, shifts);
    NotLonger(result.Digits(), x);
    DividedNext(Val(x), q, r, y, shifts, t);
    DoubledBelow(Val(x), q, r, y, shifts, t);
    ShiftLeft(result, result, 1);
    SubtractOnce(result, remainder, temp, x);
    if shifts > 1 {
      ShiftedLess(t, y, shifts - 1);
    }
    ShiftRight(temp, temp);
  }

  /** Copies the dividend into the remainder. */
  method CopyDigits(lhs: DataRecord, remainder: DataRecord)
    requires lhs.Valid() && lhs != remainder && Apart(lhs, remainder) && lhs.digitsUsed <= remainder.Size()
    modifies remainder`digitsUsed, remainder.number
    ensures remainder.Valid() && remainder.Digits() == lhs.Digits()
  {
    remainder.digitsUsed := lhs.digitsUsed;
    var k := 0;
    while k < remainder.digitsUsed
      invariant k <= remainder.digitsUsed == lhs.digitsUsed <= remainder.Size()
      invariant remainder.number[..k] == lhs.number[..k]
    {
      remainder.number[k] := lhs.number[k];
      k := k + 1;
    }
  }

  method DivideLoop(result: DataRecord, remainder: DataRecord, temp: DataRecord, first: nat,
      ghost x: seq<Digit>, ghost y: nat)
    requires Dividing(x, y, result, remainder, temp, first)
    modifies result`digitsUsed, result.number, remainder`digitsUsed, remainder.number, temp`digitsUsed, temp.number
    ensures result.Canon() && remainder.Canon()
    ensures Val(x) == result.Value() * y + remainder.Value() && remainder.Value() < y
  {
    var shifts := first;
    while shifts != 0
      invariant Dividing(x, y, result, remainder, temp, shifts)
    {
      DivideBit(result, remainder, temp, x, y, shifts);
      shifts := shifts - 1;
    }
    DividedEnd(Val(x), result.Value(), remainder.Value(), y);
  }

  /** result becomes lhs / rhs and remainder lhs % rhs; lhs and rhs may be the same record. */
  method LongDivide(lhs: DataRecord, rhs: DataRecord, result: DataRecord, remainder: DataRecord)
    requires lhs.Canon() && rhs.Canon() && rhs.Value() > 0 && result.Valid() && remainder.Valid()
    requires result != lhs && result != rhs && remainder != lhs && remainder != rhs && result != remainder
    requires Apart(result, lhs) && Apart(result, rhs) && Apart(remainder, lhs) && Apart(remainder, rhs) &&
      Apart(result, remainder)
    requires lhs.digitsUsed < result.Size() && lhs.digitsUsed <= remainder.Size()
    modifies result`digitsUsed, result.number, remainder`digitsUsed, remainder.number
    ensures result.Canon() && remainder.Canon()
    ensures lhs.Value() == result.Value() * rhs.Value() + remainder.Value() && remainder.Value() < rhs.Value()
  {
    hide Divided, ShiftedBy, Canonical, Val;
    SetZero(result);
    CopyDigits(lhs, remainder);
    var less := IsLessThan(lhs, rhs);
    if less {
      return;
    }
    var temp := new DataRecord(lhs.digitsUsed + SLACK);
    var shifts := Align(lhs, rhs, temp);
    ghost var x, y := lhs.Digits(), rhs.Value();
    DividedStart(Val(x), y, shifts, temp.Value());
    DivideLoop(result, remainder, temp, shifts + 1, x, y);
  }
}
