/**
 Shifting a digit record left by any number of bits and right by one, in place
 or into another record.
 */
module Shifts {
  import opened Arithmetic
  import opened Digits
  import opened Records

  // ------------------------------------------------------------ bits of digits

  /** Bitwise or. */
  function Or(x: nat, y: nat): nat {
    if x == 0 then y
    else if y == 0 then x
    else (if x % 2 == 1 || y % 2 == 1 then 1 else 0) + 2 * Or(x / 2, y / 2)
  }

  lemma OrWithZero(l: nat, a: nat, h: nat)
    requires h < Pow2(a) && (a == 0 || l == 0 || h == 0)
    ensures Or(l * Pow2(a), h) == l * Pow2(a) + h
  {
  }

  /** Numbers without a common bit are or-ed by adding them. */
  lemma {:induction false} OrDisjoint(l: nat, a: nat, h: nat)
    requires h < Pow2(a)
    ensures Or(l * Pow2(a), h) == l * Pow2(a) + h
  {
    if a > 0 && l > 0 && h > 0 {
      var x := l * Pow2(a - 1);
      assert l * Pow2(a) == 2 * x by {
        MulAssoc(2, l, Pow2(a - 1));
        MulAssoc(l, 2, Pow2(a - 1));
      }
      TimesAtLeast(l, Pow2(a));
      OrDisjoint(l, a - 1, h / 2);
    } else {
      OrWithZero(l, a, h);
    }
  }

  /** x << a, cut to 16 bits. */
  function Low(x: Digit, a: nat): Digit {
    (x * Pow2(a)) % 0x1_0000
  }

  lemma HighFits(x: nat, q: nat)
    requires q > 0
    ensures x / q <= x
  {
    if x / q > x {
      assert x == (x / q) * q + x % q;
      TimesAtLeast(q, x / q);
    }
  }

  function ShiftDown(x: Digit, q: nat): Digit
    requires q > 0
  {
    HighFits(x, q);
    x / q
  }

  /** x >> (16 - a): the bits that x << a pushes into the next digit. */
  function High(x: Digit, a: nat): Digit
    requires a <= 16
  {
    ShiftDown(x, Pow2(16 - a))
  }

  lemma SplitProduct(x: nat, h: nat, l: nat, p: nat, q: nat)
    requires x == h * q + l && p * q == 0x1_0000
    ensures x * p == 0x1_0000 * h + l * p
  {
    calc {
      x * p;
      (h * q + l) * p;
      (h * q) * p + l * p;
      { MulAssoc(h, q, p); assert q * p == 0x1_0000; }
      h * 0x1_0000 + l * p;
    }
  }

  lemma RemainderOf(x: nat, h: nat, r: nat)
    requires x == 0x1_0000 * h + r && r < 0x1_0000
    ensures x % 0x1_0000 == r
  {
  }

  lemma BelowQuotient(h: nat, q: nat, l: nat, p: nat)
    requires h * q + l < 0x1_0000 && p * q == 0x1_0000
    ensures h < p
  {
    if h >= p {
      MonotoneTimes(p, h, q);
    }
  }

  lemma SplitBits(x: nat, p: nat, q: nat)
    requires p > 0 && q > 0 && p * q == 0x1_0000 && x < 0x1_0000
    ensures x * p == (x * p) % 0x1_0000 + 0x1_0000 * (x / q)
    ensures (x * p) % 0x1_0000 == (x % q) * p && x / q < p
  {
    var h, l := x / q, x % q;
    assert x == h * q + l;
    SplitProduct(x, h, l, p, q);
    StrictTimes(l, q, p);
    RemainderOf(x * p, h, l * p);
    BelowQuotient(h, q, l, p);
  }

  /** The two parts of a shifted digit are all of it. */
  lemma DigitParts(x: Digit, a: nat)
    requires a <= 16
    ensures x * Pow2(a) == Low(x, a) + 0x1_0000 * High(x, a)
    ensures Low(x, a) == (x % Pow2(16 - a)) * Pow2(a) && High(x, a) < Pow2(a)
    ensures Pow2(a) * Pow2(16 - a) == 0x1_0000
  {
    Pow2Add(a, 16 - a);
    Pow2Of16();
    SplitBits(x, Pow2(a), Pow2(16 - a));
  }

  lemma LowRoom(l: nat, q: nat, p: nat, h: nat)
    requires l < q && h < p && p * q == 0x1_0000
    ensures l * p + h < 0x1_0000
  {
    NextMultiple(l, q, p);
    assert q * p == p * q;
  }

  /** Or-ing the low part of one digit with the high part of another adds them. */
  lemma OrParts(x: Digit, y: Digit, a: nat)
    requires a <= 16
    ensures Or(Low(x, a), High(y, a)) == Low(x, a) + High(y, a) < 0x1_0000
  {
    DigitParts(x, a);
    DigitParts(y, a);
    hide Low, High;
    OrDisjoint(x % Pow2(16 - a), a, High(y, a));
    LowRoom(x % Pow2(16 - a), Pow2(16 - a), Pow2(a), High(y, a));
  }

  // ---------------------------------------------------------------- shift left

  /** Digit i of s << a, for a below a whole digit. */
  function ShiftedDigit(s: seq<Digit>, a: nat, i: nat): Digit
    requires a <= 16 && i <= |s| && |s| > 0
  {
    if i == |s| then High(s[i - 1], a)
    else if i == 0 then Low(s[0], a)
    else (OrParts(s[i], s[i - 1], a); Or(Low(s[i], a), High(s[i - 1], a)))
  }

  function ShiftedDigits(s: seq<Digit>, a: nat, k: nat): (r: seq<Digit>)
    requires a <= 16 && k <= |s| + 1 && |s| > 0
    ensures |r| == k
  {
    seq(k, i requires 0 <= i < k => ShiftedDigit(s, a, i))
  }

  lemma ShiftStep(v: nat, x: nat, c: nat, d: nat, p: nat, w: nat, l: nat, h: nat)
    requires v + c * p == x * w && d * w == l + 0x1_0000 * h
    ensures v + (l + c) * p + h * (0x1_0000 * p) == (x + d * p) * w
  {
    calc {
      (x + d * p) * w;
      x * w + (d * p) * w;
      { assert (d * p) * w == (d * w) * p by { MulAssoc(d, p, w); MulAssoc(d, w, p); assert p * w == w * p; } }
      x * w + (l + 0x1_0000 * h) * p;
      { assert (l + 0x1_0000 * h) * p == l * p + h * (0x1_0000 * p); }
      v + c * p + l * p + h * (0x1_0000 * p);
    }
  }

  /** v holds the digits of s times w, with c still to be carried out of the top. */
  ghost predicate ShiftedOut(v: seq<Digit>, c: nat, s: seq<Digit>, w: nat) {
    |v| == |s| && Val(v) + c * Pow(|v|) == Val(s) * w
  }

  lemma ShiftAppend(v: seq<Digit>, c: nat, s: seq<Digit>, d: Digit, w: nat, l: nat, h: nat)
    requires ShiftedOut(v, c, s, w) && d * w == l + 0x1_0000 * h && l + c < 0x1_0000
    ensures ShiftedOut(v + [l + c], h, s + [d], w)
  {
    ValSnoc(v, l + c);
    ValSnoc(s, d);
    ShiftStep(Val(v), Val(s), c, d, Pow(|v|), w, l, h);
  }

  lemma ShiftAppendDigit(v: seq<Digit>, c: Digit, s: seq<Digit>, d: Digit, a: nat, r: Digit)
    requires a <= 16 && ShiftedOut(v, c, s, Pow2(a)) && r == Low(d, a) + c
    ensures ShiftedOut(v + [r], High(d, a), s + [d], Pow2(a))
  {
    DigitParts(d, a);
    ShiftAppend(v, c, s, d, Pow2(a), Low(d, a), High(d, a));
  }

  /** The k low digits of s << a, with the bits that leave digit k - 1 still to come. */
  lemma {:induction false} ShiftedPrefix(s: seq<Digit>, a: nat, k: nat)
    requires a <= 16 && 0 < k <= |s|
    ensures ShiftedOut(ShiftedDigits(s, a, k), High(s[k - 1], a), s[..k], Pow2(a))
  {
    hide Low, High, Or;
    var v := ShiftedDigits(s, a, k - 1);
    assert ShiftedDigits(s, a, k) == v + [ShiftedDigit(s, a, k - 1)];
    assert s[..k] == s[..k - 1] + [s[k - 1]];
    if k > 1 {
      ShiftedPrefix(s, a, k - 1);
      OrParts(s[k - 1], s[k - 2], a);
      ShiftAppendDigit(v, High(s[k - 2], a), s[..k - 1], s[k - 1], a, ShiftedDigit(s, a, k - 1));
    } else {
      assert s[..0] == [] && v == [];
      ShiftAppendDigit([], 0, [], s[0], a, Low(s[0], a));
    }
  }

  lemma ShiftedValue(s: seq<Digit>, a: nat)
    requires a <= 16 && |s| > 0
    ensures Val(ShiftedDigits(s, a, |s| + 1)) == Val(s) * Pow2(a)
  {
    var v := ShiftedDigits(s, a, |s|);
    assert ShiftedDigits(s, a, |s| + 1) == v + [High(s[|s| - 1], a)];
    ValSnoc(v, High(s[|s| - 1], a));
    ShiftedPrefix(s, a, |s|);
    assert s[..|s|] == s;
  }

  function Zeros(n: nat): seq<Digit> {
    seq(n, _ => 0)
  }

  /** Whole digits of zeros below shift the rest by 16 bits each. */
  lemma ShiftedNumber(s: seq<Digit>, offset: nat, a: nat)
    requires a < 16 && |s| > 0
    ensures Val(Zeros(offset) + ShiftedDigits(s, a, |s| + 1)) == Val(s) * Pow2(16 * offset + a)
  {
    var v := ShiftedDigits(s, a, |s| + 1);
    ShiftedValue(s, a);
    ValZeros(Zeros(offset));
    ValAppend(Zeros(offset), v);
    PowIsPow2(offset);
    Pow2Add(a, 16 * offset);
    MulAssoc(Val(s), Pow2(a), Pow2(16 * offset));
  }

  lemma NonzeroDigit(s: seq<Digit>)
    requires |s| == 1 && Val(s) != 0
    ensures s[0] != 0
  {
  }

  lemma ProductBelow(x: nat, y: nat, p: nat, q: nat)
    requires x <= y && p <= q
    ensures x * p <= y * q
  {
    MonotoneTimes(x, y, p);
    MonotoneTimes(p, q, y);
  }

  /** A shifted canonical number is canonical, but whole zero digits below zero are not. */
  lemma ShiftedIsCanonical(t: seq<Digit>, s: seq<Digit>, offset: nat, w: nat)
    requires Canonical(s) && Val(t) == Val(s) * w && w >= Pow(offset)
    requires |t| == |s| + offset || (|t| == |s| + offset + 1 && t[|t| - 1] != 0)
    ensures Canonical(t) <==> Val(s) != 0 || offset == 0
  {
    if Val(s) == 0 {
      ValIsZero(s);
      ValIsZero(t);
    } else if |t| == |s| + offset {
      if |s| == 1 { NonzeroDigit(s); }
      CanonicalBound(s);
      PowAdd(|s| - 1, offset);
      ProductBelow(Pow(|s| - 1), Val(s), Pow(offset), w);
      CanonicalFromValue(t);
    }
  }

  /** Zeros below the shifted digits. */
  method ZeroFill(out: array<Digit>, offset: nat)
    requires offset <= out.Length
    modifies out
    ensures out[..offset] == Zeros(offset) && out[offset..] == old(out[offset..])
  {
    var r := offset;
    while r > 0
      invariant 0 <= r <= offset && out[offset..] == old(out[offset..])
      invariant forall i :: r <= i < offset ==> out[i] == 0
    {
      r := r - 1;
      out[r] := 0;
    }
  }

  /** The loops of `shift_left`, from the top digit down. */
  method ShiftDigitsLeft(data: array<Digit>, out: array<Digit>, used: nat, offset: nat, a: nat)
    requires 0 < used <= data.Length && used + offset < out.Length && a < 16
    modifies out
    ensures out[..used + offset + 1] == Zeros(offset) + ShiftedDigits(old(data[..used]), a, used + 1)
  {
    hide Low, High, Or;
    ghost var s := data[..used];
    ghost var t := ShiftedDigits(s, a, used + 1);
    out[used + offset] := High(data[used - 1], a);
    var k := used - 1;
    while k > 0
      invariant 0 <= k < used
      invariant forall i :: k < i <= used ==> out[i + offset] == t[i]
      invariant forall i :: 0 <= i <= k ==> data[i] == s[i]
    {
      OrParts(s[k], s[k - 1], a);
      out[k + offset] := Or(Low(data[k], a), High(data[k - 1], a));
      assert out[k + offset] == t[k];
      k := k - 1;
    }
    out[offset] := Low(data[0], a);
    assert forall i :: 0 <= i <= used ==> out[i + offset] == t[i];
    assert out[offset..used + offset + 1] == t;
    ZeroFill(out, offset);
    assert out[..used + offset + 1] == out[..offset] + out[offset..used + offset + 1];
  }

  /** result becomes data << shiftAmount; result may be data. */
  method ShiftLeft(data: DataRecord, result: DataRecord, shiftAmount: nat)
    requires data.Valid() && Apart(data, result) && data.digitsUsed + shiftAmount / 16 < result.Size()
    modifies result`digitsUsed, result.number
    ensures result.Valid() && result.Value() == old(data.Value()) * Pow2(shiftAmount)
    ensures old(data.Canon()) ==> (result.Canon() <==> old(data.Value()) != 0 || shiftAmount < 16)
  {
    hide ShiftedDigit, ShiftedDigits, Zeros;
    var offset, a, used := shiftAmount / 16, shiftAmount % 16, data.digitsUsed;
    ghost var s := data.Digits();
    ShiftDigitsLeft(data.number, result.number, used, offset, a);
    ghost var t := result.number[..used + offset + 1];
    assert t == Zeros(offset) + ShiftedDigits(s, a, used + 1);
    ShiftedNumber(s, offset, a);
    if result.number[used + offset] == 0 {
      result.digitsUsed := used + offset;
      DropTopZero(t);
      assert result.Digits() == t[..|t| - 1];
    } else {
      result.digitsUsed := used + offset + 1;
    }
    if Canonical(s) {
      PowIsPow2(offset);
      Pow2Monotone(16 * offset, shiftAmount);
      ShiftedIsCanonical(result.Digits(), s, offset, Pow2(shiftAmount));
    }
  }

  // --------------------------------------------------------------- shift right

  /** x << 15, cut to 16 bits: the lowest bit of x on its way into the digit below. */
  function LowestBit(x: Digit): Digit {
    (x * 0x8000) % 0x1_0000
  }

  lemma OrLowestBit(x: Digit, y: Digit)
    ensures Or(LowestBit(y), x / 2) == (y % 2) * 0x8000 + x / 2 < 0x1_0000
  {
    assert Pow2(4) == 16;
    Pow2Add(4, 4);
    Pow2Add(8, 4);
    assert Pow2(15) == 8 * Pow2(12);
    assert (y * 0x8000) % 0x1_0000 == (y % 2) * 0x8000;
    OrDisjoint(y % 2, 15, x / 2);
  }

  /** The digits from k on have been halved: v is their half. */
  ghost predicate HalvedFrom(s: seq<Digit>, v: seq<Digit>) {
    |v| == |s| && Val(v) == Val(s) / 2
  }

  lemma HalveDigit(x: Digit, s: seq<Digit>, v: seq<Digit>)
    requires HalvedFrom(s, v)
    ensures var d := (if s == [] then 0 else (s[0] % 2) * 0x8000) + x / 2;
            d < 0x1_0000 && HalvedFrom([x] + s, [d] + v)
  {
    assert ([x] + s)[1..] == s;
    var d: Digit := (if s == [] then 0 else (s[0] % 2) * 0x8000) + x / 2;
    assert ([d] + v)[1..] == v;
    if s != [] {
      assert Val(s) % 2 == s[0] % 2;
    }
  }

  /** Half of a digit string, digit by digit. */
  function HalfDigit(s: seq<Digit>, i: nat): Digit
    requires i < |s|
  {
    if i + 1 < |s| then (OrLowestBit(s[i], s[i + 1]); Or(LowestBit(s[i + 1]), s[i] / 2)) else s[i] / 2
  }

  function HalfDigits(s: seq<Digit>): (v: seq<Digit>)
    ensures |v| == |s|
  {
    seq(|s|, i requires 0 <= i < |s| => HalfDigit(s, i))
  }

  lemma {:induction false} HalfValue(s: seq<Digit>)
    ensures Val(HalfDigits(s)) == Val(s) / 2
  {
    if s != [] {
      HalfValue(s[1..]);
      HalveDigit(s[0], s[1..], HalfDigits(s[1..]));
      assert s == [s[0]] + s[1..];
      if |s| > 1 { OrLowestBit(s[0], s[1]); }
      assert forall i :: 0 <= i < |s| - 1 ==> HalfDigit(s[1..], i) == HalfDigit(s, i + 1);
      assert HalfDigits(s) == [HalfDigit(s, 0)] + HalfDigits(s[1..]);
    }
  }

  /** Halving shortens a canonical number by at most one digit. */
  lemma HalfIsCanonical(s: seq<Digit>, v: seq<Digit>)
    requires Canonical(s) && |v| == |s| && Val(v) == Val(s) / 2
    ensures v[|v| - 1] != 0 || |v| == 1 ==> Canonical(v)
    ensures v[|v| - 1] == 0 && |v| > 1 ==> Canonical(v[..|v| - 1]) && Val(v[..|v| - 1]) == Val(v)
  {
    if v[|v| - 1] == 0 && |v| > 1 {
      DropTopZero(v);
      CanonicalBound(s);
      if |v| > 2 {
        CanonicalFromValue(v[..|v| - 1]);
      }
    }
  }

  /** The loop of `shift_right`. */
  method HalveDigits(data: array<Digit>, out: array<Digit>, used: nat)
    requires 0 < used <= data.Length && used <= out.Length
    modifies out
    ensures out[..used] == HalfDigits(old(data[..used]))
  {
    hide Or, LowestBit;
    ghost var s := data[..used];
    var k := 0;
    while k < used - 1
      invariant 0 <= k < used
      invariant forall i :: 0 <= i < k ==> out[i] == HalfDigit(s, i)
      invariant forall i :: k <= i < used ==> data[i] == s[i]
    {
      OrLowestBit(s[k], s[k + 1]);
      out[k] := Or(LowestBit(data[k + 1]), data[k] / 2);
      k := k + 1;
    }
    out[k] := data[k] / 2;
  }

  /** result becomes data >> 1; result may be data. */
  method ShiftRight(data: DataRecord, result: DataRecord)
    requires data.Canon() && Apart(data, result) && data.digitsUsed <= result.Size()
    modifies result`digitsUsed, result.number
    ensures result.Canon() && result.Value() == old(data.Value()) / 2
  {
    var used := data.digitsUsed;
    ghost var s := data.Digits();
    HalveDigits(data.number, result.number, used);
    ghost var v := result.number[..used];
    HalfValue(s);
    HalfIsCanonical(s, v);
    if result.number[used - 1] == 0 {
      if used != 1 {
        result.digitsUsed := used - 1;
        assert result.Digits() == v[..used - 1];
      } else {
        result.digitsUsed := 1;
      }
    } else {
      result.digitsUsed := used;
    }
  }
}
