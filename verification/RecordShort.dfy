/**
 Operations with one 16-bit operand, and counting up and down by one.
 */
module RecordShort {
  import opened Arithmetic
  import opened Digits
  import opened Records
  import opened RecordSub

  // ---------------------------------------------------------------- addition

  lemma CarryDigit(v: seq<Digit>, c: nat, a: seq<Digit>, y: nat, t: nat)
    requires |v| < |a| && t == a[|v|] + c && SumSoFar(v, c, Val(a[..|v|]), y)
    ensures SumSoFar(v + [t % 0x1_0000], t / 0x1_0000, Val(a[..|v| + 1]), y)
  {
    AddOneDigit(v, c, y, a, t);
  }

  lemma ShortSumIsCanonical(s: seq<Digit>, a: seq<Digit>, value: nat)
    requires Canonical(a) && Val(s) == Val(a) + value
    requires |s| > 0 && (|s| == |a| || s[|s| - 1] != 0)
    ensures Canonical(s)
  {
    if |s| == |a| > 1 {
      CanonicalBound(a);
      CanonicalFromValue(s);
    }
  }

  /** Puts the final carry of an addition in place. */
  method PutCarry(result: DataRecord, used: nat, carry: Digit, ghost x: nat, ghost y: nat)
    requires 0 < used <= result.Size()
    requires SumSoFar(result.number[..used], carry, x, y)
    requires used < result.Size() || x + y < Pow(result.Size())
    modifies result`digitsUsed, result.number
    ensures result.Valid() && result.Value() == x + y
    ensures result.digitsUsed == used || (result.digitsUsed == used + 1 && result.Digits()[used] != 0)
  {
    ghost var v := result.number[..used];
    LastCarry(v, carry, x, y, result.Size());
    if carry != 0 {
      result.number[used] := carry;
      result.digitsUsed := used + 1;
      assert result.Digits() == v + [carry];
    } else {
      result.digitsUsed := used;
    }
  }

  /** result becomes data + value; result may be data. */
  method ShortAdd(data: DataRecord, value: Digit, result: DataRecord)
    requires data.Valid() && Apart(data, result) && data.digitsUsed <= result.Size()
    requires data.digitsUsed < result.Size() || data.Value() + value < Pow(result.Size())
    modifies result`digitsUsed, result.number
    ensures result.Valid() && result.Value() == old(data.Value()) + value
    ensures old(data.Canon()) ==> result.Canon()
  {
    var used := data.digitsUsed;
    ghost var a, v: seq<Digit> := data.Digits(), [];
    var temp: nat := value * 0x1_0000;
    var k := 0;
    while k < used
      invariant k <= used && temp < 0x1_0000_0000
      invariant |v| == k && result.number[..k] == v && SumSoFar(v, temp / 0x1_0000, Val(a[..k]), value)
      invariant forall i :: k <= i < used ==> data.number[i] == a[i]
    {
      ghost var carry := temp / 0x1_0000;
      temp := data.number[k] as nat + temp / 0x1_0000;
      result.number[k] := temp % 0x1_0000;
      CarryDigit(v, carry, a, value, temp);
      v := v + [temp % 0x1_0000];
      k := k + 1;
    }
    assert a[..k] == a;
    PutCarry(result, used, temp / 0x1_0000, Val(a), value);
    if Canonical(a) {
      ShortSumIsCanonical(result.Digits(), a, value);
    }
  }

  /** Copies the digits a carry or borrow did not reach. */
  method CopyRest(source: DataRecord, dest: DataRecord, from: nat, used: nat)
    requires from <= used <= source.Size() && used <= dest.Size() && Apart(source, dest)
    modifies dest.number
    ensures dest.number[..used] == old(dest.number[..from] + source.number[from..used])
  {
    ghost var v, rest := dest.number[..from], source.number[from..used];
    var k := from;
    while k < used
      invariant from <= k <= used && dest.number[..k] == v + rest[..k - from]
      invariant forall i :: k <= i < used ==> source.number[i] == rest[i - from]
    {
      dest.number[k] := source.number[k];
      assert rest[..k + 1 - from] == rest[..k - from] + [rest[k - from]];
      k := k + 1;
    }
    assert rest[..used - from] == rest;
  }

  /** Replacing a prefix changes the value by as much as the prefix changes. */
  lemma NewPrefix(v: seq<Digit>, a: seq<Digit>, k: nat)
    requires k == |v| <= |a|
    ensures Val(v + a[k..]) - Val(a) == Val(v) - Val(a[..k])
  {
    hide Val, Pow;
    ValAppend(v, a[k..]);
    ValAppend(a[..k], a[k..]);
    assert a[..k] + a[k..] == a;
  }

  lemma WrapsAtZero(t: nat)
    requires 0 < t <= 0x1_0000
    ensures t / 0x1_0000 == if t % 0x1_0000 == 0 then 1 else 0
  {
  }

  lemma PlusOne(v: seq<Digit>, a: seq<Digit>)
    requires |v| < |a| && SumSoFar(v, 1, Val(a[..|v|]), 1)
    ensures var d := (a[|v|] as nat + 1) % 0x1_0000;
            SumSoFar(v + [d], if d == 0 then 1 else 0, Val(a[..|v| + 1]), 1)
  {
    CarryDigit(v, 1, a, 1, a[|v|] as nat + 1);
    hide SumSoFar, Val;
    WrapsAtZero(a[|v|] as nat + 1);
  }

  lemma SumWithoutCarry(v: seq<Digit>, x: nat)
    ensures SumSoFar(v, 0, x, 1) <==> Val(v) == x + 1
  {
    hide Val, Pow;
  }

  lemma KeepRest(v: seq<Digit>, a: seq<Digit>, carry: nat)
    requires |v| <= |a| && (carry == 0 || |v| == |a|) && SumSoFar(v, carry, Val(a[..|v|]), 1)
    ensures SumSoFar(v + a[|v|..], carry, Val(a), 1)
  {
    hide Val, Pow;
    if carry == 0 {
      NewPrefix(v, a, |v|);
      hide SumSoFar;
      SumWithoutCarry(v, Val(a[..|v|]));
      SumWithoutCarry(v + a[|v|..], Val(a));
    } else {
      hide SumSoFar;
      assert a[..|v|] == a && v + a[|v|..] == v;
    }
  }

  /** The loop of `increment` while there is a carry. */
  method CarryOver(source: DataRecord, dest: DataRecord, used: nat) returns (k: nat, carry: Digit)
    requires 0 < used <= source.Size() && used <= dest.Size() && Apart(source, dest)
    modifies dest.number
    ensures 0 < k <= used && (carry == 0 || (carry == 1 && k == used))
    ensures SumSoFar(dest.number[..k], carry, old(Val(source.number[..k])), 1)
    ensures forall i :: k <= i < dest.Size() ==> dest.number[i] == old(dest.number[i])
    ensures forall i :: k <= i < used ==> source.number[i] == old(source.number[i])
  {
    ghost var a, v: seq<Digit> := source.number[..used], [];
    k, carry := 0, 1;
    while carry == 1 && k < used
      invariant k <= used && 0 <= carry <= 1 && (k == 0 ==> carry == 1)
      invariant |v| == k && dest.number[..k] == v && SumSoFar(v, carry, Val(a[..k]), 1)
      invariant forall i :: k <= i < used ==> source.number[i] == a[i]
      invariant forall i :: k <= i < dest.Size() ==> dest.number[i] == old(dest.number[i])
    {
      PlusOne(v, a);
      dest.number[k] := (source.number[k] as nat + 1) % 0x1_0000;
      if dest.number[k] != 0 {
        carry := 0;
      }
      v := v + [dest.number[k]];
      k := k + 1;
    }
    assert a[..k] == old(source.number[..k]);
  }

  /** dest becomes source + 1; dest may be source. */
  method Increment(source: DataRecord, dest: DataRecord)
    requires source.Valid() && Apart(source, dest) && source.digitsUsed <= dest.Size()
    requires source.digitsUsed < dest.Size() || source.Value() + 1 < Pow(dest.Size())
    modifies dest`digitsUsed, dest.number
    ensures dest.Valid() && dest.Value() == old(source.Value()) + 1
    ensures old(source.Canon()) ==> dest.Canon()
  {
    var used := source.digitsUsed;
    ghost var a := source.Digits();
    var k, carry := CarryOver(source, dest, used);
    ghost var v := dest.number[..k];
    assert old(source.number[..k]) == a[..k];
    assert source.number[k..used] == a[k..] by {
      assert forall i :: k <= i < used ==> source.number[i] == a[i];
    }
    CopyRest(source, dest, k, used);
    KeepRest(v, a, carry);
    PutCarry(dest, used, carry, Val(a), 1);
    if Canonical(a) {
      ShortSumIsCanonical(dest.Digits(), a, 1);
    }
  }

  // ------------------------------------------------------------- subtraction

  /** Subtracting one digit shortens a canonical number by at most one digit. */
  lemma ShortDifferenceIsCanonical(s: seq<Digit>, a: seq<Digit>, value: Digit)
    requires Canonical(a) && |s| == |a| && Val(s) == Val(a) - value && value <= Val(a)
    ensures s[|s| - 1] != 0 || |s| == 1 ==> Canonical(s)
    ensures s[|s| - 1] == 0 && |s| > 1 ==> Canonical(s[..|s| - 1]) && Val(s[..|s| - 1]) == Val(s)
  {
    if s[|s| - 1] == 0 && |s| > 1 {
      DropTopZero(s);
      CanonicalBound(a);
      if |s| > 2 {
        CanonicalFromValue(s[..|s| - 1]);
      }
    }
  }

  /** Counts the digits left by a subtraction of one digit. */
  method FinishSub(result: DataRecord, used: nat, ghost a: seq<Digit>, ghost value: Digit)
    requires 0 < used == |a| <= result.Size() && Canonical(a) && value <= Val(a)
    requires Val(result.number[..used]) == Val(a) - value
    modifies result`digitsUsed
    ensures result.Canon() && result.Value() == Val(a) - value
  {
    ghost var s := result.number[..used];
    ShortDifferenceIsCanonical(s, a, value);
    if result.number[used - 1] == 0 {
      if used == 1 {
        result.digitsUsed := 1;
      } else {
        result.digitsUsed := used - 1;
        assert result.Digits() == s[..used - 1];
      }
    } else {
      result.digitsUsed := used;
    }
  }

  /** result becomes data - value; result may be data. */
  method ShortSub(data: DataRecord, value: Digit, result: DataRecord)
    requires data.Canon() && Apart(data, result) && data.digitsUsed <= result.Size() && value <= data.Value()
    modifies result`digitsUsed, result.number
    ensures result.Canon() && result.Value() == old(data.Value()) - value
  {
    var used := data.digitsUsed;
    ghost var a := data.Digits();
    var temp := Difference(data.number[0], value, 0);
    SubDigit([], 0, 0, 0, a[0], value);
    ValTake(a, 0);
    result.number[0] := temp % 0x1_0000;
    ghost var v: seq<Digit> := [temp % 0x1_0000];
    assert [] + v == v && Val([]) == 0;
    var k := 1;
    while k < used
      invariant 1 <= k <= used && temp / 0x8000_0000 <= 1
      invariant |v| == k && result.number[..k] == v && DiffSoFar(v, temp / 0x8000_0000, Val(a[..k]), value)
      invariant forall i :: k <= i < used ==> data.number[i] == a[i]
    {
      SubOneDigit(v, temp / 0x8000_0000, a, value);
      temp := Difference(data.number[k], 0, temp / 0x8000_0000);
      result.number[k] := temp % 0x1_0000;
      v := v + [temp % 0x1_0000];
      k := k + 1;
    }
    assert a[..k] == a;
    NoBorrowLeft(v, temp / 0x8000_0000, Val(a), value);
    FinishSub(result, used, a, value);
  }

  lemma MinusOne(v: seq<Digit>, a: seq<Digit>)
    requires |v| < |a| && DiffSoFar(v, 1, Val(a[..|v|]), 1)
    ensures var d := (a[|v|] as int - 1) % 0x1_0000;
            DiffSoFar(v + [d], if d == 0xFFFF then 1 else 0, Val(a[..|v| + 1]), 1)
  {
    SubOneDigit(v, 1, a, 1);
    assert Difference(a[|v|], 0, 1) % 0x1_0000 == (a[|v|] as int - 1) % 0x1_0000;
  }

  lemma PaidBorrow(v: seq<Digit>, x: nat, y: nat)
    requires DiffSoFar(v, 0, x, y)
    ensures Val(v) == x - y
  {
    BorrowTimes(0, Pow(|v|));
  }

  /** The loop of `decrement` while there is a borrow. */
  method BorrowOver(source: DataRecord, dest: DataRecord, used: nat) returns (k: nat)
    requires 0 < used <= source.Size() && used <= dest.Size() && Apart(source, dest)
    requires Val(source.number[..used]) > 0
    modifies dest.number
    ensures 0 < k <= used && Val(dest.number[..k]) == old(Val(source.number[..k])) - 1
    ensures forall i :: k <= i < dest.Size() ==> dest.number[i] == old(dest.number[i])
    ensures forall i :: k <= i < used ==> source.number[i] == old(source.number[i])
  {
    ghost var a, v: seq<Digit> := source.number[..used], [];
    var borrow := 1;
    k := 0;
    assert DiffSoFar(v, 1, Val(a[..0]), 1);
    hide DiffSoFar;
    while borrow == 1 && k < used
      invariant k <= used && 0 <= borrow <= 1 && (k == 0 ==> borrow == 1)
      invariant |v| == k && dest.number[..k] == v && DiffSoFar(v, borrow, Val(a[..k]), 1)
      invariant forall i :: k <= i < used ==> source.number[i] == a[i]
      invariant forall i :: k <= i < dest.Size() ==> dest.number[i] == old(dest.number[i])
    {
      MinusOne(v, a);
      dest.number[k] := (source.number[k] as int - 1) % 0x1_0000;
      if dest.number[k] != 0xFFFF {
        borrow := 0;
      }
      v := v + [dest.number[k]];
      k := k + 1;
    }
    if borrow == 1 {
      assert a[..k] == a;
      NoBorrowLeft(v, borrow, Val(a), 1);
    } else {
      PaidBorrow(v, Val(a[..k]), 1);
    }
    assert a[..k] == old(source.number[..k]);
  }

  /** dest becomes source - 1; dest may be source. */
  method Decrement(source: DataRecord, dest: DataRecord)
    requires source.Canon() && Apart(source, dest) && source.digitsUsed <= dest.Size() && source.Value() > 0
    modifies dest`digitsUsed, dest.number
    ensures dest.Canon() && dest.Value() == old(source.Value()) - 1
  {
    var used := source.digitsUsed;
    ghost var a := source.Digits();
    var k := BorrowOver(source, dest, used);
    ghost var v := dest.number[..k];
    assert old(source.number[..k]) == a[..k];
    assert source.number[k..used] == a[k..] by {
      assert forall i :: k <= i < used ==> source.number[i] == a[i];
    }
    CopyRest(source, dest, k, used);
    NewPrefix(v, a, k);
    FinishSub(dest, used, a, 1);
  }

  // --------------------------------------------------------- multiplication

  /** The digits v and the carry c hold x times value so far. */
  ghost predicate ProductSoFar(v: seq<Digit>, c: nat, x: nat, value: nat) {
    Val(v) + c * Pow(|v|) == x * value
  }

  lemma DistributeTimes(x: int, y: int, p: int)
    ensures (x + y) * p == x * p + y * p
  {
  }

  lemma MulStep(v: nat, c: nat, x: nat, value: nat, a: nat, p: nat, t: nat)
    requires v + c * p == x * value && t == a * value + c
    ensures (v + (t % 0x1_0000) * p) + (t / 0x1_0000) * (0x1_0000 * p) == (x + a * p) * value
  {
    var q, r := t / 0x1_0000, t % 0x1_0000;
    assert q * (0x1_0000 * p) == (q * 0x1_0000) * p;
    assert t * p == (q * 0x1_0000) * p + r * p by { assert t == q * 0x1_0000 + r; DistributeTimes(q * 0x1_0000, r, p); }
    assert t * p == (a * value) * p + c * p by { DistributeTimes(a * value, c, p); }
    assert (a * value) * p == (a * p) * value by { MulAssoc(a, value, p); MulAssoc(a, p, value);
        assert value * p == p * value; }
    DistributeTimes(x, a * p, value);
  }

  lemma ProductDigit(v: seq<Digit>, c: nat, a: seq<Digit>, value: nat, t: nat)
    requires |v| < |a| && t == a[|v|] * value + c && ProductSoFar(v, c, Val(a[..|v|]), value)
    ensures ProductSoFar(v + [t % 0x1_0000], t / 0x1_0000, Val(a[..|v| + 1]), value)
  {
    ValTake(a, |v|);
    ValSnoc(v, t % 0x1_0000);
    MulStep(Val(v), c, Val(a[..|v|]), value, a[|v|], Pow(|v|), t);
  }

  lemma ProductBound(x: nat, y: nat)
    requires x <= 0xFFFF && y <= 0xFFFF
    ensures 0 <= x * y <= 0xFFFE_0001
  {
    MonotoneTimes(x, 0xFFFF, y);
  }

  /** A digit times a digit plus a carry fits into 32 bits. */
  lemma ProductFits(a: Digit, value: Digit, c: Digit)
    ensures 0 <= a * value + c < 0x1_0000_0000
  {
    ProductBound(a, value);
  }

  lemma ProductIsCanonical(s: seq<Digit>, a: seq<Digit>, value: Digit)
    requires Canonical(a) && Val(s) == Val(a) * value && value > 0
    requires |s| > 0 && (|s| == |a| || s[|s| - 1] != 0)
    ensures Canonical(s)
  {
    if |s| == |a| > 1 {
      CanonicalBound(a);
      TimesAtLeast(value, Val(a));
      TimesCommutes(value, Val(a));
      CanonicalFromValue(s);
    }
  }

  lemma LastProductCarry(v: seq<Digit>, c: Digit, x: nat, value: nat, room: nat)
    requires ProductSoFar(v, c, x, value) && (|v| < room || (|v| == room && x * value < Pow(room)))
    ensures c == 0 ==> Val(v) == x * value
    ensures c != 0 ==> |v| < room && Val(v + [c]) == x * value
  {
    ValSnoc(v, c);
    if c != 0 {
      TimesAtLeast(c, Pow(|v|));
    }
  }

  /** The loop of `short_mul`. */
  method MulDigits(data: array<Digit>, value: Digit, out: array<Digit>, used: nat) returns (carry: Digit)
    requires used <= data.Length && used <= out.Length
    modifies out
    ensures ProductSoFar(out[..used], carry, old(Val(data[..used])), value)
  {
    ghost var a, v: seq<Digit> := data[..used], [];
    var temp: nat := 0;
    var k := 0;
    while k < used
      invariant k <= used && temp < 0x1_0000_0000
      invariant |v| == k && out[..k] == v && ProductSoFar(v, temp / 0x1_0000, Val(a[..k]), value)
      invariant forall i :: k <= i < used ==> data[i] == a[i]
    {
      ghost var before := temp / 0x1_0000;
      ProductFits(data[k], value, temp / 0x1_0000);
      temp := data[k] as nat * value + temp / 0x1_0000;
      ProductDigit(v, before, a, value, temp);
      out[k] := temp % 0x1_0000;
      v := v + [temp % 0x1_0000];
      k := k + 1;
    }
    assert a[..k] == a;
    carry := temp / 0x1_0000;
  }

  lemma ZeroProduct(s: seq<Digit>, carry: Digit, used: nat, x: nat)
    requires Val(s) == x * 0 && |s| > 0 && used > 0
    requires |s| == if carry == 0 then used else used + 1
    requires carry != 0 ==> s[|s| - 1] != 0
    ensures carry == 0 && (Canonical(s) <==> used == 1)
  {
    ValIsZero(s);
  }

  /** result becomes data * value; result may be data.  A zero factor keeps the
      digits of data, all zero, so only then can leading zeros appear. */
  method ShortMul(data: DataRecord, value: Digit, result: DataRecord)
    requires data.Valid() && Apart(data, result) && data.digitsUsed <= result.Size()
    requires data.digitsUsed < result.Size() || data.Value() * value < Pow(result.Size())
    modifies result`digitsUsed, result.number
    ensures result.Valid() && result.Value() == old(data.Value()) * value
    ensures old(data.Canon()) ==> (result.Canon() <==> value != 0 || old(data.digitsUsed) == 1)
  {
    var used := data.digitsUsed;
    ghost var a := data.Digits();
    var carry := MulDigits(data.number, value, result.number, used);
    ghost var v := result.number[..used];
    LastProductCarry(v, carry, Val(a), value, result.Size());
    if carry != 0 {
      result.number[used] := carry;
      result.digitsUsed := used + 1;
      assert result.Digits() == v + [carry];
    } else {
      result.digitsUsed := used;
    }
    if Canonical(a) {
      if value == 0 {
        ZeroProduct(result.Digits(), carry, used, Val(a));
      } else {
        ProductIsCanonical(result.Digits(), a, value);
      }
    }
  }

  // --------------------------------------------------------------- division

  lemma DivStep(s: nat, q: nat, r: nat, d: nat, value: nat)
    requires s == q * value + r && r < value
    ensures var t := d + 0x1_0000 * r;
            d + 0x1_0000 * s == (t / value + 0x1_0000 * q) * value + t % value
    ensures d < 0x1_0000 ==> (d + 0x1_0000 * r) / value < 0x1_0000
  {
    var t := d + 0x1_0000 * r;
    var q0, r0 := t / value, t % value;
    assert t == q0 * value + r0;
    DistributeTimes(q0, 0x1_0000 * q, value);
    MulAssoc(0x1_0000, q, value);
    if d < 0x1_0000 && q0 >= 0x1_0000 {
      MonotoneTimes(0x1_0000, q0, value);
    }
  }

  /** The digits of data from k on have been divided: v is their quotient. */
  ghost predicate DividedFrom(s: seq<Digit>, v: seq<Digit>, r: nat, value: nat) {
    |v| == |s| && Val(s) == Val(v) * value + r && r < value
  }

  function Quotient(t: nat, value: nat): nat
    requires value > 0
  {
    t / value
  }

  function Remainder(t: nat, value: nat): nat
    requires value > 0
  {
    t % value
  }

  lemma DivideDigit(s: seq<Digit>, v: seq<Digit>, r: nat, value: nat, d: Digit)
    requires DividedFrom(s, v, r, value)
    ensures var t := d + 0x1_0000 * r;
            Quotient(t, value) < 0x1_0000 && Remainder(t, value) < value &&
            DividedFrom([d] + s, [Quotient(t, value)] + v, Remainder(t, value), value)
  {
    DivStep(Val(s), Val(v), r, d, value);
    assert ([d] + s)[1..] == s;
    var q: Digit := (d + 0x1_0000 * r) / value;
    assert ([q] + v)[1..] == v;
  }

  lemma NothingDivided(value: Digit)
    requires value > 0
    ensures DividedFrom([], [], 0, value)
  {
  }

  /** The loop of `short_div`, from the top digit down. */
  method DivDigits(data: array<Digit>, value: Digit, out: array<Digit>, used: nat) returns (rem: Digit)
    requires used <= data.Length && used <= out.Length && value != 0
    modifies out
    ensures DividedFrom(old(data[..used]), out[..used], rem, value)
  {
    hide Quotient, Remainder, DividedFrom;
    ghost var a, v: seq<Digit> := data[..used], [];
    rem := 0;
    NothingDivided(value);
    assert a[used..] == [];
    var k := used;
    while k > 0
      invariant 0 <= k <= used && |v| == used - k && rem < value
      invariant out[k..used] == v && DividedFrom(a[k..], v, rem, value)
      invariant forall i :: 0 <= i < k ==> data[i] == a[i]
    {
      k := k - 1;
      DivideDigit(a[k + 1..], v, rem, value, a[k]);
      assert a[k..] == [a[k]] + a[k + 1..];
      var temp: nat := data[k] + 0x1_0000 * rem as nat;
      out[k] := Quotient(temp, value);
      rem := Remainder(temp, value);
      v := [Quotient(temp, value)] + v;
    }
    assert a[0..] == a && out[0..used] == out[..used];
  }

  /** The top digit of the quotient is 0 exactly when the top digit divided is below the divisor. */
  lemma TopQuotient(a: nat, q: nat, x: nat, y: nat, r: nat, value: nat, p: nat)
    requires x + a * p == (y + q * p) * value + r && r < value && x < p && y < p
    ensures q == 0 <==> a < value
  {
    if a < value {
      NextMultiple(a, value, p);
      if q > 0 {
        TimesAtLeast(q, p);
        MonotoneTimes(p, y + q * p, value);
        TimesCommutes(p, value);
      }
    } else {
      if q == 0 {
        NextMultiple(y, p, value);
        MonotoneTimes(value, a, p);
        TimesCommutes(p, value);
      }
    }
  }

  lemma TopDigitOfQuotient(a: seq<Digit>, q: seq<Digit>, r: nat, value: Digit)
    requires |a| > 0 && DividedFrom(a, q, r, value)
    ensures q[|a| - 1] == 0 <==> a[|a| - 1] < value
  {
    var top := |a| - 1;
    ValTake(a, top);
    ValTake(q, top);
    assert a[..top + 1] == a && q[..top + 1] == q;
    ValBound(a[..top]);
    ValBound(q[..top]);
    TopQuotient(a[top], q[top], Val(a[..top]), Val(q[..top]), r, value, Pow(top));
  }

  lemma NextQuotient(q: nat, a: nat, r: nat, value: nat, p: nat)
    requires a == q * value + r && r < value < 0x1_0000 && a >= 0x1_0000 * p
    ensures q >= p
  {
    if q < p {
      NextMultiple(q, p, value);
      MonotoneTimes(value, 0x1_0000, p);
      TimesCommutes(p, value);
    }
  }

  lemma QuotientIsLong(a: seq<Digit>, q: seq<Digit>, r: nat, value: Digit)
    requires Canonical(a) && |a| > 2 && DividedFrom(a, q, r, value)
    ensures Pow(|a| - 2) <= Val(q)
  {
    CanonicalBound(a);
    NextQuotient(Val(q), Val(a), r, value, Pow(|a| - 2));
  }

  /** A quotient by one digit has the length the source predicts from the top digit. */
  lemma QuotientIsCanonical(a: seq<Digit>, q: seq<Digit>, r: nat, value: Digit)
    requires Canonical(a) && DividedFrom(a, q, r, value)
    ensures a[|a| - 1] >= value || |a| == 1 ==> Canonical(q)
    ensures a[|a| - 1] < value && |a| > 1 ==> q[|q| - 1] == 0 && Canonical(q[..|q| - 1]) && Val(q[..|q| - 1]) == Val(q)
  {
    assert |q| == |a|;
    TopDigitOfQuotient(a, q, r, value);
    if |a| > 2 {
      QuotientIsLong(a, q, r, value);
    }
    hide DividedFrom;
    if a[|a| - 1] < value && |a| > 1 {
      DropTopZero(q);
      if |a| > 2 {
        CanonicalFromValue(q[..|q| - 1]);
      }
    }
  }

  /** result becomes data / value, rem the remainder; result may be data. */
  method ShortDiv(data: DataRecord, value: Digit, result: DataRecord) returns (rem: Digit)
    requires data.Canon() && Apart(data, result) && data.digitsUsed <= result.Size() && value != 0
    modifies result`digitsUsed, result.number
    ensures result.Canon() && rem < value
    ensures old(data.Value()) == result.Value() * value + rem
  {
    var used, top := data.digitsUsed, data.number[data.digitsUsed - 1];
    ghost var a := data.Digits();
    rem := DivDigits(data.number, value, result.number, used);
    ghost var q := result.number[..used];
    QuotientIsCanonical(a, q, rem, value);
    if top < value {
      if used == 1 {
        result.digitsUsed := 1;
      } else {
        result.digitsUsed := used - 1;
        assert result.Digits() == q[..used - 1];
      }
    } else {
      result.digitsUsed := used;
    }
  }
}
