/**
 Numbers as little-endian strings of 16-bit digits.
 */
module Digits {
  import opened Arithmetic

  const BASE: nat := 0x1_0000

  type Digit = x: nat | x < 0x1_0000

  /** BASE to the k. */
  function Pow(k: nat): (p: nat)
    ensures p > 0
  {
    if k == 0 then 1 else 0x1_0000 * Pow(k - 1)
  }

  function Pow2(k: nat): (p: nat)
    ensures p > 0
  {
    if k == 0 then 1 else 2 * Pow2(k - 1)
  }

  function Val(s: seq<Digit>): nat {
    if s == [] then 0 else s[0] + 0x1_0000 * Val(s[1..])
  }

  /** No leading zero digit, and at least one digit. */
  predicate Canonical(s: seq<Digit>) {
    |s| > 0 && (|s| > 1 ==> s[|s| - 1] != 0)
  }

  lemma {:induction false} PowAdd(j: nat, k: nat)
    ensures Pow(j + k) == Pow(j) * Pow(k)
  {
    if j > 0 {
      PowAdd(j - 1, k);
      assert j + k - 1 == (j - 1) + k;
      MulAssoc(0x1_0000, Pow(j - 1), Pow(k));
    }
  }

  lemma {:induction false} Pow2Add(j: nat, k: nat)
    ensures Pow2(j + k) == Pow2(j) * Pow2(k)
  {
    if j > 0 {
      Pow2Add(j - 1, k);
      assert j + k - 1 == (j - 1) + k;
      MulAssoc(2, Pow2(j - 1), Pow2(k));
    }
  }

  lemma Pow2Of16()
    ensures Pow2(16) == 0x1_0000
  {
    assert Pow2(4) == 16;
    Pow2Add(4, 4);
    Pow2Add(8, 8);
  }

  lemma {:induction false} PowIsPow2(k: nat)
    ensures Pow(k) == Pow2(16 * k)
  {
    if k > 0 {
      PowIsPow2(k - 1);
      Pow2Of16();
      Pow2Add(16, 16 * (k - 1));
      assert 16 * k == 16 + 16 * (k - 1);
    }
  }

  lemma {:induction false} PowMonotone(j: nat, k: nat)
    requires j <= k
    ensures Pow(j) <= Pow(k)
    decreases k
  {
    if j < k {
      PowMonotone(j, k - 1);
    }
  }

  lemma {:induction false} Pow2Monotone(j: nat, k: nat)
    requires j <= k
    ensures Pow2(j) <= Pow2(k)
    decreases k
  {
    if j < k {
      Pow2Monotone(j, k - 1);
    }
  }

  // ------------------------------------------------------------------- values

  lemma {:induction false} ValSnoc(s: seq<Digit>, d: Digit)
    ensures Val(s + [d]) == Val(s) + d * Pow(|s|)
  {
    if s == [] {
      assert (s + [d])[1..] == [];
    } else {
      assert (s + [d])[1..] == s[1..] + [d];
      ValSnoc(s[1..], d);
      MulAssoc(d, Pow(|s| - 1), 0x1_0000);
      assert d * Pow(|s|) == 0x1_0000 * (d * Pow(|s| - 1)) by {
        MulAssoc(0x1_0000, d, Pow(|s| - 1));
        MulAssoc(d, 0x1_0000, Pow(|s| - 1));
      }
    }
  }

  /** The value of a prefix, one digit longer. */
  lemma ValTake(s: seq<Digit>, k: nat)
    requires k < |s|
    ensures Val(s[..k + 1]) == Val(s[..k]) + s[k] * Pow(k)
  {
    assert s[..k + 1] == s[..k] + [s[k]];
    ValSnoc(s[..k], s[k]);
  }

  lemma {:induction false} ValBound(s: seq<Digit>)
    ensures Val(s) < Pow(|s|)
  {
    if s != [] {
      ValBound(s[1..]);
    }
  }

  lemma {:induction false} ValAppend(s: seq<Digit>, t: seq<Digit>)
    ensures Val(s + t) == Val(s) + Val(t) * Pow(|s|)
  {
    if s == [] {
      assert s + t == t;
    } else {
      assert (s + t)[1..] == s[1..] + t;
      ValAppend(s[1..], t);
      assert Val(t) * Pow(|s|) == 0x1_0000 * (Val(t) * Pow(|s| - 1)) by {
        MulAssoc(0x1_0000, Val(t), Pow(|s| - 1));
        MulAssoc(Val(t), 0x1_0000, Pow(|s| - 1));
      }
    }
  }

  /** A canonical string of k + 1 digits, other than zero itself, stands for at least Pow(k). */
  lemma CanonicalBound(s: seq<Digit>)
    requires Canonical(s) && (|s| > 1 || s[0] != 0)
    ensures Pow(|s| - 1) <= Val(s) < Pow(|s|)
  {
    ValBound(s);
    var k := |s| - 1;
    ValTake(s, k);
    assert s[..k + 1] == s;
    TimesAtLeast(s[k], Pow(k));
  }

  /** A string is canonical if its value needs all its digits. */
  lemma CanonicalFromValue(s: seq<Digit>)
    requires |s| > 0 && (|s| > 1 ==> Pow(|s| - 1) <= Val(s))
    ensures Canonical(s)
  {
    if |s| > 1 {
      ValTake(s, |s| - 1);
      assert s[..|s|] == s;
      ValBound(s[..|s| - 1]);
    }
  }

  /** A leading zero can be dropped. */
  lemma DropTopZero(s: seq<Digit>)
    requires |s| > 0 && s[|s| - 1] == 0
    ensures Val(s[..|s| - 1]) == Val(s)
  {
    ValTake(s, |s| - 1);
    assert s[..|s|] == s;
  }

  /** More digits make a larger canonical number. */
  lemma LongerIsLarger(s: seq<Digit>, t: seq<Digit>)
    requires 0 < |s| < |t| && Canonical(t)
    ensures Val(s) < Val(t)
  {
    ValBound(s);
    CanonicalBound(t);
    PowMonotone(|s|, |t| - 1);
  }

  /** A value below Pow(k) has a canonical string of at most k digits. */
  lemma FitsIn(s: seq<Digit>, k: nat)
    requires Canonical(s) && k > 0 && Val(s) < Pow(k)
    ensures |s| <= k
  {
    if |s| > k {
      CanonicalBound(s);
      PowMonotone(k, |s| - 1);
    }
  }

  lemma {:induction false} ValZeros(s: seq<Digit>)
    requires forall i :: 0 <= i < |s| ==> s[i] == 0
    ensures Val(s) == 0
  {
    if s != [] {
      ValZeros(s[1..]);
    }
  }

  lemma {:induction false} ValIsZero(s: seq<Digit>)
    requires Val(s) == 0
    ensures forall i :: 0 <= i < |s| ==> s[i] == 0
  {
    if s != [] {
      ValIsZero(s[1..]);
    }
  }

  /** Strings of equal length that agree above position k compare by digit k. */
  lemma CompareAt(s: seq<Digit>, t: seq<Digit>, k: nat)
    requires |s| == |t| && k < |s| && s[k + 1..] == t[k + 1..] && s[k] < t[k]
    ensures Val(s) < Val(t)
  {
    ValTake(s, k);
    ValTake(t, k);
    ValBound(s[..k]);
    assert s == s[..k + 1] + s[k + 1..] && t == t[..k + 1] + t[k + 1..];
    ValAppend(s[..k + 1], s[k + 1..]);
    ValAppend(t[..k + 1], t[k + 1..]);
    NextMultiple(s[k], t[k], Pow(k));
  }

  /** A canonical string is determined by its value. */
  lemma {:induction false} ValInjective(s: seq<Digit>, t: seq<Digit>)
    requires |s| == |t| && Val(s) == Val(t)
    ensures s == t
  {
    if s != [] {
      assert s[0] == t[0] && Val(s[1..]) == Val(t[1..]);
      ValInjective(s[1..], t[1..]);
      assert s == [s[0]] + s[1..] && t == [t[0]] + t[1..];
    }
  }

  lemma CanonicalUnique(s: seq<Digit>, t: seq<Digit>)
    requires Canonical(s) && Canonical(t) && Val(s) == Val(t)
    ensures s == t
  {
    if |s| < |t| {
      LongerIsLarger(s, t);
    } else if |t| < |s| {
      LongerIsLarger(t, s);
    } else {
      ValInjective(s, t);
    }
  }
}
