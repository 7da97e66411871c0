/** Which byte strings the SSID check takes for UTF-8, measured against section 3 of RFC 3629. */
module Utf8 {
  import opened Sequences

  // ---------- the check ----------

  predicate Continues(b: Byte) { b / 64 == 2 }

  /** How many bytes should follow a lead byte; -1 if it is not one. */
  function Follow(c: Byte): int {
    if c < 0x80 then 0 else if c / 32 == 6 then 1 else if c / 16 == 14 then 2 else if c / 8 == 30 then 3 else -1
  }

  /** Bits 7 and 5 of b are set. */
  predicate HighAndFifth(b: Byte) { b / 128 == 1 && b / 32 % 2 == 1 }

  /** A lead byte with its continuation bytes, other than ED followed by A0 to BF. */
  predicate IsUnit(u: seq<Byte>) {
    || (|u| == 1 && u[0] <= 0x7F)
    || (|u| == 2 && 0xC0 <= u[0] <= 0xDF && 0x80 <= u[1] <= 0xBF)
    || (|u| == 3 && 0xE0 <= u[0] <= 0xEF && 0x80 <= u[1] <= 0xBF && 0x80 <= u[2] <= 0xBF
        && !(u[0] == 0xED && u[1] >= 0xA0))
    || (|u| == 4 && 0xF0 <= u[0] <= 0xF7 && 0x80 <= u[1] <= 0xBF && 0x80 <= u[2] <= 0xBF && 0x80 <= u[3] <= 0xBF)
  }

  /** What the masks of the code make of a unit. */
  lemma UnitIs(u: seq<Byte>)
    requires u != []
    ensures IsUnit(u) <==>
      |u| == 1 + Follow(u[0]) && (forall k :: 1 <= k < |u| ==> Continues(u[k])) && !(u[0] == 0xED && u[1] >= 0xA0)
  {
  }

  /** s splits into units from the left. */
  predicate Accepts(s: seq<Byte>)
    decreases |s|
  {
    s == [] ||
    (Follow(s[0]) >= 0 && 1 + Follow(s[0]) <= |s| && IsUnit(s[..1 + Follow(s[0])]) && Accepts(s[1 + Follow(s[0])..]))
  }

  function Joined(units: seq<seq<Byte>>): seq<Byte> {
    if units == [] then [] else units[0] + Joined(units[1..])
  }

  ghost predicate AllUnits(units: seq<seq<Byte>>) { forall k :: 0 <= k < |units| ==> IsUnit(units[k]) }

  lemma {:induction false} Units(s: seq<Byte>) returns (units: seq<seq<Byte>>)
    requires Accepts(s)
    ensures AllUnits(units) && Joined(units) == s
    decreases |s|
  {
    if s == [] {
      units := [];
    } else {
      var n := 1 + Follow(s[0]);
      var rest := Units(s[n..]);
      units := [s[..n]] + rest;
      assert units[1..] == rest && s[..n] + s[n..] == s;
    }
  }

  lemma UnitFirst(u: seq<Byte>, rest: seq<Byte>)
    requires IsUnit(u)
    ensures Accepts(u + rest) <==> Accepts(rest)
  {
    assert (u + rest)[..|u|] == u && (u + rest)[|u|..] == rest;
  }

  lemma {:induction false} JoinedIsAccepted(units: seq<seq<Byte>>)
    requires AllUnits(units)
    ensures Accepts(Joined(units))
  {
    if units != [] {
      JoinedIsAccepted(units[1..]);
      UnitFirst(units[0], Joined(units[1..]));
    }
  }

  /** The check accepts exactly the concatenations of units. */
  lemma AcceptsIsJoined(s: seq<Byte>)
    ensures Accepts(s) <==> exists units :: AllUnits(units) && Joined(units) == s
  {
    if Accepts(s) {
      var units := Units(s);
    }
    if exists units :: AllUnits(units) && Joined(units) == s {
      var units :| AllUnits(units) && Joined(units) == s;
      JoinedIsAccepted(units);
    }
  }

  lemma Surrogate(s: seq<Byte>, i: nat)
    requires i + 1 < |s| && s[i] == 0xED && HighAndFifth(s[i + 1])
    ensures !Accepts(s[i..])
  {
    var u := s[i..];
    if |u| >= 3 { assert u[..3][1] == s[i + 1]; }
  }

  lemma Broken(s: seq<Byte>, i: nat, k: nat)
    requires i < k <= |s| && k <= i + Follow(s[i]) && (k < |s| ==> !Continues(s[k]))
    ensures !Accepts(s[i..])
  {
    var u, n := s[i..], 1 + Follow(s[i]);
    if n <= |u| { assert u[..n][k - i] == s[k]; }
  }

  lemma OneUnit(s: seq<Byte>, i: nat, n: nat)
    requires i + n < |s| && n == Follow(s[i]) && (forall k :: i < k <= i + n ==> Continues(s[k]))
    requires !(s[i] == 0xED && HighAndFifth(s[i + 1]))
    ensures Accepts(s[i..]) <==> Accepts(s[i + n + 1..])
  {
    var u := s[i..i + n + 1];
    assert s[i..] == u + s[i + n + 1..];
    UnitFirst(u, s[i + n + 1..]);
  }

  method CheckSSID(s: seq<Byte>) returns (ok: bool)
    ensures ok <==> Accepts(s)
  {
    var i, ix := 0, |s|;
    while i < ix
      invariant 0 <= i <= ix && (Accepts(s) <==> Accepts(s[i..]))
      decreases ix - i
    {
      ghost var start := i;
      var c := s[i];
      var n;
      if c <= 0x7F {
        n := 0;
      } else if c / 32 == 6 {
        n := 1;
      } else if c == 0xED && i < ix - 1 && HighAndFifth(s[i + 1]) {
        Surrogate(s, i);
        return false;
      } else if c / 16 == 14 {
        n := 2;
      } else if c / 8 == 30 {
        n := 3;
      } else {
        return false;
      }
      var j := 0;
      while j < n && i < ix
        invariant 0 <= j <= n && i == start + j < ix
        invariant forall k :: start < k <= i ==> Continues(s[k])
        decreases n - j
      {
        i := i + 1;
        if i == ix || !Continues(s[i]) {
          Broken(s, start, i);
          return false;
        }
        j := j + 1;
      }
      OneUnit(s, start, n);
      i := i + 1;
    }
    assert s[i..] == [];
    return true;
  }

  // ---------- UTF-8 ----------

  predicate Scalar(p: int) { 0 <= p < 0xD800 || 0xDFFF < p <= 0x10FFFF }

  function Encode(p: int): (u: seq<Byte>)
    requires Scalar(p)
    ensures u != []
  {
    if p < 0x80 then [p]
    else if p < 0x800 then [0xC0 + p / 64, 0x80 + p % 64]
    else if p < 0x10000 then [0xE0 + p / 4096, 0x80 + p / 64 % 64, 0x80 + p % 64]
    else [0xF0 + p / 262144, 0x80 + p / 4096 % 64, 0x80 + p / 64 % 64, 0x80 + p % 64]
  }

  /** Examples: the letter e with an acute accent, the euro sign and a Gothic letter. */
  lemma EncodeExamples()
    ensures Encode(0xE9) == [0xC3, 0xA9] && Encode(0x20AC) == [0xE2, 0x82, 0xAC]
    ensures Encode(0x10348) == [0xF0, 0x90, 0x8D, 0x88]
  {
  }

  ghost predicate Scalars(ps: seq<int>) { forall k :: 0 <= k < |ps| ==> Scalar(ps[k]) }

  function EncodeAll(ps: seq<int>): seq<Byte>
    requires forall k :: 0 <= k < |ps| ==> Scalar(ps[k])
  {
    if ps == [] then [] else Encode(ps[0]) + EncodeAll(ps[1..])
  }

  ghost predicate Valid(s: seq<Byte>) { exists ps :: Scalars(ps) && EncodeAll(ps) == s }

  predicate TightAt(c: Byte, next: Byte) {
    && c != 0xC0 && c != 0xC1 && c < 0xF5
    && (c == 0xE0 ==> next >= 0xA0)
    && (c == 0xF0 ==> next >= 0x90)
    && (c == 0xF4 ==> next < 0x90)
  }

  predicate TightIndex(s: seq<Byte>, i: int)
    requires 0 <= i < |s|
  {
    TightAt(s[i], if i + 1 < |s| then s[i + 1] else 0)
  }

  /** No byte that starts only overlong forms or numbers above 10FFFF, alone or with the byte
    * after it. */
  ghost predicate Tight(s: seq<Byte>) { forall i :: 0 <= i < |s| ==> TightIndex(s, i) }

  lemma TightConcat(u: seq<Byte>, rest: seq<Byte>)
    requires IsUnit(u)
    ensures Tight(u + rest) <==> TightIndex(u, 0) && Tight(rest)
  {
    var s := u + rest;
    assert forall k :: 0 <= k < |rest| ==> rest[k] == s[|u| + k];
    if Tight(s) {
      assert TightIndex(s, 0);
      forall i | 0 <= i < |rest| ensures TightIndex(rest, i) {
        assert TightIndex(s, |u| + i);
      }
    }
    if TightIndex(u, 0) && Tight(rest) {
      forall i | 0 <= i < |s| ensures TightIndex(s, i) {
        if i >= |u| {
          assert TightIndex(rest, i - |u|);
        } else if i > 0 {
          assert Continues(u[i]);
        }
      }
    }
  }

  lemma EncodeThree(p: int)
    requires Scalar(p) && 0x800 <= p < 0x10000
    ensures IsUnit(Encode(p)) && TightIndex(Encode(p), 0)
  {
  }

  lemma EncodeFour(p: int)
    requires Scalar(p) && 0x10000 <= p
    ensures IsUnit(Encode(p)) && TightIndex(Encode(p), 0)
  {
  }

  lemma EncodeIsUnit(p: int)
    requires Scalar(p)
    ensures IsUnit(Encode(p)) && TightIndex(Encode(p), 0)
  {
    if p >= 0x10000 { EncodeFour(p); } else if p >= 0x800 { EncodeThree(p); }
  }

  function Low(b: int): int { b - 0x80 }

  function Decode(u: seq<Byte>): int
    requires IsUnit(u)
  {
    var c: int := u[0];
    if |u| == 1 then c
    else if |u| == 2 then (c - 0xC0) * 64 + Low(u[1])
    else if |u| == 3 then ((c - 0xE0) * 64 + Low(u[1])) * 64 + Low(u[2])
    else (((c - 0xF0) * 64 + Low(u[1])) * 64 + Low(u[2])) * 64 + Low(u[3])
  }

  lemma Digits(a: int, b: int, c: int)
    requires 0 <= a && 0 <= b < 64 && 0 <= c < 64
    ensures ((a * 64 + b) * 64 + c) / 64 == a * 64 + b && ((a * 64 + b) * 64 + c) % 64 == c
    ensures ((a * 64 + b) * 64 + c) / 4096 == a && (a * 64 + b) % 64 == b
  {
  }

  lemma DecodeTwo(u: seq<Byte>)
    requires IsUnit(u) && TightIndex(u, 0) && |u| == 2
    ensures Scalar(Decode(u)) && Encode(Decode(u)) == u
  {
  }

  lemma DecodeThree(u: seq<Byte>)
    requires IsUnit(u) && TightIndex(u, 0) && |u| == 3
    ensures Scalar(Decode(u)) && Encode(Decode(u)) == u
  {
    Digits(u[0] - 0xE0, Low(u[1]), Low(u[2]));
  }

  lemma DecodeFour(u: seq<Byte>)
    requires IsUnit(u) && TightIndex(u, 0) && |u| == 4
    ensures Scalar(Decode(u)) && Encode(Decode(u)) == u
  {
    var a, b, c, d := u[0] as int - 0xF0, Low(u[1]), Low(u[2]), Low(u[3]);
    Digits(a, b, c);
    Digits(a * 64 + b, c, d);
    var p := Decode(u);
    assert p / 262144 == p / 4096 / 64;
  }

  lemma DecodeUnit(u: seq<Byte>)
    requires IsUnit(u) && TightIndex(u, 0)
    ensures Scalar(Decode(u)) && Encode(Decode(u)) == u
  {
    if |u| == 2 { DecodeTwo(u); } else if |u| == 3 { DecodeThree(u); } else if |u| == 4 { DecodeFour(u); }
  }

  /** Every sequence of Unicode scalar values is accepted. */
  lemma {:induction false} AcceptsEncodings(ps: seq<int>)
    requires Scalars(ps)
    ensures Accepts(EncodeAll(ps)) && Tight(EncodeAll(ps))
  {
    if ps != [] {
      AcceptsEncodings(ps[1..]);
      EncodeIsUnit(ps[0]);
      UnitFirst(Encode(ps[0]), EncodeAll(ps[1..]));
      TightConcat(Encode(ps[0]), EncodeAll(ps[1..]));
    }
  }

  lemma {:induction false} DecodeAll(s: seq<Byte>) returns (ps: seq<int>)
    requires Accepts(s) && Tight(s)
    ensures Scalars(ps) && EncodeAll(ps) == s
    decreases |s|
  {
    if s == [] {
      ps := [];
    } else {
      var n := 1 + Follow(s[0]);
      assert s == s[..n] + s[n..];
      TightConcat(s[..n], s[n..]);
      DecodeUnit(s[..n]);
      var rest := DecodeAll(s[n..]);
      ps := [Decode(s[..n])] + rest;
      assert ps[1..] == rest;
    }
  }

  /** What the check misses: it takes valid UTF-8 only where no byte starts an overlong form or a
    * number above 10FFFF. */
  lemma ValidIsTight(s: seq<Byte>)
    ensures Valid(s) <==> Accepts(s) && Tight(s)
  {
    if Valid(s) {
      var ps :| Scalars(ps) && EncodeAll(ps) == s;
      AcceptsEncodings(ps);
    }
    if Accepts(s) && Tight(s) {
      var ps := DecodeAll(s);
    }
  }

  /** An overlong form of U+0000 is accepted. */
  lemma OverlongAccepted()
    ensures Accepts([0xC0, 0x80]) && !Valid([0xC0, 0x80])
  {
    var s: seq<Byte> := [0xC0, 0x80];
    assert s == s + [] && Accepts([]);
    UnitFirst(s, []);
    assert !TightIndex(s, 0);
    ValidIsTight(s);
  }
}
