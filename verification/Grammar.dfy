/** The byte format as a grammar: which strings of bytes are written for a value, and which
  * are read as one. */
module Grammar {
  import opened Framing
  import opened Sequences

  /** The parts one after the other. */
  function Flat(parts: seq<seq<Byte>>): seq<Byte> {
    if parts == [] then [] else parts[0] + Flat(parts[1..])
  }

  // ---------- what is written ----------

  /** s is the size n, in k bytes, and after it the parts. */
  ghost predicate Framed(n: nat, s: seq<Byte>, k: nat, parts: seq<seq<Byte>>) {
    k <= |s| && PacksTo(n, s[..k]) && |parts| == n && s[k..] == Flat(parts)
  }

  /** s is written for v: an integer by itself; a text as its size and its characters; a pair as
    * its first part and its second; a container as its size and its elements in order. */
  ghost predicate Written(t: Type, v: Value, s: seq<Byte>)
    decreases Height(t)
  {
    match t
    case IntOf(_) => v.Integer? && PacksTo(v.i, s)
    case String => v.Text? && exists k :: 0 <= k <= |s| && PacksTo(|v.s|, s[..k]) && s[k..] == v.s
    case Pair(a, b) =>
      v.Two? && exists k :: 0 <= k <= |s| && Written(a, v.first, s[..k]) && Written(b, v.second, s[k..])
    case _ =>
      v.Many? && exists k: nat, parts ::
        Framed(|v.items|, s, k, parts) && forall i :: 0 <= i < |parts| ==> Written(Element(t), v.items[i], parts[i])
  }

  lemma Front(x: seq<Byte>, y: seq<Byte>)
    ensures (x + y)[..|x|] == x && (x + y)[|x|..] == y
  {
  }

  lemma Cut(s: seq<Byte>, k: nat)
    requires k <= |s|
    ensures s == s[..k] + s[k..]
  {
  }

  lemma SizeIsWritten(n: nat, s: seq<Byte>)
    requires InRange(SIZE, n)
    ensures PacksTo(n, s) <==> s == Sized(n)
  {
    PackableIsShort(SIZE, n);
    PackIs(n, s);
  }

  /** The bytes of the elements. */
  ghost function Parts(t: Type, items: seq<Value>): (parts: seq<seq<Byte>>)
    ensures |parts| == |items| && forall i :: 0 <= i < |items| ==> parts[i] == Serialized(t, items[i])
  {
    seq(|items|, i requires 0 <= i < |items| => Serialized(t, items[i]))
  }

  lemma {:induction false} FlatParts(t: Type, items: seq<Value>, parts: seq<seq<Byte>>)
    requires |parts| == |items| && forall i :: 0 <= i < |items| ==> parts[i] == Serialized(t, items[i])
    ensures Flat(parts) == SerializedAll(t, items)
  {
    hide Serialized;
    if items != [] { FlatParts(t, items[1..], parts[1..]); }
  }

  lemma TextIs(v: Value, s: seq<Byte>)
    requires v.Text? && InRange(SIZE, |v.s|)
    ensures Written(String, v, s) <==> s == Sized(|v.s|) + v.s
  {
    var p := Sized(|v.s|);
    Front(p, v.s);
    SizeIsWritten(|v.s|, p);
    if Written(String, v, s) {
      var k :| 0 <= k <= |s| && PacksTo(|v.s|, s[..k]) && s[k..] == v.s;
      SizeIsWritten(|v.s|, s[..k]);
      Cut(s, k);
    }
    hide PacksTo, Sized;
  }

  lemma {:induction false} PairIs(t: Type, v: Value, s: seq<Byte>)
    requires WellFormed(t) && t.Pair? && Has(t, v)
    ensures Written(t, v, s) <==> s == Serialized(t.first, v.first) + Serialized(t.second, v.second)
    decreases Height(t), 0
  {
    var x, y := Serialized(t.first, v.first), Serialized(t.second, v.second);
    Front(x, y);
    WrittenIs(t.first, v.first, x);
    WrittenIs(t.second, v.second, y);
    hide Serialized, Has;
    if Written(t, v, s) {
      var k :| 0 <= k <= |s| && Written(t.first, v.first, s[..k]) && Written(t.second, v.second, s[k..]);
      WrittenIs(t.first, v.first, s[..k]);
      WrittenIs(t.second, v.second, s[k..]);
      Cut(s, k);
    }
  }

  lemma {:induction false} ContainerIsWritten(t: Type, v: Value)
    requires WellFormed(t) && (t.Vector? || t.Set? || t.Map?) && Has(t, v)
    ensures Written(t, v, Sized(|v.items|) + SerializedAll(Element(t), v.items))
    decreases Height(t), 0
  {
    ElementHas(t, v);
    var p, e := Sized(|v.items|), Element(t);
    SizeIsWritten(|v.items|, p);
    hide Serialized, SerializedAll, Has, Sized, PacksTo, InRange, Increasing;
    var s, parts := p + SerializedAll(e, v.items), Parts(e, v.items);
    FlatParts(e, v.items, parts);
    Front(p, SerializedAll(e, v.items));
    assert Framed(|v.items|, s, |p|, parts);
    forall i | 0 <= i < |parts| ensures Written(e, v.items[i], parts[i]) {
      WrittenIs(e, v.items[i], parts[i]);
    }
  }

  lemma {:induction false} WrittenContainer(t: Type, v: Value, s: seq<Byte>)
    requires WellFormed(t) && (t.Vector? || t.Set? || t.Map?) && Has(t, v) && Written(t, v, s)
    ensures s == Sized(|v.items|) + SerializedAll(Element(t), v.items)
    decreases Height(t), 0
  {
    ElementHas(t, v);
    var e := Element(t);
    var k: nat, parts :| Framed(|v.items|, s, k, parts) &&
      forall i :: 0 <= i < |parts| ==> Written(e, v.items[i], parts[i]);
    hide Serialized, SerializedAll, Has, Sized, PacksTo, InRange, Increasing, Written;
    forall i | 0 <= i < |parts| ensures parts[i] == Serialized(e, v.items[i]) {
      WrittenIs(e, v.items[i], parts[i]);
    }
    FlatParts(e, v.items, parts);
    SizeIsWritten(|v.items|, s[..k]);
    Cut(s, k);
  }

  /** What is serialized for a value is what the grammar says, and nothing else is. */
  lemma {:induction false} WrittenIs(t: Type, v: Value, s: seq<Byte>)
    requires WellFormed(t) && Has(t, v)
    ensures Written(t, v, s) <==> s == Serialized(t, v)
    decreases Height(t), 1
  {
    match t
    case IntOf(it) =>
      PackableIsShort(it, v.i);
      PackIs(v.i, s);
      hide PacksTo, Pack, Octets;
    case String => TextIs(v, s);
    case Pair(_, _) => PairIs(t, v, s);
    case _ =>
      ElementHas(t, v);
      ManySerialized(t, v);
      ContainerIsWritten(t, v);
      if Written(t, v, s) { WrittenContainer(t, v, s); }
  }

  // ---------- what is read ----------

  /** s reads as the integer i: the sign, the number of the bytes that follow and three bits that
    * do not matter; then a number that is i up to a multiple of the range of the type. */
  ghost predicate Decodes(t: IntType, i: int, s: seq<Byte>)
    requires t.Valid()
  {
    exists sign: nat, ignored: nat ::
      && sign < 2 && ignored < 8 && 2 <= |s| <= 1 + t.size && s[0] == 128 * sign + 16 * ignored + (|s| - 1)
      && (sign == 1 ==> t.signed) && InRange(t, i)
      && (sign == 1 ==> SameModulo(i, 0 - Weight(s[1..]), t.size))
      && (sign == 0 ==> SameModulo(i, Weight(s[1..]), t.size))
  }

  /** s is the size n, in k bytes, and after it the parts. */
  ghost predicate ReadFramed(n: nat, s: seq<Byte>, k: nat, parts: seq<seq<Byte>>) {
    k <= |s| && Decodes(IntType(4, false), n, s[..k]) && |parts| == n && s[k..] == Flat(parts)
  }

  /** s reads as v.  A set or map takes its elements one by one. */
  ghost predicate Readable(t: Type, v: Value, s: seq<Byte>)
    requires WellFormed(t)
    decreases Height(t), 1
  {
    match t
    case IntOf(it) => v.Integer? && Decodes(it, v.i, s)
    case String => v.Text? && exists k :: 0 <= k <= |s| && Decodes(IntType(4, false), |v.s|, s[..k]) && s[k..] == v.s
    case Pair(a, b) =>
      v.Two? && exists k :: 0 <= k <= |s| && Readable(a, v.first, s[..k]) && Readable(b, v.second, s[k..])
    case _ =>
      v.Many? && exists k: nat, parts, items :: ReadAs(t, v.items, s, k, parts, items)
  }

  ghost predicate ReadAs(t: Type, all: seq<Value>, s: seq<Byte>, k: nat, parts: seq<seq<Byte>>, items: seq<Value>)
    requires WellFormed(t) && (t.Vector? || t.Set? || t.Map?)
    decreases Height(t), 0
  {
    && ReadFramed(|items|, s, k, parts) && all == Filled(t, items)
    && forall i :: 0 <= i < |items| ==> Readable(Element(t), items[i], parts[i])
  }

  lemma SmallQuotient(p: int, k: int)
    requires p > 0 && k * p < p
    ensures k <= 0
  {
  }

  lemma SmallMultiple(p: int, k: int)
    requires p > 0 && -p < k * p < p
    ensures k == 0
  {
    SmallQuotient(p, k);
    SmallQuotient(p, -k);
  }

  /** A residue in range is unique. */
  lemma SameInRange(t: IntType, i: int, j: int, x: int)
    requires t.Valid() && InRange(t, i) && InRange(t, j) && SameModulo(i, x, t.size) && SameModulo(j, x, t.size)
    ensures i == j
  {
    var p := Pow256(t.size);
    var k: int :| i == x + k * p;
    var l: int :| j == x + l * p;
    assert i - j == (k - l) * p;
    SmallMultiple(p, k - l);
  }

  lemma SplitControl(c: Byte) returns (sign: nat, ignored: nat, n: nat)
    ensures sign < 2 && ignored < 8 && n < 16 && c == 128 * sign + 16 * ignored + n
  {
    sign, ignored, n := c / 128, c / 16 % 8, c % 16;
  }

  /** An integer is read from exactly these bytes. */
  lemma DecodesUnpack(t: IntType, i: int, s: seq<Byte>, rest: seq<Byte>)
    requires t.Valid() && Decodes(t, i, s)
    ensures Unpack(t, s + rest) == Some((i, rest))
  {
    var sign: nat, ignored: nat :|
      && sign < 2 && ignored < 8 && 2 <= |s| <= 1 + t.size && s[0] == 128 * sign + 16 * ignored + (|s| - 1)
      && (sign == 1 ==> t.signed) && InRange(t, i)
      && (sign == 1 ==> SameModulo(i, 0 - Weight(s[1..]), t.size))
      && (sign == 0 ==> SameModulo(i, Weight(s[1..]), t.size));
    hide Unpack, Weight, SameModulo, InRange;
    UnpackIs(t, s[0], sign, ignored, |s| - 1, s[1..] + rest);
    Front(s[1..], rest);
    assert [s[0]] + (s[1..] + rest) == s + rest;
    SameInRange(t, i, Unpack(t, s + rest).value.0, if sign == 1 then 0 - Weight(s[1..]) else 0 + Weight(s[1..]));
  }

  lemma UnpackDecodes(t: IntType, i: int, s: seq<Byte>, rest: seq<Byte>) returns (k: nat)
    requires t.Valid() && Unpack(t, s) == Some((i, rest))
    ensures k <= |s| && Decodes(t, i, s[..k]) && rest == s[k..]
  {
    var sign, ignored, n := SplitControl(s[0]);
    UnpackIs(t, s[0], sign, ignored, n, s[1..]);
    hide Unpack, Weight, SameModulo, InRange;
    assert [s[0]] + s[1..] == s;
    k := n + 1;
    var b := s[..k];
    assert b[1..] == s[1..][..n] && s[1..][n..] == s[k..];
    assert b[0] == 128 * sign + 16 * ignored + (|b| - 1);
  }

  lemma OneMoreRead(t: Type, items: seq<Value>, parts: seq<seq<Byte>>, rest: seq<Byte>)
    requires WellFormed(t) && |parts| == |items| > 0
    requires Deserialized(t, parts[0] + (Flat(parts[1..]) + rest)) == Some((items[0], Flat(parts[1..]) + rest))
    requires DeserializedAll(t, |items| - 1, Flat(parts[1..]) + rest) == Some((items[1..], rest))
    ensures DeserializedAll(t, |items|, Flat(parts) + rest) == Some((items, rest))
  {
    hide Deserialized;
    assert Flat(parts) + rest == parts[0] + (Flat(parts[1..]) + rest) by {
      Regroup(parts[0], Flat(parts[1..]), rest);
    }
    assert [items[0]] + items[1..] == items;
  }

  lemma PairCut(t: Type, v: Value, s: seq<Byte>) returns (k: nat)
    requires WellFormed(t) && t.Pair? && Readable(t, v, s)
    ensures v.Two? && k <= |s| && Readable(t.first, v.first, s[..k]) && Readable(t.second, v.second, s[k..])
  {
    k :| 0 <= k <= |s| && Readable(t.first, v.first, s[..k]) && Readable(t.second, v.second, s[k..]);
  }

  lemma {:induction false} AllReadBack(t: Type, items: seq<Value>, parts: seq<seq<Byte>>, rest: seq<Byte>)
    requires WellFormed(t) && |parts| == |items| && forall i :: 0 <= i < |items| ==> Readable(t, items[i], parts[i])
    ensures DeserializedAll(t, |items|, Flat(parts) + rest) == Some((items, rest))
    decreases Height(t), 4, |items|
  {
    hide Readable, Deserialized;
    if items == [] {
      assert Flat(parts) + rest == rest;
    } else {
      ReadableIsRead(t, items[0], parts[0], Flat(parts[1..]) + rest);
      AllReadBack(t, items[1..], parts[1..], rest);
      hide DeserializedAll;
      OneMoreRead(t, items, parts, rest);
    }
  }

  /** The size in front of what is read as all the elements. */
  lemma SizePut(t: Type, items: seq<Value>, s: seq<Byte>, k: nat, parts: seq<seq<Byte>>, rest: seq<Byte>)
    requires WellFormed(t) && (t.Vector? || t.Set? || t.Map?) && ReadFramed(|items|, s, k, parts)
    requires WellFormed(Element(t)) && DeserializedAll(Element(t), |items|, Flat(parts) + rest) == Some((items, rest))
    ensures Deserialized(t, s + rest) == Some((Many(Filled(t, items)), rest))
  {
    hide Deserialized, DeserializedAll, Unpack, Decodes, Filled, WellFormed;
    var mid := Flat(parts) + rest;
    DecodesUnpack(SIZE, |items|, s[..k], mid);
    assert s + rest == s[..k] + mid by {
      Cut(s, k);
      Regroup(s[..k], Flat(parts), rest);
    }
    ManyReadBack(t, s + rest, |items|, mid, items, rest);
  }

  lemma ContainerCut(t: Type, v: Value, s: seq<Byte>) returns (k: nat, parts: seq<seq<Byte>>, items: seq<Value>)
    requires WellFormed(t) && (t.Vector? || t.Set? || t.Map?) && Readable(t, v, s)
    ensures WellFormed(Element(t)) && v.Many? && ReadFramed(|items|, s, k, parts) && v.items == Filled(t, items)
    ensures |parts| == |items| && forall i :: 0 <= i < |items| ==> Readable(Element(t), items[i], parts[i])
  {
    k, parts, items :| ReadAs(t, v.items, s, k, parts, items);
    hide Decodes, Filled, SameModulo;
  }

  lemma {:induction false} ContainerIsRead(t: Type, v: Value, s: seq<Byte>, rest: seq<Byte>)
    requires WellFormed(t) && (t.Vector? || t.Set? || t.Map?) && Readable(t, v, s)
    ensures Deserialized(t, s + rest) == Some((v, rest))
    decreases Height(t), 2, 0
  {
    hide Deserialized, DeserializedAll, ReadFramed, Filled, WellFormed, Readable;
    var k, parts, items := ContainerCut(t, v, s);
    AllReadBack(Element(t), items, parts, rest);
    SizePut(t, items, s, k, parts, rest);
  }

  lemma PairPut(t: Type, v: Value, s: seq<Byte>, k: nat, rest: seq<Byte>)
    requires WellFormed(t) && t.Pair? && v.Two? && k <= |s|
    requires Deserialized(t.first, s[..k] + (s[k..] + rest)) == Some((v.first, s[k..] + rest))
    requires Deserialized(t.second, s[k..] + rest) == Some((v.second, rest))
    ensures Deserialized(t, s + rest) == Some((v, rest))
  {
    hide Deserialized;
    assert s + rest == s[..k] + (s[k..] + rest) by { Cut(s, k); }
    PairReadsBack(t, v, s + rest, s[k..] + rest, rest);
  }

  lemma {:induction false} PairIsRead(t: Type, v: Value, s: seq<Byte>, rest: seq<Byte>)
    requires WellFormed(t) && t.Pair? && Readable(t, v, s)
    ensures Deserialized(t, s + rest) == Some((v, rest))
    decreases Height(t), 2, 0
  {
    var k := PairCut(t, v, s);
    hide Deserialized, Readable;
    ReadableIsRead(t.first, v.first, s[..k], s[k..] + rest);
    ReadableIsRead(t.second, v.second, s[k..], rest);
    PairPut(t, v, s, k, rest);
  }

  lemma TextPut(v: Value, s: seq<Byte>, k: nat, rest: seq<Byte>)
    requires v.Text? && k <= |s| && s[k..] == v.s && Unpack(SIZE, s + rest) == Some((|v.s|, v.s + rest))
    ensures Deserialized(String, s + rest) == Some((v, rest))
  {
    hide Unpack;
    Front(v.s, rest);
  }

  lemma TextIsRead(v: Value, s: seq<Byte>, rest: seq<Byte>)
    requires Readable(String, v, s)
    ensures Deserialized(String, s + rest) == Some((v, rest))
  {
    var k :| 0 <= k <= |s| && Decodes(SIZE, |v.s|, s[..k]) && s[k..] == v.s;
    hide Unpack, Decodes, Deserialized, Readable;
    DecodesUnpack(SIZE, |v.s|, s[..k], v.s + rest);
    assert s + rest == s[..k] + (v.s + rest) by {
      Cut(s, k);
      Regroup(s[..k], v.s, rest);
    }
    TextPut(v, s, k, rest);
  }

  /** What the grammar lets stand for v is read as v, whatever follows. */
  lemma {:induction false} ReadableIsRead(t: Type, v: Value, s: seq<Byte>, rest: seq<Byte>)
    requires WellFormed(t) && Readable(t, v, s)
    ensures Deserialized(t, s + rest) == Some((v, rest))
    decreases Height(t), 3, 0
  {
    match t
    case IntOf(it) =>
      DecodesUnpack(it, v.i, s, rest);
      hide Unpack, Decodes;
    case String => TextIsRead(v, s, rest);
    case Pair(_, _) => PairIsRead(t, v, s, rest);
    case _ => ContainerIsRead(t, v, s, rest);
  }

  /** k bytes at the front of s read as v, and rest is what follows them. */
  ghost predicate ReadsFront(t: Type, v: Value, s: seq<Byte>, k: nat, rest: seq<Byte>)
    requires WellFormed(t)
  {
    k <= |s| && Readable(t, v, s[..k]) && rest == s[k..]
  }

  lemma TextFront(s: seq<Byte>, v: Value, rest: seq<Byte>) returns (k: nat)
    requires Deserialized(String, s) == Some((v, rest))
    ensures ReadsFront(String, v, s, k, rest)
  {
    var (n, mid) := Unpack(SIZE, s).value;
    var j := UnpackDecodes(SIZE, n, s, mid);
    k := j + n;
    hide Unpack, Decodes;
    assert s[..k][..j] == s[..j] && s[..k][j..] == mid[..n] && s[k..] == mid[n..];
  }

  lemma PairFront(t: Type, v: Value, s: seq<Byte>, j: nat, mid: seq<Byte>, l: nat, rest: seq<Byte>)
    requires WellFormed(t) && t.Pair? && v.Two?
    requires ReadsFront(t.first, v.first, s, j, mid) && ReadsFront(t.second, v.second, mid, l, rest)
    ensures ReadsFront(t, v, s, j + l, rest)
  {
    assert s[..j + l][..j] == s[..j] && s[..j + l][j..] == mid[..l] && s[j + l..] == mid[l..];
  }

  lemma PairParts(t: Type, s: seq<Byte>, v: Value, rest: seq<Byte>) returns (mid: seq<Byte>)
    requires WellFormed(t) && t.Pair? && Deserialized(t, s) == Some((v, rest))
    ensures v.Two? && Deserialized(t.first, s) == Some((v.first, mid))
    ensures Deserialized(t.second, mid) == Some((v.second, rest))
  {
    mid := Deserialized(t.first, s).value.1;
  }

  lemma AllParts(t: Type, n: nat, s: seq<Byte>, items: seq<Value>, rest: seq<Byte>) returns (mid: seq<Byte>)
    requires WellFormed(t) && n > 0 && DeserializedAll(t, n, s) == Some((items, rest))
    ensures items != [] && Deserialized(t, s) == Some((items[0], mid))
    ensures DeserializedAll(t, n - 1, mid) == Some((items[1..], rest))
  {
    hide Deserialized;
    mid := Deserialized(t, s).value.1;
    var more := DeserializedAll(t, n - 1, mid).value.0;
    assert ([items[0]] + more)[1..] == more;
  }

  /** The elements that were read, and the bytes of each. */
  ghost predicate ReadsAll(t: Type, n: nat, s: seq<Byte>, items: seq<Value>, parts: seq<seq<Byte>>, rest: seq<Byte>)
    requires WellFormed(t)
  {
    && |items| == |parts| == n && s == Flat(parts) + rest
    && forall i :: 0 <= i < n ==> Readable(t, items[i], parts[i])
  }

  lemma PartInFront(t: Type, n: nat, s: seq<Byte>, k: nat, mid: seq<Byte>, items: seq<Value>, parts: seq<seq<Byte>>,
      rest: seq<Byte>)
    requires WellFormed(t) && items != [] && ReadsFront(t, items[0], s, k, mid)
    requires ReadsAll(t, n, mid, items[1..], parts, rest)
    ensures ReadsAll(t, n + 1, s, items, [s[..k]] + parts, rest)
  {
    hide Readable;
    var all := [s[..k]] + parts;
    assert all[1..] == parts;
    Regroup(s[..k], Flat(parts), rest);
    Cut(s, k);
    forall i | 0 <= i < n + 1 ensures Readable(t, items[i], all[i]) {
      if i > 0 { assert Readable(t, items[1..][i - 1], parts[i - 1]); }
    }
  }

  lemma {:induction false} AllAreReadable(t: Type, n: nat, s: seq<Byte>, items: seq<Value>, rest: seq<Byte>)
      returns (parts: seq<seq<Byte>>)
    requires WellFormed(t) && DeserializedAll(t, n, s) == Some((items, rest))
    ensures ReadsAll(t, n, s, items, parts, rest)
    decreases Height(t), 2, n
  {
    if n == 0 {
      parts := [];
      assert s == Flat(parts) + rest;
    } else {
      var mid := AllParts(t, n, s, items, rest);
      hide Deserialized, DeserializedAll, ReadsFront, ReadsAll;
      var k := ReadIsReadable(t, s, items[0], mid);
      var more := AllAreReadable(t, n - 1, mid, items[1..], rest);
      PartInFront(t, n - 1, s, k, mid, items, more, rest);
      parts := [s[..k]] + more;
    }
  }

  lemma {:induction false} AllCounted(t: Type, n: nat, s: seq<Byte>)
    requires WellFormed(t)
    ensures DeserializedAll(t, n, s).Some? ==> |DeserializedAll(t, n, s).value.0| == n
  {
    hide Deserialized;
    if n > 0 && Deserialized(t, s).Some? { AllCounted(t, n - 1, Deserialized(t, s).value.1); }
  }

  lemma ContainerParts(t: Type, s: seq<Byte>, v: Value, rest: seq<Byte>) returns (items: seq<Value>, mid: seq<Byte>)
    requires WellFormed(t) && (t.Vector? || t.Set? || t.Map?) && Deserialized(t, s) == Some((v, rest))
    ensures v.Many? && Unpack(SIZE, s) == Some((|items|, mid)) && v.items == Filled(t, items)
    ensures WellFormed(Element(t)) && DeserializedAll(Element(t), |items|, mid) == Some((items, rest))
  {
    var n := Unpack(SIZE, s).value.0;
    mid := Unpack(SIZE, s).value.1;
    items := DeserializedAll(Element(t), n, mid).value.0;
    AllCounted(Element(t), n, mid);
    hide Unpack, DeserializedAll, Filled;
  }

  lemma ContainerFront(t: Type, v: Value, s: seq<Byte>, j: nat, items: seq<Value>, parts: seq<seq<Byte>>,
      rest: seq<Byte>) returns (k: nat)
    requires WellFormed(t) && (t.Vector? || t.Set? || t.Map?) && v.Many? && v.items == Filled(t, items)
    requires j <= |s| && Decodes(SIZE, |items|, s[..j]) && ReadsAll(Element(t), |items|, s[j..], items, parts, rest)
    ensures ReadsFront(t, v, s, k, rest)
  {
    hide Decodes, Filled;
    k := j + |Flat(parts)|;
    Front(Flat(parts), rest);
    assert s[..k][..j] == s[..j] && s[..k][j..] == s[j..][..|Flat(parts)|] && s[k..] == s[j..][|Flat(parts)|..];
    assert ReadAs(t, v.items, s[..k], j, parts, items);
  }

  lemma {:induction false} PairIsReadable(t: Type, s: seq<Byte>, v: Value, rest: seq<Byte>) returns (k: nat)
    requires WellFormed(t) && t.Pair? && Deserialized(t, s) == Some((v, rest))
    ensures ReadsFront(t, v, s, k, rest)
    decreases Height(t), 0, 0
  {
    hide Deserialized, ReadsFront;
    var mid := PairParts(t, s, v, rest);
    var j := ReadIsReadable(t.first, s, v.first, mid);
    var l := ReadIsReadable(t.second, mid, v.second, rest);
    PairFront(t, v, s, j, mid, l, rest);
    k := j + l;
  }

  lemma {:induction false} ContainerIsReadable(t: Type, s: seq<Byte>, v: Value, rest: seq<Byte>) returns (k: nat)
    requires WellFormed(t) && (t.Vector? || t.Set? || t.Map?) && Deserialized(t, s) == Some((v, rest))
    ensures ReadsFront(t, v, s, k, rest)
    decreases Height(t), 0, 0
  {
    hide Deserialized, DeserializedAll, Unpack, Decodes, Filled, ReadsFront, ReadsAll, Readable, WellFormed;
    var items, mid := ContainerParts(t, s, v, rest);
    var j := UnpackDecodes(SIZE, |items|, s, mid);
    var parts := AllAreReadable(Element(t), |items|, mid, items, rest);
    k := ContainerFront(t, v, s, j, items, parts, rest);
  }

  /** What is read is at the front of the input, in a form the grammar lets stand for it. */
  lemma {:induction false} ReadIsReadable(t: Type, s: seq<Byte>, v: Value, rest: seq<Byte>) returns (k: nat)
    requires WellFormed(t) && Deserialized(t, s) == Some((v, rest))
    ensures ReadsFront(t, v, s, k, rest)
    decreases Height(t), 1, 0
  {
    match t {
      case IntOf(it) =>
        k := UnpackDecodes(it, v.i, s, rest);
        hide Decodes, Unpack;
      case String => k := TextFront(s, v, rest);
      case Pair(_, _) => k := PairIsReadable(t, s, v, rest);
      case _ => k := ContainerIsReadable(t, s, v, rest);
    }
  }

  /** For all bytes: they are read as v, and rest is left, exactly when they are a form of v and rest. */
  lemma ReadsExactly(t: Type, s: seq<Byte>, v: Value, rest: seq<Byte>)
    requires WellFormed(t)
    ensures Deserialized(t, s) == Some((v, rest)) <==> exists k: nat :: ReadsFront(t, v, s, k, rest)
  {
    if Deserialized(t, s) == Some((v, rest)) {
      var k := ReadIsReadable(t, s, v, rest);
    }
    if k: nat :| ReadsFront(t, v, s, k, rest) {
      ReadableIsRead(t, v, s[..k], rest);
      Cut(s, k);
    }
  }
}
