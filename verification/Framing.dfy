/** The byte format of dlib's serialization: self-delimiting integers, and strings, pairs,
  * vectors, sets and maps built from them. */
module Framing {
  import opened Arithmetic
  import opened Sequences

  datatype Option<T> = None | Some(value: T)

  // ---------- integers ----------

  /** An integral type: its size in bytes and whether it has a sign. */
  datatype IntType = IntType(size: int, signed: bool) {
    predicate Valid() { 1 <= size <= 8 }
  }

  function Pow256(n: nat): (p: int)
    ensures p > 0
  {
    if n == 0 then 1 else 256 * Pow256(n - 1)
  }

  predicate InRange(t: IntType, v: int)
    requires t.Valid()
  {
    if t.signed then -Pow256(t.size) <= 2 * v < Pow256(t.size) else 0 <= v < Pow256(t.size)
  }

  /** In range, and not the least value of a signed type, whose negation overflows. */
  predicate Packable(t: IntType, v: int)
    requires t.Valid()
  {
    InRange(t, v) && 2 * v != -Pow256(t.size)
  }

  /** Conversion to a type: two's complement. */
  function Wrap(t: IntType, v: int): (w: int)
    requires t.Valid()
    ensures InRange(t, w)
  {
    var r := v % Pow256(t.size);
    if t.signed && 2 * r >= Pow256(t.size) then r - Pow256(t.size) else r
  }

  /** Little-endian base-256 digits, at least one. */
  function Octets(v: nat): (s: seq<Byte>)
    ensures s != []
  {
    if v < 256 then [v] else [v % 256] + Octets(v / 256)
  }

  function Number(s: seq<Byte>): nat {
    if s == [] then 0 else s[0] + 256 * Number(s[1..])
  }

  function Abs(v: int): nat { if v < 0 then -v else v }

  /** A control byte with the sign and the number of bytes, then the absolute value. */
  function Pack(v: int): seq<Byte>
    requires |Octets(Abs(v))| <= 8
  {
    [|Octets(Abs(v))| + if v < 0 then 128 else 0] + Octets(Abs(v))
  }

  /** The integer at the front of s and what follows it. */
  function Unpack(t: IntType, s: seq<Byte>): (r: Option<(int, seq<Byte>)>)
    requires t.Valid()
    ensures r.Some? ==> InRange(t, r.value.0) && |r.value.1| < |s|
  {
    if s == [] then None
    else
      var negative := s[0] >= 128;
      var size := s[0] % 16;
      if (negative && !t.signed) || size > t.size || size == 0 || size > |s| - 1 then None
      else
        var item := Wrap(t, Number(s[1..size + 1]));
        Some((if negative then Wrap(t, -item) else item, s[size + 1..]))
  }

  lemma {:induction false} OctetsNumber(v: nat)
    ensures Number(Octets(v)) == v
  {
    if v < 256 {
      assert Octets(v)[1..] == [];
    } else {
      OctetsNumber(v / 256);
      assert Octets(v)[1..] == Octets(v / 256);
    }
  }

  lemma Below(v: nat, p: nat)
    ensures v / 256 < p <==> v < 256 * p
  {
  }

  lemma {:induction false} PowAtLeast(n: nat)
    requires n > 0
    ensures Pow256(n) >= 256 && (n == 1 ==> Pow256(n) == 256)
  {
    if n > 1 { PowAtLeast(n - 1); }
  }

  /** As many digits as the size of the number asks for. */
  lemma {:induction false} OctetsLength(v: nat, n: nat)
    requires n > 0
    ensures |Octets(v)| <= n <==> v < Pow256(n)
  {
    if v >= 256 && n > 1 {
      OctetsLength(v / 256, n - 1);
      Below(v, Pow256(n - 1));
    } else {
      PowAtLeast(n);
    }
  }

  lemma {:induction false} PowMonotone(m: nat, n: nat)
    requires m <= n
    ensures Pow256(m) <= Pow256(n)
  {
    if m < n { PowMonotone(m, n - 1); }
  }

  lemma PackableIsShort(t: IntType, v: int)
    requires t.Valid() && InRange(t, v)
    ensures |Octets(Abs(v))| <= t.size
  {
    OctetsLength(Abs(v), t.size);
  }

  lemma Residue(v: int, p: int)
    requires p > 0 && -p <= v < p
    ensures v % p == if v < 0 then v + p else v
  {
    Euclid(v, p, v / p, if v < 0 then -1 else 0, v % p, if v < 0 then v + p else v);
  }

  lemma WrapInRange(t: IntType, v: int)
    requires t.Valid()
    ensures InRange(t, Wrap(t, v))
    ensures InRange(t, v) ==> Wrap(t, v) == v
  {
    if InRange(t, v) { Residue(v, Pow256(t.size)); }
  }

  lemma NegateTwice(t: IntType, v: int)
    requires t.Valid() && t.signed && InRange(t, v) && v < 0
    ensures Wrap(t, -Wrap(t, -v)) == v
  {
    WrapInRange(t, v);
    if Packable(t, v) {
      WrapInRange(t, -v);
    } else {
      Residue(-v, Pow256(t.size));
    }
  }

  /** An integer of one type reads back as any other type exactly when it fits there; a
    * negative one never reads back as an unsigned type. */
  lemma UnpackPack(t: IntType, v: int, rest: seq<Byte>)
    requires t.Valid() && |Octets(Abs(v))| <= 8
    ensures Unpack(t, Pack(v) + rest) == Some((v, rest)) <==> InRange(t, v)
    ensures v < 0 && !t.signed ==> Unpack(t, Pack(v) + rest) == None
  {
    var digits := Octets(Abs(v));
    var n := |digits|;
    var s := Pack(v) + rest;
    assert s[0] == n + (if v < 0 then 128 else 0) && s[0] % 16 == n;
    assert s[1..n + 1] == digits && s[n + 1..] == rest;
    OctetsNumber(Abs(v));
    WrapInRange(t, Abs(v));
    WrapInRange(t, -Wrap(t, Abs(v)));
    if InRange(t, v) {
      PackableIsShort(t, v);
      if v < 0 { NegateTwice(t, v); }
    }
    hide Octets, Number, Wrap, InRange;
  }

  // ---------- the bytes themselves ----------

  /** Byte k counts 256 to the power of k. */
  function Weight(s: seq<Byte>): nat {
    if s == [] then 0 else Weight(s[..|s| - 1]) + s[|s| - 1] * Pow256(|s| - 1)
  }

  /** s is what is written for v: a byte with the number of bytes that follow, plus 128 exactly
    * when v is negative; then the absolute value, the least byte first and no zero at the end. */
  ghost predicate PacksTo(v: int, s: seq<Byte>) {
    && 2 <= |s| <= 9
    && s[0] == |s| - 1 + (if v < 0 then 128 else 0)
    && Weight(s[1..]) == (if v < 0 then -v else v)
    && (s[|s| - 1] == 0 ==> v == 0 && |s| == 2)
  }

  lemma Redistribute(x: nat, n: nat, b: nat, p: nat)
    ensures x + 256 * (n + b * p) == x + 256 * n + b * (256 * p)
  {
  }

  lemma {:induction false} NumberSnoc(s: seq<Byte>, b: Byte)
    ensures Number(s + [b]) == Number(s) + b * Pow256(|s|)
  {
    if s == [] {
      assert ([] + [b])[1..] == [];
    } else {
      assert (s + [b])[1..] == s[1..] + [b];
      NumberSnoc(s[1..], b);
      Redistribute(s[0], Number(s[1..]), b, Pow256(|s| - 1));
    }
  }

  lemma {:induction false} WeightIsNumber(s: seq<Byte>)
    ensures Weight(s) == Number(s)
  {
    if s != [] {
      WeightIsNumber(s[..|s| - 1]);
      NumberSnoc(s[..|s| - 1], s[|s| - 1]);
      assert s[..|s| - 1] + [s[|s| - 1]] == s;
    }
  }

  lemma {:induction false} OctetsEnd(v: nat)
    ensures Octets(v)[|Octets(v)| - 1] == 0 ==> v == 0 && |Octets(v)| == 1
  {
    if v >= 256 { OctetsEnd(v / 256); }
  }

  lemma {:induction false} NumberPositive(s: seq<Byte>)
    requires s != [] && s[|s| - 1] != 0
    ensures Number(s) > 0
  {
    if |s| > 1 { NumberPositive(s[1..]); }
  }

  /** Digits without a zero at the end are those of their number. */
  lemma {:induction false} DigitsAreOctets(s: seq<Byte>)
    requires s != [] && (s[|s| - 1] == 0 ==> |s| == 1)
    ensures Octets(Number(s)) == s
  {
    if |s| == 1 {
      assert s[1..] == [];
    } else {
      DigitsAreOctets(s[1..]);
      NumberPositive(s[1..]);
    }
  }

  lemma PackIsPacked(v: int)
    requires |Octets(Abs(v))| <= 8
    ensures PacksTo(v, Pack(v))
  {
    OctetsNumber(Abs(v));
    OctetsEnd(Abs(v));
    hide Octets, Number, Weight;
    var p := Pack(v);
    assert p[1..] == Octets(Abs(v)) && p[|p| - 1] == p[1..][|p| - 2];
    WeightIsNumber(p[1..]);
  }

  lemma PackedIsPack(v: int, s: seq<Byte>)
    requires PacksTo(v, s)
    ensures |Octets(Abs(v))| <= 8 && s == Pack(v)
  {
    WeightIsNumber(s[1..]);
    hide Octets, Number, Weight;
    assert s[1..][|s| - 2] == s[|s| - 1];
    DigitsAreOctets(s[1..]);
    assert s == [s[0]] + s[1..];
  }

  /** What is packed is of that form, and nothing else is. */
  lemma PackIs(v: int, s: seq<Byte>)
    ensures PacksTo(v, s) <==> |Octets(Abs(v))| <= 8 && s == Pack(v)
  {
    if |Octets(Abs(v))| <= 8 { PackIsPacked(v); }
    if PacksTo(v, s) { PackedIsPack(v, s); }
    hide PacksTo, Octets, Pack;
  }

  lemma PackExamples()
    ensures |Octets(5)| == 1 && Pack(5) == [0x01, 0x05]
    ensures |Octets(0)| == 1 && Pack(0) == [0x01, 0x00]
    ensures |Octets(300)| == 2 && Pack(-300) == [0x82, 0x2C, 0x01]
    ensures |Octets(65536)| == 3 && Pack(65536) == [0x03, 0x00, 0x00, 0x01]
  {
    assert Octets(300) == [44] + Octets(1);
    assert Octets(65536) == [0] + Octets(256);
    assert Octets(256) == [0] + Octets(1);
  }

  /** v differs from x by a multiple of 256 to the power of n. */
  ghost predicate SameModulo(v: int, x: int, n: nat) { exists k: int :: v == x + k * Pow256(n) }

  lemma Parts(v: int, p: int)
    requires p > 0
    ensures v % p == v + -(v / p) * p && v % p - p == v + (-(v / p) - 1) * p
  {
  }

  lemma WrapIs(t: IntType, v: int)
    requires t.Valid()
    ensures SameModulo(Wrap(t, v), v, t.size)
  {
    var p := Pow256(t.size);
    Parts(v, p);
    if t.signed && 2 * (v % p) >= p {
      assert Wrap(t, v) == v + (-(v / p) - 1) * p;
    } else {
      assert Wrap(t, v) == v + -(v / p) * p;
    }
  }

  lemma SameModuloMinus(w: int, x: int, v: int, n: nat)
    requires SameModulo(w, x, n) && SameModulo(v, -w, n)
    ensures SameModulo(v, -x, n)
  {
    var k :| w == x + k * Pow256(n);
    var l :| v == -w + l * Pow256(n);
    assert v == -x + (l - k) * Pow256(n);
  }

  lemma ControlBits(c: Byte, sign: nat, ignored: nat, n: nat)
    requires sign < 2 && ignored < 8 && n < 16 && c == 128 * sign + 16 * ignored + n
    ensures c % 16 == n && (c >= 128 <==> sign == 1)
  {
  }

  lemma UnpackCut(t: IntType, c: Byte, s: seq<Byte>)
    requires t.Valid()
    ensures Unpack(t, [c] + s) ==
      if (c >= 128 && !t.signed) || c % 16 > t.size || c % 16 == 0 || c % 16 > |s| then None
      else
        var w := Wrap(t, Number(s[..c % 16]));
        Some((if c >= 128 then Wrap(t, -w) else w, s[c % 16..]))
  {
    var all := [c] + s;
    if c % 16 <= |s| {
      assert all[1..c % 16 + 1] == s[..c % 16] && all[c % 16 + 1..] == s[c % 16..];
    }
    hide Wrap, Number;
  }

  lemma WrapTwice(t: IntType, s: seq<Byte>)
    requires t.Valid()
    ensures var w := Wrap(t, Number(s));
      SameModulo(w, Weight(s), t.size) && SameModulo(Wrap(t, -w), 0 - Weight(s), t.size)
  {
    hide Wrap, Number, Weight, SameModulo;
    WeightIsNumber(s);
    var w := Wrap(t, Number(s));
    WrapIs(t, Number(s));
    WrapIs(t, -w);
    SameModuloMinus(w, Number(s), Wrap(t, -w), t.size);
  }

  /** What any control byte, made of a sign, three bits that do not matter and a number of
    * bytes, makes of the bytes after it. */
  lemma UnpackIs(t: IntType, c: Byte, sign: nat, ignored: nat, n: nat, s: seq<Byte>)
    requires t.Valid() && sign < 2 && ignored < 8 && n < 16 && c == 128 * sign + 16 * ignored + n
    ensures Unpack(t, [c] + s).None? <==> n == 0 || n > t.size || n > |s| || (sign == 1 && !t.signed)
    ensures Unpack(t, [c] + s).Some? ==>
      var (v, rest) := Unpack(t, [c] + s).value;
      && n <= |s| && rest == s[n..] && InRange(t, v)
      && (sign == 1 ==> SameModulo(v, 0 - Weight(s[..n]), t.size))
      && (sign == 0 ==> SameModulo(v, Weight(s[..n]), t.size))
  {
    hide Unpack, Wrap, Number, Weight, SameModulo, InRange;
    ControlBits(c, sign, ignored, n);
    UnpackCut(t, c, s);
    if n <= |s| { WrapTwice(t, s[..n]); }
  }

  // ---------- containers ----------

  /** The values that are serialized.  A set or map is listed in the order of its keys; the
    * items of a map are pairs. */
  datatype Value =
    | Integer(i: int)
    | Text(s: seq<Byte>)
    | Two(first: Value, second: Value)
    | Many(items: seq<Value>)

  /** The type of the keys' order: any function object, as in C++. */
  type Order = (Value, Value) -> bool

  datatype Type =
    | IntOf(width: IntType)
    | String
    | Pair(first: Type, second: Type)
    | Vector(element: Type)
    | Set(element: Type, less: Order)
    | Map(key: Type, range: Type, less: Order)

  /** The type of sizes, unsigned long: four bytes where the server runs. */
  const SIZE := IntType(4, false)

  predicate WellFormed(t: Type) {
    match t
    case IntOf(it) => it.Valid()
    case String => true
    case Pair(a, b) => WellFormed(a) && WellFormed(b)
    case Vector(e) => WellFormed(e)
    case Set(e, _) => WellFormed(e)
    case Map(k, r, _) => WellFormed(k) && WellFormed(r)
  }

  /** What a set orders its elements by, and a map its pairs. */
  function Key(t: Type, v: Value): Value { if t.Map? && v.Two? then v.first else v }

  /** Every key is smaller than each later one. */
  ghost predicate Increasing(t: Type, items: seq<Value>)
    requires t.Set? || t.Map?
  {
    forall i, j :: 0 <= i < j < |items| ==> t.less(Key(t, items[i]), Key(t, items[j]))
  }

  /** v is a value of type t with fewer than 2^32 elements in every container and no least
    * value of a signed type. */
  ghost predicate Has(t: Type, v: Value)
    requires WellFormed(t)
    decreases t
  {
    match t
    case IntOf(it) => v.Integer? && Packable(it, v.i)
    case String => v.Text? && InRange(SIZE, |v.s|)
    case Pair(a, b) => v.Two? && Has(a, v.first) && Has(b, v.second)
    case Vector(e) => v.Many? && InRange(SIZE, |v.items|) && forall x :: x in v.items ==> Has(e, x)
    case Set(e, _) =>
      && v.Many? && InRange(SIZE, |v.items|) && (forall x :: x in v.items ==> Has(e, x))
      && Increasing(t, v.items)
    case Map(k, r, _) =>
      && v.Many? && InRange(SIZE, |v.items|)
      && (forall x :: x in v.items ==> x.Two? && Has(k, x.first) && Has(r, x.second))
      && Increasing(t, v.items)
  }

  /** The type of the elements between the size and the end of a container. */
  function Element(t: Type): Type
    requires t.Vector? || t.Set? || t.Map?
  {
    if t.Map? then Pair(t.key, t.range) else t.element
  }

  function Height(t: Type): nat {
    match t
    case IntOf(_) => 0
    case String => 0
    case Pair(a, b) => 1 + Height(a) + Height(b)
    case Vector(e) => 1 + Height(e)
    case Set(e, _) => 1 + Height(e)
    case Map(k, r, _) => 2 + Height(k) + Height(r)
  }

  function Sized(n: nat): seq<Byte> { if |Octets(n)| <= 8 then Pack(n) else [] }

  function Serialized(t: Type, v: Value): seq<Byte>
    decreases Height(t), 0
  {
    match t
    case IntOf(_) => if v.Integer? && |Octets(Abs(v.i))| <= 8 then Pack(v.i) else []
    case String => if v.Text? then Sized(|v.s|) + v.s else []
    case Pair(a, b) => if v.Two? then Serialized(a, v.first) + Serialized(b, v.second) else []
    case _ => if v.Many? then Sized(|v.items|) + SerializedAll(Element(t), v.items) else []
  }

  function SerializedAll(t: Type, items: seq<Value>): seq<Byte>
    decreases Height(t), 1 + |items|
  {
    if items == [] then [] else Serialized(t, items[0]) + SerializedAll(t, items[1..])
  }

  /** std::set::insert, and assignment to an element of a std::map: an equivalent key is kept,
    * and in a map gets the new item's second part. */
  function Insert(t: Type, items: seq<Value>, x: Value): seq<Value>
    requires t.Set? || t.Map?
  {
    if items == [] then [x]
    else if t.less(Key(t, items[0]), Key(t, x)) then [items[0]] + Insert(t, items[1..], x)
    else if t.less(Key(t, x), Key(t, items[0])) then [x] + items
    else if t.Map? && x.Two? then [Two(Key(t, items[0]), x.second)] + items[1..]
    else items
  }

  /** The container after its elements have been put in one by one. */
  function Filled(t: Type, items: seq<Value>): seq<Value> {
    if items == [] || !(t.Set? || t.Map?) then items
    else Insert(t, Filled(t, items[..|items| - 1]), items[|items| - 1])
  }

  /** The value at the front of s and what follows it. */
  function Deserialized(t: Type, s: seq<Byte>): Option<(Value, seq<Byte>)>
    requires WellFormed(t)
    decreases Height(t), 0
  {
    match t
    case IntOf(it) =>
      (match Unpack(it, s)
       case None => None
       case Some((i, rest)) => Some((Integer(i), rest)))
    case String =>
      (match Unpack(SIZE, s)
       case None => None
       case Some((n, rest)) => if n <= |rest| then Some((Text(rest[..n]), rest[n..])) else None)
    case Pair(a, b) =>
      (match Deserialized(a, s)
       case None => None
       case Some((x, rest)) =>
         match Deserialized(b, rest)
         case None => None
         case Some((y, rest')) => Some((Two(x, y), rest')))
    case _ =>
      (match Unpack(SIZE, s)
       case None => None
       case Some((n, rest)) =>
         match DeserializedAll(Element(t), n, rest)
         case None => None
         case Some((items, rest')) => Some((Many(Filled(t, items)), rest')))
  }

  function DeserializedAll(t: Type, n: nat, s: seq<Byte>): Option<(seq<Value>, seq<Byte>)>
    requires WellFormed(t)
    decreases Height(t), 1 + n
  {
    if n == 0 then Some(([], s))
    else
      match Deserialized(t, s)
      case None => None
      case Some((x, rest)) =>
        match DeserializedAll(t, n - 1, rest)
        case None => None
        case Some((items, rest')) => Some(([x] + items, rest'))
  }

  lemma {:induction false} InsertLast(t: Type, items: seq<Value>, x: Value)
    requires t.Set? || t.Map?
    requires forall i :: 0 <= i < |items| ==> t.less(Key(t, items[i]), Key(t, x))
    ensures Insert(t, items, x) == items + [x]
  {
    if items != [] {
      InsertLast(t, items[1..], x);
      assert [items[0]] + (items[1..] + [x]) == items + [x];
    }
  }

  /** Elements put in in increasing order stay as they are. */
  lemma {:induction false} FilledInOrder(t: Type, items: seq<Value>)
    requires t.Set? || t.Map? ==> Increasing(t, items)
    ensures Filled(t, items) == items
  {
    if items != [] && (t.Set? || t.Map?) {
      var front := items[..|items| - 1];
      FilledInOrder(t, front);
      InsertLast(t, front, items[|items| - 1]);
      assert front + [items[|items| - 1]] == items;
    }
  }

  lemma SizeReadsBack(n: nat, rest: seq<Byte>)
    requires InRange(SIZE, n)
    ensures Unpack(SIZE, Sized(n) + rest) == Some((n, rest))
  {
    PackableIsShort(SIZE, n);
    UnpackPack(SIZE, n, rest);
    hide Octets, Pack, Unpack;
  }

  ghost predicate AllHave(t: Type, items: seq<Value>)
    requires WellFormed(t)
  {
    forall i :: 0 <= i < |items| ==> Has(t, items[i])
  }

  lemma ElementHas(t: Type, v: Value)
    requires WellFormed(t) && Has(t, v) && (t.Vector? || t.Set? || t.Map?)
    ensures v.Many? && InRange(SIZE, |v.items|) && WellFormed(Element(t))
    ensures AllHave(Element(t), v.items)
    ensures t.Set? || t.Map? ==> Increasing(t, v.items)
  {
  }

  lemma PairReadsBack(t: Type, v: Value, s: seq<Byte>, mid: seq<Byte>, rest: seq<Byte>)
    requires WellFormed(t) && t.Pair? && v.Two?
    requires Deserialized(t.first, s) == Some((v.first, mid)) && Deserialized(t.second, mid) == Some((v.second, rest))
    ensures Deserialized(t, s) == Some((v, rest))
  {
  }

  lemma ManyReadBack(t: Type, s: seq<Byte>, n: nat, mid: seq<Byte>, items: seq<Value>, rest: seq<Byte>)
    requires WellFormed(t) && (t.Vector? || t.Set? || t.Map?)
    requires Unpack(SIZE, s) == Some((n, mid)) && DeserializedAll(Element(t), n, mid) == Some((items, rest))
    ensures Deserialized(t, s) == Some((Many(Filled(t, items)), rest))
  {
    hide Unpack, DeserializedAll, Filled;
  }

  lemma ManySerialized(t: Type, v: Value)
    requires (t.Vector? || t.Set? || t.Map?) && v.Many?
    ensures Serialized(t, v) == Sized(|v.items|) + SerializedAll(Element(t), v.items)
  {
    hide SerializedAll, Sized;
  }

  lemma IntegerReadsBack(t: Type, v: Value, rest: seq<Byte>)
    requires WellFormed(t) && t.IntOf? && Has(t, v)
    ensures Deserialized(t, Serialized(t, v) + rest) == Some((v, rest))
  {
    PackableIsShort(t.width, v.i);
    UnpackPack(t.width, v.i, rest);
    hide Unpack, Pack, Octets;
  }

  lemma TextReadsBack(t: Type, v: Value, rest: seq<Byte>)
    requires WellFormed(t) && t.String? && Has(t, v)
    ensures Deserialized(t, Serialized(t, v) + rest) == Some((v, rest))
  {
    SizeReadsBack(|v.s|, v.s + rest);
    hide Unpack, Sized;
    assert Sized(|v.s|) + v.s + rest == Sized(|v.s|) + (v.s + rest);
  }

  lemma Regroup(x: seq<Byte>, y: seq<Byte>, z: seq<Byte>)
    ensures x + y + z == x + (y + z)
  {
  }

  /** Every value of every type reads back from its bytes, whatever follows, and exactly its
    * bytes are consumed. */
  lemma {:induction false} ReadsBack(t: Type, v: Value, rest: seq<Byte>)
    requires WellFormed(t) && Has(t, v)
    ensures Deserialized(t, Serialized(t, v) + rest) == Some((v, rest))
    decreases Height(t), 1
  {
    match t
    case IntOf(it) => IntegerReadsBack(t, v, rest);
    case String => TextReadsBack(t, v, rest);
    case Pair(a, b) =>
      var x, y := Serialized(a, v.first), Serialized(b, v.second);
      ReadsBack(a, v.first, y + rest);
      ReadsBack(b, v.second, rest);
      assert Serialized(t, v) + rest == x + (y + rest);
      PairReadsBack(t, v, Serialized(t, v) + rest, y + rest, rest);
      hide Serialized, Deserialized, Has;
    case _ => ContainerReadsBack(t, v, rest);
  }

  lemma {:induction false} ContainerReadsBack(t: Type, v: Value, rest: seq<Byte>)
    requires WellFormed(t) && Has(t, v) && (t.Vector? || t.Set? || t.Map?)
    ensures Deserialized(t, Serialized(t, v) + rest) == Some((v, rest))
    decreases Height(t), 0
  {
    ElementHas(t, v);
    ManySerialized(t, v);
    hide Has, AllHave, Serialized, Deserialized, DeserializedAll, Filled, Unpack, SerializedAll, Increasing, Sized;
    var n, all := |v.items|, SerializedAll(Element(t), v.items);
    SizeReadsBack(n, all + rest);
    AllReadBack(Element(t), v.items, rest);
    FilledInOrder(t, v.items);
    Regroup(Sized(n), all, rest);
    ManyReadBack(t, Serialized(t, v) + rest, n, all + rest, v.items, rest);
  }

  lemma OneMore(t: Type, n: nat, s: seq<Byte>, x: Value, mid: seq<Byte>, items: seq<Value>, rest: seq<Byte>)
    requires WellFormed(t) && Deserialized(t, s) == Some((x, mid)) && DeserializedAll(t, n, mid) == Some((items, rest))
    ensures DeserializedAll(t, n + 1, s) == Some(([x] + items, rest))
  {
    hide Deserialized;
  }

  lemma FirstAndRest(t: Type, items: seq<Value>)
    requires items != []
    ensures [items[0]] + items[1..] == items
    ensures SerializedAll(t, items) == Serialized(t, items[0]) + SerializedAll(t, items[1..])
    ensures WellFormed(t) && AllHave(t, items) ==> Has(t, items[0]) && AllHave(t, items[1..])
  {
    hide Serialized, Has;
  }

  lemma {:induction false} AllReadBack(t: Type, items: seq<Value>, rest: seq<Byte>)
    requires WellFormed(t) && AllHave(t, items)
    ensures DeserializedAll(t, |items|, SerializedAll(t, items) + rest) == Some((items, rest))
    decreases Height(t), 2 + |items|
  {
    if items == [] {
      assert [] + rest == rest;
    } else {
      hide Has, AllHave, Serialized, Deserialized, SerializedAll, DeserializedAll, WellFormed;
      FirstAndRest(t, items);
      var one, others := Serialized(t, items[0]), SerializedAll(t, items[1..]);
      ReadsBack(t, items[0], others + rest);
      AllReadBack(t, items[1..], rest);
      Regroup(one, others, rest);
      OneMore(t, |items| - 1, one + (others + rest), items[0], others + rest, items[1..], rest);
    }
  }

  /** No two values share their bytes, nor do the bytes of one start those of another. */
  lemma Unambiguous(t: Type, v: Value, w: Value, r: seq<Byte>, r': seq<Byte>)
    requires WellFormed(t) && Has(t, v) && Has(t, w) && Serialized(t, v) + r == Serialized(t, w) + r'
    ensures v == w && r == r'
  {
    ReadsBack(t, v, r);
    ReadsBack(t, w, r');
    hide Has, Serialized, Deserialized;
  }
}
