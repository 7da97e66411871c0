/** The serialization routines as they write to and read from a stream buffer. */
module Streams {
  import opened Arithmetic
  import opened Framing
  import opened Grammar
  import opened Sequences

  class Stream {
    var data: seq<Byte>  // what has been written, or is still to be read

    constructor (contents: seq<Byte>)
      ensures data == contents
    {
      data := contents;
    }
  }

  lemma OctetsStep(v: nat)
    ensures v % 256 == Octets(v)[0]
    ensures v / 256 == 0 ==> Octets(v) == [v % 256]
    ensures v / 256 > 0 ==> Octets(v) == [v % 256] + Octets(v / 256)
  {
  }

  lemma Longer(before: seq<Byte>, b: Byte, item: nat, value: nat)
    requires before + ([b] + Octets(item)) == Octets(value)
    ensures (before + [b]) + Octets(item) == Octets(value) && |before| + 1 < |Octets(value)|
  {
  }

  /** The digits of the absolute value, from buf[1] on. */
  method FillBuffer(t: IntType, value: nat, buf: array<Byte>) returns (size: nat)
    requires t.Valid() && buf.Length == 9 && |Octets(value)| <= t.size
    modifies buf
    ensures 1 <= size <= t.size && buf[1..size + 1] == Octets(value)
  {
    hide Octets;
    size := t.size;
    var item := value;
    var i := 1;
    while i <= t.size
      invariant 1 <= i <= t.size
      invariant buf[1..i] + Octets(item) == Octets(value)
      decreases t.size - i
    {
      ghost var before := buf[1..i];
      OctetsStep(item);
      buf[i] := item % 256;
      item := item / 256;
      assert buf[1..i + 1] == before + [buf[i]];
      if item == 0 {
        size := i;
        break;
      }
      Longer(before, buf[i], item, value);
      i := i + 1;
    }
  }

  method PackInt(t: IntType, v: int, out: Stream)
    requires t.Valid() && Packable(t, v)
    modifies out
    ensures |Octets(Abs(v))| <= 8 && out.data == old(out.data) + Pack(v)
    ensures PacksTo(v, out.data[|old(out.data)|..])
  {
    PackableIsShort(t, v);
    PackIs(v, Pack(v));
    Front(out.data, Pack(v));
    hide Octets;
    var buf := new Byte[9](_ => 0);
    var neg := 0;
    var item := v;
    if t.signed && item < 0 {
      neg := 0x80;
      item := item * -1;
    }
    var size := FillBuffer(t, item, buf);
    ghost var digits := buf[1..size + 1];
    buf[0] := size + neg;
    assert buf[1..size + 1] == digits;
    assert buf[..size + 1] == [buf[0]] + digits;
    out.data := out.data + buf[..size + 1];
  }

  lemma Division(x: int, p: int)
    requires p > 0
    ensures x % p == x - x / p * p && x % p - p == x - (x / p + 1) * p
  {
  }

  lemma WrapQuotient(t: IntType, x: int) returns (k: int)
    requires t.Valid()
    ensures Wrap(t, x) == x - k * Pow256(t.size)
  {
    var p := Pow256(t.size);
    k := x / p + if Wrap(t, x) == x % p then 0 else 1;
    Division(x, p);
  }

  lemma Expand(x: int, k: int, p: int, b: int)
    ensures x * 256 + b == ((x - k * p) * 256 + b) + p * (k * 256)
  {
  }

  lemma SameRemainder(x: int, y: int, p: int, k: int)
    requires p > 0 && y == x + p * k
    ensures x % p == y % p
  {
    assert y == p * (x / p + k) + x % p;
    Euclid(y, p, y / p, x / p + k, y % p, x % p);
  }

  lemma Congruent(t: IntType, x: int, b: Byte)
    requires t.Valid()
    ensures Wrap(t, Wrap(t, x) * 256 + b) == Wrap(t, x * 256 + b)
  {
    var p := Pow256(t.size);
    var k := WrapQuotient(t, x);
    Expand(x, k, p, b);
    SameRemainder((x - k * p) * 256 + b, x * 256 + b, p, k * 256);
  }

  lemma NumberStep(s: seq<Byte>, i: nat)
    requires i < |s|
    ensures Number(s[i..]) == Number(s[i + 1..]) * 256 + s[i]
  {
    assert s[i..][1..] == s[i + 1..];
  }

  lemma WrapZero(t: IntType)
    requires t.Valid()
    ensures Wrap(t, Number([])) == 0
  {
    Residue(0, Pow256(t.size));
  }

  /** The digits from the most significant down. */
  method ReadBuffer(t: IntType, buf: seq<Byte>) returns (item: int)
    requires t.Valid() && |buf| > 0
    ensures item == Wrap(t, Number(buf))
  {
    hide Wrap, Number;
    item := 0;
    WrapZero(t);
    assert buf[|buf|..] == [];
    var i := |buf| - 1;
    while true
      invariant 0 <= i < |buf| && item == Wrap(t, Number(buf[i + 1..]))
      decreases i
    {
      Congruent(t, Number(buf[i + 1..]), buf[i]);
      NumberStep(buf, i);
      item := Wrap(t, item * 256 + buf[i]);
      if i == 0 { break; }
      i := i - 1;
    }
    assert buf[0..] == buf;
  }

  method UnpackInt(t: IntType, input: Stream) returns (failed: bool, item: int)
    requires t.Valid()
    modifies input
    ensures match Unpack(t, old(input.data))
      case None => failed
      case Some((v, rest)) => !failed && item == v && input.data == rest
  {
    hide Wrap, Number;
    item := 0;
    if input.data == [] {
      return true, 0;
    }
    var size: int := input.data[0];
    ghost var s := input.data;
    input.data := input.data[1..];
    var negative := false;
    if t.signed {
      negative := size >= 0x80;
      size := size % 16;
    } else {
      size := size / 128 * 128 + size % 16;
    }
    if size > t.size || size == 0 {
      return true, 0;
    }
    if |input.data| < size {
      return true, 0;
    }
    var buf := input.data[..size];
    assert buf == s[1..size + 1];
    input.data := input.data[size..];
    item := ReadBuffer(t, buf);
    if negative {
      item := Wrap(t, item * -1);
    }
    failed := false;
  }

  // ---------- containers ----------

  method PackSize(n: nat, out: Stream)
    requires InRange(SIZE, n)
    modifies out
    ensures out.data == old(out.data) + Sized(n)
  {
    PackInt(SIZE, n, out);
  }

  lemma NoneSerialized(t: Type)
    ensures SerializedAll(t, []) == []
  {
  }

  lemma NextSerialized(t: Type, items: seq<Value>, i: nat, data: seq<Byte>)
    requires i < |items|
    ensures data + SerializedAll(t, items[i..]) == data + Serialized(t, items[i]) + SerializedAll(t, items[i + 1..])
    ensures WellFormed(t) && AllHave(t, items) ==> Has(t, items[i])
  {
    FirstAndRest(t, items[i..]);
    assert items[i..][1..] == items[i + 1..];
    Regroup(data, Serialized(t, items[i]), SerializedAll(t, items[i + 1..]));
    hide Serialized, SerializedAll, Has;
  }

  method SerializeValue(t: Type, v: Value, out: Stream)
    requires WellFormed(t) && Has(t, v)
    modifies out
    ensures out.data == old(out.data) + Serialized(t, v)
    decreases Height(t), 1
  {
    match t {
      case IntOf(it) => PackInt(it, v.i, out);
      case String =>
        PackSize(|v.s|, out);
        out.data := out.data + v.s;
      case Pair(a, b) =>
        SerializeValue(a, v.first, out);
        SerializeValue(b, v.second, out);
        Regroup(old(out.data), Serialized(a, v.first), Serialized(b, v.second));
      case _ => SerializeMany(t, v, out);
    }
  }

  /** What is serialized is what the grammar says is written for v. */
  method Serialize(t: Type, v: Value, out: Stream)
    requires WellFormed(t) && Has(t, v)
    modifies out
    ensures out.data == old(out.data) + Serialized(t, v)
    ensures Written(t, v, out.data[|old(out.data)|..])
  {
    SerializeValue(t, v, out);
    WrittenIs(t, v, Serialized(t, v));
    Front(old(out.data), Serialized(t, v));
  }

  /** Vectors, sets and maps: the size, then the elements in order. */
  method SerializeMany(t: Type, v: Value, out: Stream)
    requires WellFormed(t) && Has(t, v) && (t.Vector? || t.Set? || t.Map?)
    modifies out
    ensures out.data == old(out.data) + Serialized(t, v)
    decreases Height(t), 0
  {
    ElementHas(t, v);
    ManySerialized(t, v);
    hide Serialized, Has, WellFormed, Sized, SerializedAll, InRange;
    ghost var start := old(out.data) + Sized(|v.items|);
    PackSize(|v.items|, out);
    NoneSerialized(Element(t));
    for i := 0 to |v.items|
      invariant out.data + SerializedAll(Element(t), v.items[i..]) == start + SerializedAll(Element(t), v.items)
    {
      NextSerialized(Element(t), v.items, i, out.data);
      SerializeValue(Element(t), v.items[i], out);
    }
    assert v.items[|v.items|..] == [];
    Regroup(old(out.data), Sized(|v.items|), SerializedAll(Element(t), v.items));
  }

  function Prepend(done: seq<Value>, o: Option<(seq<Value>, seq<Byte>)>): Option<(seq<Value>, seq<Byte>)> {
    if o.None? then None else Some((done + o.value.0, o.value.1))
  }

  /** Reading n elements from `start` has come to `data`, with `done` read and `left` to go. */
  ghost predicate Reading(t: Type, n: nat, start: seq<Byte>, done: seq<Value>, left: nat, data: seq<Byte>)
    requires WellFormed(t)
  {
    DeserializedAll(t, n, start) == Prepend(done, DeserializedAll(t, left, data))
  }

  lemma ReadingStarts(t: Type, n: nat, start: seq<Byte>)
    requires WellFormed(t)
    ensures Reading(t, n, start, [], n, start)
  {
    hide DeserializedAll;
    if DeserializedAll(t, n, start).Some? {
      assert [] + DeserializedAll(t, n, start).value.0 == DeserializedAll(t, n, start).value.0;
    }
  }

  lemma Shift(done: seq<Value>, x: Value, items: seq<Value>)
    ensures done + ([x] + items) == (done + [x]) + items
  {
  }

  lemma ReadingStep(t: Type, n: nat, start: seq<Byte>, done: seq<Value>, left: nat, data: seq<Byte>)
    requires WellFormed(t) && left > 0 && Reading(t, n, start, done, left, data)
    ensures match Deserialized(t, data)
      case None => DeserializedAll(t, n, start) == None
      case Some((x, rest)) => Reading(t, n, start, done + [x], left - 1, rest)
  {
    hide Deserialized;
    if Deserialized(t, data).Some? {
      var (x, rest) := Deserialized(t, data).value;
      if DeserializedAll(t, left - 1, rest).Some? {
        Shift(done, x, DeserializedAll(t, left - 1, rest).value.0);
      }
    }
  }

  lemma ReadingDone(t: Type, n: nat, start: seq<Byte>, done: seq<Value>, data: seq<Byte>)
    requires WellFormed(t) && Reading(t, n, start, done, 0, data)
    ensures DeserializedAll(t, n, start) == Some((done, data))
  {
    assert done + [] == done;
  }

  lemma FilledNext(t: Type, items: seq<Value>, x: Value)
    ensures Filled(t, []) == []
    ensures Filled(t, items + [x]) == if t.Set? ||
      t.Map? then Insert(t, Filled(t, items), x) else Filled(t, items) + [x]
  {
    assert (items + [x])[..|items|] == items;
  }

  method DeserializeText(input: Stream) returns (r: Option<Value>)
    modifies input
    ensures match Deserialized(String, old(input.data))
      case None => r == None
      case Some((v, rest)) => r == Some(v) && input.data == rest
  {
    var failed, size := UnpackInt(SIZE, input);
    if failed || size > |input.data| { return None; }
    r := Some(Text(input.data[..size]));
    input.data := input.data[size..];
  }

  lemma ManyDeserialized(t: Type, s: seq<Byte>)
    requires WellFormed(t) && (t.Vector? || t.Set? || t.Map?)
    ensures WellFormed(Element(t))
    ensures Unpack(SIZE, s) == None ==> Deserialized(t, s) == None
    ensures Unpack(SIZE, s).Some? ==>
      var (n, mid) := Unpack(SIZE, s).value;
      var all := DeserializedAll(Element(t), n, mid);
      Deserialized(t, s) == if all.None? then None else Some((Many(Filled(t, all.value.0)), all.value.1))
  {
    hide DeserializedAll, Unpack, Filled;
  }

  lemma FilledNone(t: Type)
    ensures Filled(t, []) == []
  {
  }

  method Deserialize(t: Type, input: Stream) returns (r: Option<Value>)
    requires WellFormed(t)
    modifies input
    ensures match Deserialized(t, old(input.data))
      case None => r == None
      case Some((v, rest)) => r == Some(v) && input.data == rest
    decreases Height(t), 2
  {
    match t {
      case IntOf(it) =>
        var failed, item := UnpackInt(it, input);
        r := if failed then None else Some(Integer(item));
      case String =>
        r := DeserializeText(input);
      case Pair(a, b) =>
        var x := Deserialize(a, input);
        if x == None { return None; }
        var y := Deserialize(b, input);
        r := if y == None then None else Some(Two(x.value, y.value));
      case _ =>
        r := DeserializeMany(t, input);
    }
  }

  method DeserializeMany(t: Type, input: Stream) returns (r: Option<Value>)
    requires WellFormed(t) && (t.Vector? || t.Set? || t.Map?)
    modifies input
    ensures match Deserialized(t, old(input.data))
      case None => r == None
      case Some((v, rest)) => r == Some(v) && input.data == rest
    decreases Height(t), 1
  {
    ManyDeserialized(t, input.data);
    hide Deserialized, DeserializedAll, Unpack, Filled;
    var failed, size := UnpackInt(SIZE, input);
    if failed { return None; }
    var items := DeserializeItems(t, size, input);
    r := if items == None then None else Some(Many(items.value));
  }

  /** The elements one by one: stored in a vector, inserted into a set, assigned in a map. */
  method DeserializeItems(t: Type, size: nat, input: Stream) returns (r: Option<seq<Value>>)
    requires (t.Vector? || t.Set? || t.Map?) && WellFormed(t) && WellFormed(Element(t))
    modifies input
    ensures match DeserializedAll(Element(t), size, old(input.data))
      case None => r == None
      case Some((items, rest)) => r == Some(Filled(t, items)) && input.data == rest
    decreases Height(t), 0
  {
    hide Deserialized, DeserializedAll, Filled, Insert, Reading, WellFormed;
    ghost var e, start := Element(t), input.data;
    ghost var done: seq<Value> := [];
    var item: seq<Value> := [];
    ReadingStarts(e, size, start);
    FilledNone(t);
    for i := 0 to size
      invariant Reading(e, size, start, done, size - i, input.data) && item == Filled(t, done)
    {
      ReadingStep(e, size, start, done, size - i, input.data);
      var x := Deserialize(Element(t), input);
      if x == None { return None; }
      FilledNext(t, done, x.value);
      item := if t.Vector? then item + [x.value] else Insert(t, item, x.value);
      done := done + [x.value];
    }
    ReadingDone(e, size, start, done, input.data);
    r := Some(item);
  }
}
