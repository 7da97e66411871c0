/** The base64 content transfer encoding of section 6.8 of RFC 2045. */
module Base64 {
  import opened Digits
  import opened Sequences
  import Shifts

  const BAD: Byte := 100
  const PAD: Byte := 61
  const GROUPS_PER_LINE := 19

  /** The base64 alphabet, table 1 of RFC 2045. */
  const ALPHABET := "ABCDEFGHIJKLM" + "NOPQRSTUVWXYZ" + "abcdefghijklm" + "nopqrstuvwxyz" + "0123456789" + "+/"

  datatype LineEnding = CR | LF | CRLF

  /** A letter by its number. */
  function Letter(i: int): Byte
    requires 0 <= i < 64
  {
    if i < 26 then 65 + i else if i < 52 then 97 + (i - 26) else if i < 62 then 48 + (i - 52)
    else if i == 62 then 43 else 47
  }

  /** The number a letter stands for. */
  function Value(c: Byte): (v: Byte)
    ensures (v < 64 && Letter(v) == c) || (v == BAD && forall i :: 0 <= i < 64 ==> Letter(i) != c)
  {
    if 65 <= c <= 90 then c - 65 else if 97 <= c <= 122 then c - 71 else if 48 <= c <= 57 then c + 4
    else if c == 43 then 62 else if c == 47 then 63 else BAD
  }

  lemma LetterValue(i: int)
    requires 0 <= i < 64
    ensures Value(Letter(i)) == i && Letter(i) != PAD && Letter(i) != 10 && Letter(i) != 13
  {
  }

  lemma ShortRun(s: string, i: int)
    requires 0 <= i < |s|
    requires s == "ABCDEFGHIJKLM" || s == "NOPQRSTUVWXYZ" || s == "abcdefghijklm" || s == "nopqrstuvwxyz"
      || s == "0123456789"
    ensures s[i] as int == s[0] as int + i
  {
    assert i == 0 || i == 1 || i == 2 || i == 3 || i == 4 || i == 5 || i == 6 || i == 7 || i == 8 || i == 9 || i == 10
      || i == 11 || i == 12;
  }

  /** The letters are the characters of the alphabet. */
  lemma LetterIs(i: int)
    requires 0 <= i < 64
    ensures |ALPHABET| == 64 && Letter(i) == ALPHABET[i] as int
  {
    if i < 13 {
      ShortRun("ABCDEFGHIJKLM", i);
    } else if i < 26 {
      ShortRun("NOPQRSTUVWXYZ", i - 13);
    } else if i < 39 {
      ShortRun("abcdefghijklm", i - 26);
    } else if i < 52 {
      ShortRun("nopqrstuvwxyz", i - 39);
    } else if i < 62 {
      ShortRun("0123456789", i - 52);
    } else {
      assert "+/"[0] == '+' && "+/"[1] == '/';
    }
  }

  lemma {:induction false} OrBound(x: nat, y: nat, k: nat)
    requires x < Pow2(k) && y < Pow2(k)
    ensures Shifts.Or(x, y) < Pow2(k)
  {
    if x > 0 && y > 0 && k > 0 { OrBound(x / 2, y / 2, k - 1); }
  }

  lemma SmallPowers()
    ensures Pow2(2) == 4 && Pow2(4) == 16 && Pow2(6) == 64 && Pow2(8) == 256
  {
    assert Pow2(4) == 2 * Pow2(3);
    assert Pow2(6) == 2 * Pow2(5);
    assert Pow2(8) == 2 * Pow2(7);
  }

  function Or(x: Byte, y: Byte): Byte {
    SmallPowers();
    OrBound(x, y, 8);
    Shifts.Or(x, y)
  }

  /** Bytes without a common bit are or-ed by adding them. */
  lemma OrAdds(l: nat, h: nat)
    ensures h < 4 && l < 64 ==> Or(l * 4, h) == l * 4 + h
    ensures h < 16 && l < 16 ==> Or(l * 16, h) == l * 16 + h
    ensures h < 64 && l < 4 ==> Or(l * 64, h) == l * 64 + h
  {
    SmallPowers();
    if h < 4 { Shifts.OrDisjoint(l, 2, h); }
    if h < 16 { Shifts.OrDisjoint(l, 4, h); }
    if h < 64 { Shifts.OrDisjoint(l, 6, h); }
  }

  // ---------- one group ----------

  /** The four characters are the base-64 digits of the 24 bits. */
  lemma Sextets(b0: Byte, b1: Byte, b2: Byte)
    ensures Or(b0 % 4 * 16, b1 / 16) == b0 % 4 * 16 + b1 / 16 < 64
    ensures Or(b1 % 16 * 4, b2 / 64) == b1 % 16 * 4 + b2 / 64 < 64
    ensures ((b0 / 4 * 64 + (b0 % 4 * 16 + b1 / 16)) * 64 + (b1 % 16 * 4 + b2 / 64)) * 64 + b2 % 64
            == (b0 * 256 + b1) * 256 + b2
  {
    OrAdds(b0 % 4, b1 / 16);
    OrAdds(b1 % 16, b2 / 64);
  }

  /** Three bytes, or fewer at the end of the input, as four characters. */
  function Group(g: seq<Byte>): (r: seq<Byte>)
    requires 1 <= |g| <= 3
    ensures |r| == 4
  {
    var b1 := if |g| > 1 then g[1] else 0;
    var b2 := if |g| > 2 then g[2] else 0;
    Sextets(g[0], b1, b2);
    [Letter(g[0] / 4), Letter(Or(g[0] % 4 * 16, b1 / 16)),
     if |g| > 1 then Letter(Or(b1 % 16 * 4, b2 / 64)) else PAD,
     if |g| > 2 then Letter(b2 % 64) else PAD]
  }

  /** Four characters as one to three bytes. */
  function Ungroup(q: seq<Byte>): seq<Byte>
    requires |q| == 4
  {
    var v0, v1, v2, v3 := Value(q[0]), Value(q[1]), Value(q[2]), Value(q[3]);
    var bytes := [Or(v0 * 4 % 256, v1 / 16), Or(v1 * 16 % 256, v2 / 4), Or(v2 * 64 % 256, v3)];
    bytes[..if q[3] != PAD then 3 else if q[2] == PAD then 1 else 2]
  }

  lemma SplitHigh(x: nat, y: nat)
    requires x < 4 && y < 16
    ensures (x * 16 + y) / 16 == x && (x * 16 + y) * 16 % 256 == y * 16
  {
  }

  lemma SplitLow(x: nat, y: nat)
    requires x < 16 && y < 4
    ensures (x * 4 + y) / 4 == x && (x * 4 + y) * 64 % 256 == y * 64
  {
  }

  lemma Rejoin4(b: Byte)
    ensures Or(b / 4 * 4 % 256, b % 4) == b
  {
    hide Or;
    var high, low := b / 4, b % 4;
    assert high < 64 && b == high * 4 + low && high * 4 % 256 == high * 4;
    OrAdds(high, low);
  }

  lemma Rejoin16(b: Byte)
    ensures Or(b / 16 * 16, b % 16) == b
  {
    OrAdds(b / 16, b % 16);
    hide Or;
  }

  lemma Rejoin64(b: Byte)
    ensures Or(b / 64 * 64, b % 64) == b
  {
    OrAdds(b / 64, b % 64);
    hide Or;
  }

  /** The shifts and masks of the decoder undo those of the encoder. */
  lemma Bytes(b0: Byte, b1: Byte, b2: Byte)
    ensures Or(b0 / 4 * 4 % 256, (b0 % 4 * 16 + b1 / 16) / 16) == b0
    ensures Or((b0 % 4 * 16 + b1 / 16) * 16 % 256, (b1 % 16 * 4 + b2 / 64) / 4) == b1
    ensures Or((b1 % 16 * 4 + b2 / 64) * 64 % 256, b2 % 64) == b2
  {
    hide Or;
    Rejoin4(b0);
    Rejoin16(b1);
    Rejoin64(b2);
    SplitHigh(b0 % 4, b1 / 16);
    SplitLow(b1 % 16, b2 / 64);
  }

  lemma GroupValues(g: seq<Byte>)
    requires 1 <= |g| <= 3
    ensures var q, b1, b2 := Group(g), if |g| > 1 then g[1] else 0, if |g| > 2 then g[2] else 0;
      && Value(q[0]) == g[0] / 4 && Value(q[1]) == g[0] % 4 * 16 + b1 / 16
      && (|g| > 1 ==> Value(q[2]) == b1 % 16 * 4 + b2 / 64) && (q[2] == PAD <==> |g| == 1)
      && (|g| > 2 ==> Value(q[3]) == b2 % 64) && (q[3] == PAD <==> |g| < 3)
  {
    var b1 := if |g| > 1 then g[1] else 0;
    var b2 := if |g| > 2 then g[2] else 0;
    Sextets(g[0], b1, b2);
    LetterValue(g[0] / 4);
    LetterValue(g[0] % 4 * 16 + b1 / 16);
    LetterValue(b1 % 16 * 4 + b2 / 64);
    LetterValue(b2 % 64);
    hide Or, Letter, Value;
  }

  lemma UngroupGroup(g: seq<Byte>)
    requires 1 <= |g| <= 3
    ensures Ungroup(Group(g)) == g
  {
    hide Or, Letter, Value, Group;
    GroupValues(g);
    var b1 := if |g| > 1 then g[1] else 0;
    var b2 := if |g| > 2 then g[2] else 0;
    Bytes(g[0], b1, b2);
  }

  // ---------- whole streams ----------

  function LineBreak(eol: LineEnding): seq<Byte> {
    match eol
    case CR => [13]
    case LF => [10]
    case CRLF => [13, 10]
  }

  function Shorter(a: nat, b: nat): (r: nat)
    ensures r <= a && r <= b && (r == a || r == b)
  {
    if a < b then a else b
  }

  lemma Assoc(s: seq<Byte>, t: seq<Byte>, u: seq<Byte>)
    ensures s + t + u == s + (t + u)
  {
  }

  /** The groups of s, a line break before each one that finds the line full; `counter` groups
    * still fit in the current line. */
  function Encoded(s: seq<Byte>, eol: LineEnding, counter: nat): seq<Byte> {
    if s == [] then []
    else
      var k := Shorter(3, |s|);
      if counter == 0 then LineBreak(eol) + Group(s[..k]) + Encoded(s[k..], eol, GROUPS_PER_LINE - 1)
      else Group(s[..k]) + Encoded(s[k..], eol, counter - 1)
  }

  /** The characters the decoder takes: letters, and padding unless it comes first of all. */
  predicate Taken(c: Byte, first: bool) { Value(c) != BAD || (c == PAD && !first) }

  function Kept(s: seq<Byte>, first: bool): seq<Byte> {
    if s == [] then [] else (if Taken(s[0], first) then [s[0]] else []) + Kept(s[1..], false)
  }

  /** Each four characters turned back. */
  function Ungrouped(k: seq<Byte>): seq<Byte> {
    if |k| < 4 then [] else Ungroup(k[..4]) + Ungrouped(k[4..])
  }

  lemma KeptStep(s: seq<Byte>, t: seq<Byte>, first: bool)
    requires s != []
    ensures Kept(s + t, first) == (if Taken(s[0], first) then [s[0]] else []) + Kept(s[1..] + t, false)
  {
    hide Taken;
    assert (s + t)[1..] == s[1..] + t;
  }

  lemma {:induction false} KeptConcat(s: seq<Byte>, t: seq<Byte>, first: bool)
    ensures Kept(s + t, first) == Kept(s, first) + Kept(t, first && s == [])
  {
    if s == [] {
      assert s + t == t;
    } else {
      KeptStep(s, t, first);
      KeptStep(s, [], first);
      assert s + [] == s && s[1..] + [] == s[1..];
      hide Kept, Taken;
      KeptConcat(s[1..], t, false);
      Assoc(if Taken(s[0], first) then [s[0]] else [], Kept(s[1..], false), Kept(t, false));
    }
  }

  lemma {:induction false} UngroupedConcat(s: seq<Byte>, t: seq<Byte>)
    requires |s| % 4 == 0
    ensures Ungrouped(s + t) == Ungrouped(s) + Ungrouped(t)
  {
    hide Ungroup;
    if s == [] {
      assert s + t == t;
    } else {
      assert (s + t)[..4] == s[..4] && (s + t)[4..] == s[4..] + t;
      UngroupedConcat(s[4..], t);
    }
  }

  /** One more character. */
  lemma KeptNext(s: seq<Byte>, pos: nat)
    requires pos < |s|
    ensures Kept(s[..pos + 1], true) == Kept(s[..pos], true) + if Taken(s[pos], pos == 0) then [s[pos]] else []
  {
    hide Taken;
    assert s[..pos + 1] == s[..pos] + [s[pos]];
    KeptConcat(s[..pos], [s[pos]], true);
    assert Kept([s[pos]], pos == 0) == if Taken(s[pos], pos == 0) then [s[pos]] else [];
  }

  lemma UngroupedNext(done: seq<Byte>, q: seq<Byte>)
    requires |done| % 4 == 0 && |q| <= 4
    ensures Ungrouped(done + q) == Ungrouped(done) + if |q| == 4 then Ungroup(q) else []
  {
    hide Ungroup;
    UngroupedConcat(done, q);
    assert q[..|q|] == q;
    assert |q| == 4 ==> Ungrouped(q[4..]) == [];
  }

  lemma KeptOne(c: Byte, rest: seq<Byte>, first: bool)
    requires Taken(c, first)
    ensures Kept([c] + rest, first) == [c] + Kept(rest, false)
  {
    assert ([c] + rest)[1..] == rest;
  }

  lemma KeptNone()
    ensures Kept([], false) == []
  {
  }

  lemma KeptGroup(g: seq<Byte>, first: bool)
    requires 1 <= |g| <= 3
    ensures Kept(Group(g), first) == Group(g)
  {
    var q := Group(g);
    GroupValues(g);
    hide Group, Value, Kept;
    assert q == [q[0]] + ([q[1]] + ([q[2]] + ([q[3]] + [])));
    KeptOne(q[0], [q[1]] + ([q[2]] + ([q[3]] + [])), first);
    KeptOne(q[1], [q[2]] + ([q[3]] + []), false);
    KeptOne(q[2], [q[3]] + [], false);
    KeptOne(q[3], [], false);
    assert Kept([], false) == [] by { KeptNone(); }
  }

  lemma KeptUngroupedNone()
    ensures Kept([], true) == [] && Ungrouped([]) == []
  {
  }

  lemma KeptLineBreak(eol: LineEnding, rest: seq<Byte>)
    ensures Kept(LineBreak(eol) + rest, false) == Kept(rest, false)
  {
    assert ([13] + rest)[1..] == rest && ([10] + rest)[1..] == rest;
    assert ([13, 10] + rest)[1..] == [10] + rest;
  }

  lemma KeptPiece(g: seq<Byte>, rest: seq<Byte>, first: bool)
    requires 1 <= |g| <= 3
    ensures Kept(Group(g) + rest, first) == Group(g) + Kept(rest, false)
  {
    KeptGroup(g, first);
    KeptConcat(Group(g), rest, first);
  }

  /** The groups of s without the line breaks. */
  function Groups(s: seq<Byte>): (r: seq<Byte>)
    ensures |r| % 4 == 0
  {
    if s == [] then [] else Group(s[..Shorter(3, |s|)]) + Groups(s[Shorter(3, |s|)..])
  }

  /** The decoder takes exactly the groups. */
  lemma {:induction false} KeptEncoded(s: seq<Byte>, eol: LineEnding, counter: nat, first: bool)
    requires first ==> counter > 0
    ensures Kept(Encoded(s, eol, counter), first) == Groups(s)
    decreases |s|
  {
    if s == [] {
    } else {
      hide Kept, Group, LineBreak;
      var k := Shorter(3, |s|);
      var left := if counter == 0 then GROUPS_PER_LINE - 1 else counter - 1;
      var rest := Encoded(s[k..], eol, left);
      KeptEncoded(s[k..], eol, left, false);
      KeptPiece(s[..k], rest, first);
      if counter == 0 {
        KeptLineBreak(eol, Group(s[..k]) + rest);
        assert LineBreak(eol) + Group(s[..k]) + rest == LineBreak(eol) + (Group(s[..k]) + rest);
      }
    }
  }

  lemma UngroupedPiece(g: seq<Byte>, rest: seq<Byte>)
    requires 1 <= |g| <= 3
    ensures Ungrouped(Group(g) + rest) == g + Ungrouped(rest)
  {
    UngroupGroup(g);
    hide Group, Ungroup;
    assert (Group(g) + rest)[..4] == Group(g) && (Group(g) + rest)[4..] == rest;
  }

  lemma GroupsStep(s: seq<Byte>)
    requires s != []
    ensures Groups(s) == Group(s[..Shorter(3, |s|)]) + Groups(s[Shorter(3, |s|)..])
  {
  }

  lemma UngroupedStep(s: seq<Byte>, k: nat)
    requires s != [] && k == Shorter(3, |s|) && Ungrouped(Groups(s[k..])) == s[k..]
    ensures Ungrouped(Groups(s)) == s
  {
    GroupsStep(s);
    assert 1 <= |s[..k]| <= 3;
    hide Group, Ungroup, Ungrouped, Groups;
    UngroupedPiece(s[..k], Groups(s[k..]));
    assert s[..k] + s[k..] == s;
  }

  lemma {:induction false} UngroupedGroups(s: seq<Byte>)
    ensures Ungrouped(Groups(s)) == s
    decreases |s|
  {
    if s == [] {
    } else {
      UngroupedGroups(s[Shorter(3, |s|)..]);
      UngroupedStep(s, Shorter(3, |s|));
    }
  }

  lemma GroupIsAscii(g: seq<Byte>)
    requires 1 <= |g| <= 3
    ensures forall i :: 0 <= i < 4 ==> Group(g)[i] < 128
  {
  }

  lemma {:induction false} EncodedIsAscii(s: seq<Byte>, eol: LineEnding, counter: nat)
    ensures forall i :: 0 <= i < |Encoded(s, eol, counter)| ==> Encoded(s, eol, counter)[i] < 128
    decreases |s|
  {
    if s != [] {
      var k := Shorter(3, |s|);
      GroupIsAscii(s[..k]);
      EncodedIsAscii(s[k..], eol, if counter == 0 then GROUPS_PER_LINE - 1 else counter - 1);
      hide Group;
    }
  }

  /** Decoding what was encoded gives it back, whatever the line ending. */
  lemma RoundTrip(s: seq<Byte>, eol: LineEnding)
    ensures var text := Encoded(s, eol, GROUPS_PER_LINE);
      && (forall i :: 0 <= i < |text| ==> text[i] != 255)
      && |Kept(text, true)| % 4 == 0 && Ungrouped(Kept(text, true)) == s
  {
    EncodedIsAscii(s, eol, GROUPS_PER_LINE);
    KeptEncoded(s, eol, GROUPS_PER_LINE, true);
    UngroupedGroups(s);
  }

  // ---------- the text of an encoding ----------

  /** Byte j of s, 0 behind the end. */
  function ByteAt(s: seq<Byte>, j: nat): Byte { if j < |s| then s[j] else 0 }

  /** The 24 bits of the group that starts at byte j. */
  function Bits(s: seq<Byte>, j: nat): nat { ByteAt(s, j) * 65536 + ByteAt(s, j + 1) * 256 + ByteAt(s, j + 2) }

  /** Character i of the text for s: six of the bits of its group, from the highest down, or
    * an equals sign behind the end of s. */
  ghost predicate IsCharacter(s: seq<Byte>, i: nat, c: Byte) {
    var bits := Bits(s, i / 4 * 3);
    |ALPHABET| == 64 &&
    if i / 4 * 3 + i % 4 > |s| then c == '=' as int
    else if i % 4 == 0 then c == ALPHABET[bits / 262144 % 64] as int
    else if i % 4 == 1 then c == ALPHABET[bits / 4096 % 64] as int
    else if i % 4 == 2 then c == ALPHABET[bits / 64 % 64] as int
    else c == ALPHABET[bits % 64] as int
  }

  /** text is the base64 text of s without line breaks. */
  ghost predicate Spells(s: seq<Byte>, text: seq<Byte>) {
    |text| == (|s| + 2) / 3 * 4 && forall i :: 0 <= i < |text| ==> IsCharacter(s, i, text[i])
  }

  lemma SixBits(a: nat, b: nat, c: nat, d: nat)
    requires a < 64 && b < 64 && c < 64 && d < 64
    ensures var n := ((a * 64 + b) * 64 + c) * 64 + d;
      n / 262144 % 64 == a && n / 4096 % 64 == b && n / 64 % 64 == c && n % 64 == d
  {
  }

  lemma GroupBits(b0: Byte, b1: Byte, b2: Byte)
    ensures var n := b0 * 65536 + b1 * 256 + b2;
      && n / 262144 % 64 == b0 / 4 && n / 4096 % 64 == b0 % 4 * 16 + b1 / 16
      && n / 64 % 64 == b1 % 16 * 4 + b2 / 64 && n % 64 == b2 % 64
  {
    Sextets(b0, b1, b2);
    SixBits(b0 / 4, b0 % 4 * 16 + b1 / 16, b1 % 16 * 4 + b2 / 64, b2 % 64);
  }

  lemma GroupLetters(g: seq<Byte>)
    requires 1 <= |g| <= 3
    ensures var n, q := Bits(g, 0), Group(g);
      && q[0] == Letter(n / 262144 % 64) && q[1] == Letter(n / 4096 % 64)
      && q[2] == (if |g| > 1 then Letter(n / 64 % 64) else PAD) && q[3] == if |g| > 2 then Letter(n % 64) else PAD
  {
    hide Or, Letter;
    Sextets(g[0], ByteAt(g, 1), ByteAt(g, 2));
    GroupBits(g[0], ByteAt(g, 1), ByteAt(g, 2));
  }

  lemma GroupSpells(g: seq<Byte>)
    requires 1 <= |g| <= 3
    ensures Spells(g, Group(g))
  {
    hide Bits, Group, Letter, ALPHABET;
    var n, q := Bits(g, 0), Group(g);
    GroupLetters(g);
    LetterIs(n / 262144 % 64);
    LetterIs(n / 4096 % 64);
    LetterIs(n / 64 % 64);
    LetterIs(n % 64);
    assert IsCharacter(g, 0, q[0]) && IsCharacter(g, 1, q[1]) && IsCharacter(g, 2, q[2]) && IsCharacter(g, 3, q[3]);
    forall i | 0 <= i < 4 ensures IsCharacter(g, i, q[i]) {
      assert i == 0 || i == 1 || i == 2 || i == 3;
    }
  }

  lemma CharacterMoves(g: seq<Byte>, s: seq<Byte>, i: nat, c: Byte)
    requires |g| == 3 && IsCharacter(s, i, c)
    ensures IsCharacter(g + s, i + 4, c)
  {
    hide ALPHABET;
    var j, k := i / 4 * 3, (i + 4) / 4 * 3;
    assert k == j + 3 && (i + 4) % 4 == i % 4;
    assert ByteAt(g + s, k) == ByteAt(s, j) && ByteAt(g + s, k + 1) == ByteAt(s, j + 1)
      && ByteAt(g + s, k + 2) == ByteAt(s, j + 2);
  }

  lemma CharacterStays(g: seq<Byte>, s: seq<Byte>, i: nat, c: Byte)
    requires |g| == 3 && i < 4 && IsCharacter(g, i, c)
    ensures IsCharacter(g + s, i, c)
  {
    hide ALPHABET;
    assert Bits(g + s, 0) == Bits(g, 0);
  }

  /** A full group in front moves every character four places on. */
  lemma SpellsConcat(g: seq<Byte>, q: seq<Byte>, s: seq<Byte>, t: seq<Byte>)
    requires Spells(g, q) && Spells(s, t) && (|g| == 3 || s == [])
    ensures Spells(g + s, q + t)
  {
    hide IsCharacter;
    if s == [] {
      assert g + s == g && q + t == q;
    } else {
      assert |q| == 4;
      forall i | 0 <= i < |q + t| ensures IsCharacter(g + s, i, (q + t)[i]) {
        if i < 4 {
          CharacterStays(g, s, i, q[i]);
        } else {
          CharacterMoves(g, s, i - 4, t[i - 4]);
        }
      }
    }
  }

  /** The groups spell s. */
  lemma {:induction false} GroupsSpell(s: seq<Byte>)
    ensures Spells(s, Groups(s))
    decreases |s|
  {
    if s != [] {
      var k := Shorter(3, |s|);
      GroupsSpell(s[k..]);
      GroupSpells(s[..k]);
      SpellsConcat(s[..k], Group(s[..k]), s[k..], Groups(s[k..]));
      assert s[..k] + s[k..] == s;
      GroupsStep(s);
      hide Group, Spells, Groups;
    }
  }

  /** The lines one after the other, with a break between each two. */
  function Glue(lines: seq<seq<Byte>>, separator: seq<Byte>): seq<Byte> {
    if lines == [] then []
    else if |lines| == 1 then lines[0]
    else lines[0] + separator + Glue(lines[1..], separator)
  }

  function Flat(lines: seq<seq<Byte>>): seq<Byte> {
    if lines == [] then [] else lines[0] + Flat(lines[1..])
  }

  /** Every line but the last has exactly 76 characters, the first possibly fewer than that
    * because `short` are missing; the last has at most as many. */
  ghost predicate FullLines(lines: seq<seq<Byte>>, short: nat) {
    && lines != [] && short <= 76
    && (|lines| > 1 ==> |lines[0]| == 76 - short)
    && |lines[0]| <= 76 - short
    && (forall k :: 0 < k < |lines| - 1 ==> |lines[k]| == 76)
    && (|lines| > 1 ==> 0 < |lines[|lines| - 1]| <= 76)
  }

  /** One more group at the start of the first line. */
  lemma GroupInLine(q: seq<Byte>, lines: seq<seq<Byte>>, separator: seq<Byte>, short: nat)
    requires |q| == 4 && FullLines(lines, short + 4)
    ensures var more := [q + lines[0]] + lines[1..];
      FullLines(more, short) && Glue(more, separator) == q + Glue(lines, separator) && Flat(more) == q + Flat(lines)
  {
    var more := [q + lines[0]] + lines[1..];
    assert more[1..] == lines[1..];
    Assoc(q, lines[0], Flat(lines[1..]));
    if |lines| > 1 {
      Assoc(q + lines[0], separator, Glue(lines[1..], separator));
      Assoc(q, lines[0], separator + Glue(lines[1..], separator));
      Assoc(lines[0], separator, Glue(lines[1..], separator));
    }
  }

  /** A full line in front of the others. */
  lemma EmptyLineFirst(lines: seq<seq<Byte>>, separator: seq<Byte>)
    requires FullLines(lines, 0) && lines[0] != []
    ensures var more := [[]] + lines;
      FullLines(more, 76) && Glue(more, separator) == separator + Glue(lines, separator) && Flat(more) == Flat(lines)
  {
    var more := [[]] + lines;
    assert more[1..] == lines;
    assert [] + separator == separator && [] + Flat(lines) == Flat(lines);
  }

  lemma NoGroups()
    ensures Encoded([], CR, 0) == Encoded([], LF, 0) == Encoded([], CRLF, 0) == [] && Groups([]) == []
    ensures forall eol, counter: nat :: Encoded([], eol, counter) == []
  {
  }

  lemma AddGroup(q: seq<Byte>, rest: seq<seq<Byte>>, separator: seq<Byte>, counter: nat)
      returns (lines: seq<seq<Byte>>)
    requires |q| == 4 && counter <= 19 && FullLines(rest, if counter == 0 then 4 else 80 - 4 * counter)
    ensures FullLines(lines, 76 - 4 * counter) && Flat(lines) == q + Flat(rest)
    ensures Glue(lines, separator) == if counter == 0 then separator + (q + Glue(rest, separator))
      else q + Glue(rest, separator)
  {
    GroupInLine(q, rest, separator, if counter == 0 then 0 else 76 - 4 * counter);
    lines := [q + rest[0]] + rest[1..];
    if counter == 0 {
      EmptyLineFirst(lines, separator);
      lines := [[]] + lines;
    }
  }

  /** The lines of an encoding when `counter` groups still fit in the first. */
  lemma {:induction false} EncodedInLines(s: seq<Byte>, eol: LineEnding, counter: nat) returns (lines: seq<seq<Byte>>)
    requires counter <= GROUPS_PER_LINE
    ensures FullLines(lines, 76 - 4 * counter) && Flat(lines) == Groups(s)
    ensures Encoded(s, eol, counter) == Glue(lines, LineBreak(eol))
    decreases |s|
  {
    if s == [] {
      NoGroups();
      lines := [[]];
    } else {
      var k := Shorter(3, |s|);
      var q := Group(s[..k]);
      GroupsStep(s);
      var rest := EncodedInLines(s[k..], eol, if counter == 0 then GROUPS_PER_LINE - 1 else counter - 1);
      hide Group, Groups, LineBreak, FullLines, Glue, Flat;
      lines := AddGroup(q, rest, LineBreak(eol), counter);
      if counter == 0 { Assoc(LineBreak(eol), q, Encoded(s[k..], eol, GROUPS_PER_LINE - 1)); }
    }
  }

  ghost predicate IsText(s: seq<Byte>, out: seq<Byte>, separator: seq<Byte>, lines: seq<seq<Byte>>) {
    && lines != [] && out == Glue(lines, separator) && Spells(s, Flat(lines))
    && (forall k :: 0 <= k < |lines| - 1 ==> |lines[k]| == 76)
    && |lines[|lines| - 1]| <= 76 && (|lines| > 1 ==> lines[|lines| - 1] != [])
  }

  /** What an encoder writes for s: lines of exactly 76 characters and a last one of at most
    * 76, between them the line break, in all of them the text of s. */
  ghost predicate WritesText(s: seq<Byte>, out: seq<Byte>, separator: seq<Byte>) {
    exists lines :: IsText(s, out, separator, lines)
  }

  /** The encoding is that text. */
  lemma EncodedIsText(s: seq<Byte>, eol: LineEnding)
    ensures WritesText(s, Encoded(s, eol, GROUPS_PER_LINE),
                       if eol.CR? then [13] else if eol.LF? then [10] else [13, 10])
  {
    var lines := EncodedInLines(s, eol, GROUPS_PER_LINE);
    GroupsSpell(s);
    hide Spells, Encoded, Groups, Flat, Glue;
    assert IsText(s, Encoded(s, eol, GROUPS_PER_LINE), LineBreak(eol), lines);
  }

  // ---------- what a decoder makes of any text ----------

  /** A character counts if it is a letter, or an equals sign that does not come first of all. */
  lemma TakenIs(c: Byte, first: bool)
    ensures |ALPHABET| == 64
    ensures Taken(c, first) <==>
      (exists i :: 0 <= i < 64 && ALPHABET[i] as int == c) || (c == '=' as int && !first)
  {
    forall i | 0 <= i < 64 ensures |ALPHABET| == 64 && Letter(i) == ALPHABET[i] as int {
      LetterIs(i);
    }
    hide ALPHABET;
    LetterIs(0);
    LetterIs(if Value(c) < 64 then Value(c) else 0);
  }

  lemma ThreeBytes(b0: nat, b1: nat, b2: nat)
    requires b1 < 256 && b2 < 256
    ensures var n := b0 * 65536 + b1 * 256 + b2; n / 65536 == b0 && n / 256 % 256 == b1 && n % 256 == b2
  {
    var n := b0 * 65536 + b1 * 256 + b2;
    assert n / 256 == b0 * 256 + b1;
  }

  lemma DecodedBits(v0: nat, v1: nat, v2: nat, v3: nat)
    requires v0 < 64 && v1 < 64 && v2 < 64 && v3 < 64
    ensures var n := ((v0 * 64 + v1) * 64 + v2) * 64 + v3;
      n / 65536 == v0 * 4 + v1 / 16 && n / 256 % 256 == v1 % 16 * 16 + v2 / 4 && n % 256 == v2 % 4 * 64 + v3
  {
    ThreeBytes(v0 * 4 + v1 / 16, v1 % 16 * 16 + v2 / 4, v2 % 4 * 64 + v3);
  }

  lemma ShiftedOut(v: nat)
    requires v < 64
    ensures v * 4 % 256 == v * 4 && v * 16 % 256 == v % 16 * 16 && v * 64 % 256 == v % 4 * 64
  {
  }

  /** c is letter number v. */
  ghost predicate IsLetter(c: Byte, v: nat) { v < 64 == |ALPHABET| && c == ALPHABET[v] as int }

  lemma LetterMeans(c: Byte, v: nat)
    requires IsLetter(c, v)
    ensures Value(c) == v && c != PAD
  {
    LetterIs(v);
    LetterValue(v);
    hide ALPHABET;
  }

  function FromSextets(v0: nat, v1: nat, v2: nat, v3: nat): nat { (v0 * 64 + v1) * 4096 + v2 * 64 + v3 }

  lemma OrBytes(v0: Byte, v1: Byte, v2: Byte, v3: Byte)
    requires v0 < 64 && v1 < 64 && v2 < 64 && v3 < 64
    ensures var n := FromSextets(v0, v1, v2, v3);
      && Or(v0 * 4 % 256, v1 / 16) == n / 65536 && Or(v1 * 16 % 256, v2 / 4) == n / 256 % 256
      && Or(v2 * 64 % 256, v3) == n % 256
  {
    hide Or;
    DecodedBits(v0, v1, v2, v3);
    ShiftedOut(v0);
    ShiftedOut(v1);
    ShiftedOut(v2);
    OrAdds(v0, v1 / 16);
    OrAdds(v1 % 16, v2 / 4);
    OrAdds(v2 % 4, v3);
  }

  /** Four letters stand for the three bytes of their 24 bits; one equals sign at the end drops
    * the last of them, two drop two. */
  lemma UngroupIs(q: seq<Byte>, v0: nat, v1: nat, v2: nat, v3: nat)
    requires |q| == 4 && IsLetter(q[0], v0) && IsLetter(q[1], v1)
    requires if q[2] == '=' as int then q[3] == '=' as int && v2 == v3 == 0
             else IsLetter(q[2], v2) && if q[3] == '=' as int then v3 == 0 else IsLetter(q[3], v3)
    ensures var n, u := FromSextets(v0, v1, v2, v3), Ungroup(q);
      && |u| == (if q[2] == '=' as int then 1 else if q[3] == '=' as int then 2 else 3)
      && u[0] == n / 65536 && (|u| > 1 ==> u[1] == n / 256 % 256) && (|u| > 2 ==> u[2] == n % 256)
  {
    LetterMeans(q[0], v0);
    LetterMeans(q[1], v1);
    if q[2] != '=' as int { LetterMeans(q[2], v2); }
    if q[3] != '=' as int { LetterMeans(q[3], v3); }
    assert v0 < 64 && v1 < 64 && v2 < 64 && v3 < 64;
    OrBytes(v0, v1, v2, v3);
    hide IsLetter, Value, Or, FromSextets, ALPHABET;
  }

  // ---------- line lengths ----------

  predicate EndsLine(c: Byte) { c == 10 || c == 13 }

  /** No line of e is longer than limit, when the first has `column` characters already. */
  predicate LinesFit(e: seq<Byte>, column: nat, limit: nat) {
    e == [] ||
    if EndsLine(e[0]) then LinesFit(e[1..], 0, limit)
    else column < limit && LinesFit(e[1..], column + 1, limit)
  }

  lemma FitOne(c: Byte, rest: seq<Byte>, column: nat, limit: nat)
    ensures LinesFit([c] + rest, column, limit) <==>
      if EndsLine(c) then LinesFit(rest, 0, limit) else column < limit && LinesFit(rest, column + 1, limit)
  {
    assert ([c] + rest)[1..] == rest;
  }

  lemma GroupPrintable(g: seq<Byte>)
    requires 1 <= |g| <= 3
    ensures forall i :: 0 <= i < 4 ==> !EndsLine(Group(g)[i])
  {
    var b1 := if |g| > 1 then g[1] else 0;
    var b2 := if |g| > 2 then g[2] else 0;
    Sextets(g[0], b1, b2);
    LetterValue(g[0] / 4);
    LetterValue(g[0] % 4 * 16 + b1 / 16);
    LetterValue(b1 % 16 * 4 + b2 / 64);
    LetterValue(b2 % 64);
    hide Or, Letter, Value;
  }

  lemma FitGroup(g: seq<Byte>, rest: seq<Byte>, column: nat, limit: nat)
    requires 1 <= |g| <= 3 && column + 4 <= limit && LinesFit(rest, column + 4, limit)
    ensures LinesFit(Group(g) + rest, column, limit)
  {
    var q := Group(g);
    GroupPrintable(g);
    hide Group, LinesFit;
    assert q + rest == [q[0]] + ([q[1]] + ([q[2]] + ([q[3]] + rest)));
    FitOne(q[3], rest, column + 3, limit);
    FitOne(q[2], [q[3]] + rest, column + 2, limit);
    FitOne(q[1], [q[2]] + ([q[3]] + rest), column + 1, limit);
    FitOne(q[0], [q[1]] + ([q[2]] + ([q[3]] + rest)), column, limit);
  }

  lemma FitBreak(eol: LineEnding, rest: seq<Byte>, column: nat, limit: nat)
    requires LinesFit(rest, 0, limit)
    ensures LinesFit(LineBreak(eol) + rest, column, limit)
  {
    match eol
    case CR => FitOne(13, rest, column, limit);
    case LF => FitOne(10, rest, column, limit);
    case CRLF =>
      FitOne(10, rest, 0, limit);
      FitOne(13, [10] + rest, column, limit);
      assert LineBreak(CRLF) + rest == [13] + ([10] + rest);
  }

  /** No encoded line is longer than 76 characters. */
  lemma {:induction false} EncodedLinesFit(s: seq<Byte>, eol: LineEnding, counter: nat)
    requires counter <= GROUPS_PER_LINE
    ensures LinesFit(Encoded(s, eol, counter), 4 * (GROUPS_PER_LINE - counter), 76)
    decreases |s|
  {
    if s != [] {
      var k := Shorter(3, |s|);
      var left := if counter == 0 then GROUPS_PER_LINE - 1 else counter - 1;
      var column := if counter == 0 then 0 else 4 * (GROUPS_PER_LINE - counter);
      var rest := Encoded(s[k..], eol, left);
      EncodedLinesFit(s[k..], eol, left);
      FitGroup(s[..k], rest, column, 76);
      if counter == 0 {
        FitBreak(eol, Group(s[..k]) + rest, 4 * (GROUPS_PER_LINE - counter), 76);
        assert LineBreak(eol) + Group(s[..k]) + rest == LineBreak(eol) + (Group(s[..k]) + rest);
      }
      hide Group, LinesFit, LineBreak;
    }
  }

  // ---------- the coder ----------

  class Coder {
    const encodeTable: array<Byte>
    const decodeTable: array<Byte>
    var eolStyle: LineEnding

    ghost predicate Valid()
      reads this, encodeTable, decodeTable
    {
      && encodeTable.Length == 64 && (forall i :: 0 <= i < 64 ==> encodeTable[i] == Letter(i))
      && decodeTable.Length == 255 && (forall c :: 0 <= c < 255 ==> decodeTable[c] == Value(c))
    }

    constructor ()
      ensures Valid() && fresh(encodeTable) && fresh(decodeTable) && eolStyle == LF
      ensures |ALPHABET| == 64 && forall i :: 0 <= i < 64 ==> encodeTable[i] == ALPHABET[i] as int
      ensures forall c :: 0 <= c < 255 ==>
        if exists i :: 0 <= i < 64 && ALPHABET[i] as int == c
        then decodeTable[c] < 64 && ALPHABET[decodeTable[c]] as int == c else decodeTable[c] == 100
    {
      encodeTable := new Byte[64](i requires 0 <= i < 64 => Letter(i));
      decodeTable := new Byte[255];
      eolStyle := LF;
      new;
      for i := 0 to 255
        invariant eolStyle == LF && forall c :: 0 <= c < i ==> decodeTable[c] == BAD
        invariant forall k :: 0 <= k < 64 ==> encodeTable[k] == Letter(k)
      {
        decodeTable[i] := BAD;
      }
      for i := 0 to 64
        invariant forall k :: 0 <= k < 64 ==> encodeTable[k] == Letter(k)
        invariant eolStyle == LF && forall c :: 0 <= c < 255 ==>
          decodeTable[c] == if Value(c) < i then Value(c) else BAD
      {
        LetterValue(i);
        decodeTable[encodeTable[i]] := i;
      }
      assert forall c :: 0 <= c < 255 ==> Value(c) < 64 || Value(c) == BAD;
      forall i | 0 <= i < 64 ensures |ALPHABET| == 64 && Letter(i) == ALPHABET[i] as int {
        LetterIs(i);
      }
      hide ALPHABET;
    }

    method EncodeGroup(g: seq<Byte>) returns (outbuf: seq<Byte>)
      requires Valid() && 1 <= |g| <= 3
      ensures outbuf == Group(g)
    {
      var b1 := if |g| > 1 then g[1] else 0;
      var b2 := if |g| > 2 then g[2] else 0;
      Sextets(g[0], b1, b2);
      outbuf := [encodeTable[g[0] / 4], encodeTable[Or(g[0] % 4 * 16, b1 / 16)]];
      if |g| == 3 {
        outbuf := outbuf + [encodeTable[Or(b1 % 16 * 4, b2 / 64)], encodeTable[b2 % 64]];
      } else if |g| == 2 {
        outbuf := outbuf + [encodeTable[Or(b1 % 16 * 4, 0)], PAD];
      } else {
        outbuf := outbuf + [PAD, PAD];
      }
    }

    /** The groups from `pos` on. */
    static lemma EncodeStep(input: seq<Byte>, pos: nat, eol: LineEnding, counter: nat)
      requires pos < |input|
      ensures var k := Shorter(3, |input| - pos);
        Encoded(input[pos..], eol, counter) ==
          (if counter == 0 then LineBreak(eol) else []) + Group(input[pos..pos + k])
          + Encoded(input[pos + k..], eol, if counter == 0 then GROUPS_PER_LINE - 1 else counter - 1)
    {
      var k := Shorter(3, |input| - pos);
      assert input[pos..][..k] == input[pos..pos + k] && input[pos..][k..] == input[pos + k..];
      hide Group, LineBreak;
    }

    static lemma EncodedNone(eol: LineEnding, counter: nat)
      ensures Encoded([], eol, counter) == []
    {
    }

    method Encode(input: seq<Byte>) returns (out: seq<Byte>)
      requires Valid()
      ensures out == Encoded(input, eolStyle, GROUPS_PER_LINE)
      ensures LinesFit(out, 0, 76)
      ensures WritesText(input, out, if eolStyle.CR? then [13] else if eolStyle.LF? then [10] else [13, 10])
    {
      hide Valid, Group, LineBreak, Encoded, LinesFit, WritesText;
      EncodedLinesFit(input, eolStyle, GROUPS_PER_LINE);
      EncodedIsText(input, eolStyle);
      assert input[0..] == input;
      out := [];
      var pos := 0;
      var counter := GROUPS_PER_LINE;
      var status := Shorter(3, |input|);
      while status != 0
        invariant pos <= |input| && status == Shorter(3, |input| - pos) && 0 <= counter <= GROUPS_PER_LINE
        invariant out + Encoded(input[pos..], eolStyle, counter) == Encoded(input, eolStyle, GROUPS_PER_LINE)
        decreases |input| - pos
      {
        EncodeStep(input, pos, eolStyle, counter);
        if counter == 0 {
          counter := GROUPS_PER_LINE;
          out := out + LineBreak(eolStyle);
        }
        counter := counter - 1;
        var outbuf := EncodeGroup(input[pos..pos + status]);
        out := out + outbuf;
        pos := pos + status;
        status := Shorter(3, |input| - pos);
      }
      EncodedNone(eolStyle, counter);
      assert input[pos..] == [];
    }

    method DecodeGroup(inbuf: array<Byte>) returns (outbuf: seq<Byte>)
      requires Valid() && inbuf.Length == 4 && forall i :: 0 <= i < 4 ==> inbuf[i] != 255
      ensures outbuf == Ungroup(inbuf[..])
    {
      var outsize := 3;
      if inbuf[3] == PAD {
        outsize := if inbuf[2] == PAD then 1 else 2;
      }
      var v0: int, v1: int := decodeTable[inbuf[0]], decodeTable[inbuf[1]];
      var v2: int, v3: Byte := decodeTable[inbuf[2]], decodeTable[inbuf[3]];
      outbuf := [Or(v0 * 4 % 256, v1 / 16), Or(v1 * 16 % 256, v2 / 4), Or(v2 * 64 % 256, v3)][..outsize];
    }

    predicate Counts(c: Byte, first: bool)
      requires Valid() && c != 255
      reads this, encodeTable, decodeTable
      ensures Counts(c, first) <==> Taken(c, first)
    {
      decodeTable[c] != BAD || (c == PAD && !first)
    }

    /** The bytes written, and how many characters are left over at the end; any is an error.
      * The decode table has no entry for 255. */
    method Decode(input: seq<Byte>) returns (out: seq<Byte>, extra: nat)
      requires Valid() && forall i :: 0 <= i < |input| ==> input[i] != 255
      ensures out == Ungrouped(Kept(input, true)) && extra == |Kept(input, true)| % 4
    {
      hide Valid, Value, Ungroup, Ungrouped, Kept, Taken;
      KeptUngroupedNone();
      out := [];
      var inbuf := new Byte[4](_ => 0);
      var inbufPos, pos := 0, 0;
      ghost var done: seq<Byte> := [];
      var status := Shorter(1, |input|);
      if status == 1 {
        inbuf[0] := input[0];
        KeptNext(input, 0);
        pos := 1;
        if Counts(inbuf[0], true) { inbufPos := 1; }
      }
      while status != 0
        invariant pos <= |input| && inbufPos <= 4 && fresh(inbuf)
        invariant forall i :: 0 <= i < 4 ==> inbuf[i] != 255
        invariant |done| % 4 == 0 && done + inbuf[..inbufPos] == Kept(input[..pos], true)
        invariant out == Ungrouped(done)
        invariant status == 0 ==> pos == |input| && inbufPos < 4
        decreases |input| - pos, status
      {
        if inbufPos == 4 {
          inbufPos := 0;
          var outbuf := DecodeGroup(inbuf);
          out := out + outbuf;
          UngroupedNext(done, inbuf[..]);
          done := done + inbuf[..];
        }
        status := Shorter(1, |input| - pos);
        if status != 0 {
          inbuf[inbufPos] := input[pos];
          KeptNext(input, pos);
          pos := pos + 1;
          if Counts(inbuf[inbufPos], false) { inbufPos := inbufPos + 1; }
        }
      }
      UngroupedNext(done, inbuf[..inbufPos]);
      assert input[..|input|] == input;
      extra := inbufPos;
    }
  }
}
