/**
 Decimal output and input of big integers, four digits at a time.
 */
module Decimal {
  import opened Arithmetic
  import opened Digits
  import opened Records
  import opened RecordShort
  import opened BigInts

  // ------------------------------------------------------------ decimal numerals

  function Pow10(k: nat): (p: nat)
    ensures p > 0
  {
    if k == 0 then 1 else 10 * Pow10(k - 1)
  }

  predicate IsDigit(c: char) {
    '0' <= c <= '9'
  }

  function DigitValue(c: char): (d: nat)
    requires IsDigit(c)
    ensures d < 10 && "0123456789"[d] == c
  {
    (c - '0') as nat
  }

  function DigitChar(d: nat): (c: char)
    requires d < 10
    ensures IsDigit(c) && DigitValue(c) == d && c == "0123456789"[d]
  {
    '0' + d as char
  }

  /** The numeral of n without leading zeros. */
  function Numeral(n: nat): (s: string)
    ensures |s| > 0 && forall i :: 0 <= i < |s| ==> IsDigit(s[i])
  {
    if n < 10 then [DigitChar(n)] else Numeral(n / 10) + [DigitChar(n % 10)]
  }

  predicate AllDigits(s: string) {
    forall i :: 0 <= i < |s| ==> IsDigit(s[i])
  }

  /** The number a string of decimal digits stands for. */
  function NumberOf(s: string): nat
    requires AllDigits(s)
  {
    if s == "" then 0 else 10 * NumberOf(s[..|s| - 1]) + DigitValue(s[|s| - 1])
  }

  lemma {:induction false} NumberOfNumeral(n: nat)
    ensures NumberOf(Numeral(n)) == n
  {
    var s := Numeral(n);
    if n >= 10 {
      NumberOfNumeral(n / 10);
      assert s[..|s| - 1] == Numeral(n / 10);
    } else {
      assert s[..0] == "";
    }
  }

  /** The w lowest decimal digits of n. */
  function LastDigits(n: nat, w: nat): (s: string)
    ensures |s| == w
  {
    if w == 0 then "" else LastDigits(n / 10, w - 1) + [DigitChar(n % 10)]
  }

  /** n without its w lowest decimal digits. */
  function WithoutLast(n: nat, w: nat): nat {
    if w == 0 then n else WithoutLast(n / 10, w - 1)
  }

  lemma {:induction false} LastDigitsSplit(n: nat, k: nat, w: nat)
    ensures LastDigits(n, k + w) == LastDigits(WithoutLast(n, w), k) + LastDigits(n, w)
    decreases w
  {
    if w > 0 {
      LastDigitsSplit(n / 10, k, w - 1);
      assert k + w - 1 == k + (w - 1);
    } else {
      assert LastDigits(n, k) + "" == LastDigits(n, k);
    }
  }

  lemma FourTimes(n: nat)
    ensures WithoutLast(n, 4) == n / 10000
  {
    var tens := n / 10;
    var hundreds := tens / 10;
    var thousands := hundreds / 10;
    assert WithoutLast(thousands, 1) == WithoutLast(thousands / 10, 0) == thousands / 10 == n / 10000;
    assert WithoutLast(hundreds, 2) == WithoutLast(thousands, 1);
    assert WithoutLast(tens, 3) == WithoutLast(hundreds, 2);
  }

  lemma {:induction false} WithoutLastAgain(n: nat, w: nat)
    ensures WithoutLast(n, w + 4) == WithoutLast(n, w) / 10000
  {
    if w > 0 {
      WithoutLastAgain(n / 10, w - 1);
    } else {
      FourTimes(n);
    }
  }

  /** Numbers below Pow10(w) have nothing above their w lowest digits, others have. */
  lemma {:induction false} NothingLeft(n: nat, w: nat)
    ensures WithoutLast(n, w) == 0 <==> n < Pow10(w)
  {
    if w > 0 {
      NothingLeft(n / 10, w - 1);
    }
  }

  function ZeroChars(k: nat): string {
    seq(k, _ => '0')
  }

  lemma {:induction false} AllZeros(w: nat)
    ensures LastDigits(0, w) == ZeroChars(w)
  {
    if w > 0 {
      AllZeros(w - 1);
    }
  }

  lemma {:induction false} PaddedDigit(n: nat, w: nat)
    requires w > 0 && n < 10
    ensures LastDigits(n, w) == ZeroChars(w - 1) + [DigitChar(n)]
  {
    AllZeros(w - 1);
  }

  /** The low digits of a small number are its numeral behind zeros. */
  lemma {:induction false} PaddedNumeral(n: nat, w: nat)
    requires w > 0 && n < Pow10(w)
    ensures |Numeral(n)| <= w
    ensures LastDigits(n, w) == ZeroChars(w - |Numeral(n)|) + Numeral(n)
  {
    if n >= 10 {
      PaddedNumeral(n / 10, w - 1);
    } else {
      PaddedDigit(n, w);
    }
  }

  lemma {:induction false} NumeralStarts(n: nat)
    requires n > 0
    ensures Numeral(n)[0] != '0'
  {
    if n >= 10 {
      NumeralStarts(n / 10);
    }
  }

  /** A number of more than w digits has a numeral longer than w. */
  lemma {:induction false} LongNumeral(n: nat, w: nat)
    requires n >= Pow10(w)
    ensures |Numeral(n)| > w
  {
    if w > 0 {
      assert Pow10(w) >= 10;
      LongNumeral(n / 10, w - 1);
    }
  }

  // ------------------------------------------------------------------- output

  /** The text before its leading zeros are dropped: j groups of four digits. */
  ghost predicate Groups(text: string, n: nat, j: nat) {
    text == LastDigits(n, 4 * j)
  }

  /** The four digits of a remainder below 10000, as the source picks them apart. */
  function FourChars(r: nat): (s: string)
    requires r < 10000
    ensures |s| == 4
  {
    [DigitChar(r / 10 / 10 / 10 % 10), DigitChar(r / 10 / 10 % 10), DigitChar(r / 10 % 10), DigitChar(r % 10)]
  }

  lemma LowDigitsAgree(t: nat)
    ensures var r := t % 10000;
            r % 10 == t % 10 && r / 10 % 10 == t / 10 % 10
            && r / 10 / 10 % 10 == t / 10 / 10 % 10 && r / 10 / 10 / 10 % 10 == t / 10 / 10 / 10 % 10
  {
    var q, r := t / 10000, t % 10000;
    assert t == 10000 * q + r;
    assert t / 10 == 1000 * q + r / 10;
    assert t / 10 / 10 == 100 * q + r / 10 / 10;
    assert t / 10 / 10 / 10 == 10 * q + r / 10 / 10 / 10;
  }

  lemma FourCharsAreDigits(t: nat)
    ensures FourChars(t % 10000) == LastDigits(t, 4)
  {
    LowDigitsAgree(t);
    var a, b, c, d := t % 10, t / 10 % 10, t / 10 / 10 % 10, t / 10 / 10 / 10 % 10;
    calc {
      LastDigits(t, 4);
      LastDigits(t / 10, 3) + [DigitChar(a)];
      LastDigits(t / 10 / 10, 2) + [DigitChar(b)] + [DigitChar(a)];
      LastDigits(t / 10 / 10 / 10, 1) + [DigitChar(c)] + [DigitChar(b)] + [DigitChar(a)];
      [DigitChar(d)] + [DigitChar(c)] + [DigitChar(b)] + [DigitChar(a)];
    }
  }

  lemma NextGroup(text: string, n: nat, j: nat, t: nat)
    requires Groups(text, n, j) && t == WithoutLast(n, 4 * j)
    ensures Groups(FourChars(t % 10000) + text, n, j + 1) && t / 10000 == WithoutLast(n, 4 * (j + 1))
  {
    FourCharsAreDigits(t);
    LastDigitsSplit(n, 4, 4 * j);
    WithoutLastAgain(n, 4 * j);
    assert 4 + 4 * j == 4 * (j + 1);
  }

  lemma {:induction false} Pow10Monotone(j: nat, k: nat)
    requires j <= k
    ensures Pow10(j) <= Pow10(k)
    decreases k
  {
    if j < k { Pow10Monotone(j, k - 1); }
  }

  lemma {:induction false} Pow10Below(j: nat, k: nat)
    requires Pow10(j) < Pow10(k)
    ensures j < k
  {
    if j >= k { Pow10Monotone(k, j); }
  }

  lemma TenFive(k: nat)
    ensures Pow10(k + 5) == 100000 * Pow10(k)
  {
    assert Pow10(k + 5) == 10 * Pow10(k + 4) && Pow10(k + 4) == 10 * Pow10(k + 3) && Pow10(k + 3) == 10 * Pow10(k + 2);
    assert Pow10(k + 2) == 10 * Pow10(k + 1);
  }

  /** Five decimal digits hold more than one digit of base 65536. */
  lemma {:induction false} FivePerDigit(k: nat)
    ensures Pow(k) <= Pow10(5 * k)
  {
    if k > 0 {
      FivePerDigit(k - 1);
      TenFive(5 * k - 5);
      assert 5 * (k - 1) == 5 * k - 5;
    }
  }

  /** As long as something is left to print, the groups printed so far use fewer
      than five characters a digit. */
  lemma RoomForGroup(n: nat, j: nat, used: nat)
    requires n < Pow(used) && WithoutLast(n, 4 * j) != 0
    ensures 4 * j < 5 * used
  {
    NothingLeft(n, 4 * j);
    FivePerDigit(used);
    Pow10Below(4 * j, 5 * used);
  }

  /** Dropping up to three leading zeros leaves the numeral. */
  lemma DropZeros(text: string, n: nat, j: nat)
    requires Groups(text, n, j) && j > 0 && n < Pow10(4 * j) && (j > 1 ==> WithoutLast(n, 4 * (j - 1)) != 0)
    ensures 0 <= 4 * j - |Numeral(n)| <= 3
    ensures text == ZeroChars(4 * j - |Numeral(n)|) + Numeral(n)
    ensures Numeral(n)[0] != '0' || (Numeral(n) == "0" && 4 * j == 4)
  {
    PaddedNumeral(n, 4 * j);
    NothingLeft(n, 4 * (j - 1));
    if j > 1 {
      LongNumeral(n, 4 * (j - 1));
    }
    if n > 0 {
      NumeralStarts(n);
    }
  }

  /** Writes the four characters of a group so that the last one is at `pos`. */
  method PutGroup(str: array<char>, pos: nat, r: nat)
    requires r < 10000 && 3 <= pos < str.Length
    modifies str
    ensures str[pos - 3..] == FourChars(r) + old(str[pos + 1..])
  {
    var remainder := r;
    var a := DigitChar(remainder % 10);
    remainder := remainder / 10;
    var b := DigitChar(remainder % 10);
    remainder := remainder / 10;
    var c := DigitChar(remainder % 10);
    remainder := remainder / 10;
    var d := DigitChar(remainder % 10);
    str[pos] := a;
    str[pos - 1] := b;
    str[pos - 2] := c;
    str[pos - 3] := d;
    assert [d, c, b, a] == FourChars(r);
    assert str[pos + 1..] == old(str[pos + 1..]);
  }

  /** The state of the printing loop after j groups: `pos` is where the next group ends. */
  ghost predicate Printing(temp: DataRecord, str: array<char>, pos: nat, n: nat, used: nat, j: nat)
    reads temp`digitsUsed, temp.number, str
  {
    && temp.Canon() && str.Length == 5 * used + 10 && n < Pow(used)
    && pos + 4 * j == 5 * used + 8
    && Groups(str[pos + 1..5 * used + 9], n, j) && temp.Value() == WithoutLast(n, 4 * j)
  }

  lemma GroupInFront(whole: string, group: string, behind: string, w: nat)
    requires |group| == 4 && whole == group + behind && w <= |behind|
    ensures whole[..4 + w] == group + behind[..w]
  {
  }

  /** One group: divide by 10000 and write the remainder. */
  method PrintGroup(temp: DataRecord, str: array<char>, pos: nat, ghost n: nat, ghost used: nat, ghost j: nat)
      returns (pos': nat)
    requires Printing(temp, str, pos, n, used, j) && pos > 4
    modifies temp`digitsUsed, temp.number, str
    ensures Printing(temp, str, pos', n, used, j + 1) && temp.Value() == old(temp.Value()) / 10000
  {
    hide Groups, Val, Canonical, Pow, FourChars;
    ghost var t, text := temp.Value(), str[pos + 1..5 * used + 9];
    var remainder := ShortDiv(temp, 10000, temp);
    QuotientIs(t, 10000, temp.Value(), remainder);
    NextGroup(text, n, j, t);
    ghost var behind := str[pos + 1..];
    assert text == behind[..5 * used + 8 - pos];
    PutGroup(str, pos, remainder);
    pos' := pos - 4;
    GroupInFront(str[pos - 3..], FourChars(remainder), behind, 5 * used + 8 - pos);
    assert str[pos' + 1..5 * used + 9] == str[pos - 3..][..5 * used + 12 - pos];
  }

  lemma NothingPrinted(temp: DataRecord, str: array<char>, pos: nat, n: nat, used: nat)
    requires temp.Canon() && str.Length == 5 * used + 10 && n < Pow(used) && pos == 5 * used + 8 && temp.Value() == n
    ensures Printing(temp, str, pos, n, used, 0)
  {
  }

  lemma RoomLeft(temp: DataRecord, str: array<char>, pos: nat, n: nat, used: nat, j: nat)
    requires Printing(temp, str, pos, n, used, j) && temp.Value() != 0
    ensures pos > 8
  {
    RoomForGroup(n, j, used);
  }

  lemma ZeroRecord(temp: DataRecord)
    requires temp.Canon()
    ensures temp.Value() == 0 <==> temp.digitsUsed == 1 && temp.number[0] == 0
  {
    if temp.Value() == 0 {
      ValIsZero(temp.Digits());
    } else if temp.digitsUsed == 1 && temp.number[0] == 0 {
      ValZeros(temp.Digits());
    }
  }

  /** Divides until nothing is left, one group of digits at a time. */
  method PrintGroups(temp: DataRecord, str: array<char>, ghost n: nat, used: nat) returns (pos: nat, ghost j: nat)
    requires used > 0 && Printing(temp, str, 5 * used + 8, n, used, 0)
    modifies temp`digitsUsed, temp.number, str
    ensures Printing(temp, str, pos, n, used, j) && j > 0 && temp.Value() == 0
    ensures j > 1 ==> WithoutLast(n, 4 * (j - 1)) != 0
  {
    hide Groups, Val, Canonical, Pow, WithoutLast;
    pos := PrintGroup(temp, str, 5 * used + 8, n, used, 0);
    j := 1;
    ZeroRecord(temp);
    while temp.digitsUsed != 1 || temp.number[0] != 0
      invariant Printing(temp, str, pos, n, used, j) && j > 0
      invariant temp.Value() == 0 <==> temp.digitsUsed == 1 && temp.number[0] == 0
      invariant j > 1 ==> WithoutLast(n, 4 * (j - 1)) != 0
      decreases temp.Value()
    {
      RoomLeft(temp, str, pos, n, used, j);
      ghost var before := temp.Value();
      pos := PrintGroup(temp, str, pos, n, used, j);
      j := j + 1;
      ZeroRecord(temp);
    }
  }

  /** z zeros in front of s, where skipping stops after three characters at most. */
  ghost predicate Padded(text: string, s: string, z: nat) {
    && |s| > 0 && z <= 3 && text == ZeroChars(z) + s
    && (s[0] != '0' || (z == 3 && |s| == 1))
  }

  lemma PrintedText(temp: DataRecord, str: array<char>, pos: nat, n: nat, used: nat, j: nat)
    requires Printing(temp, str, pos, n, used, j) && j > 0 && temp.Value() == 0
    requires j > 1 ==> WithoutLast(n, 4 * (j - 1)) != 0
    ensures 4 * j >= |Numeral(n)| && Padded(str[pos + 1..5 * used + 9], Numeral(n), 4 * j - |Numeral(n)|)
  {
    NothingLeft(n, 4 * j);
    DropZeros(str[pos + 1..5 * used + 9], n, j);
  }

  lemma PaddedChars(text: string, s: string, z: nat)
    requires Padded(text, s, z)
    ensures |text| == z + |s| && text[z..] == s
    ensures |text| > 0 && z <= 3 && (z == 0 ==> text[0] != '0') && (z > 0 ==> text[0] == '0')
    ensures z > 0 ==> |text| > 1 && (z == 1 ==> text[1] != '0') && (z > 1 ==> text[1] == '0')
    ensures z > 1 ==> |text| > 2 && (z == 2 ==> text[2] != '0') && (z > 2 ==> text[2] == '0')
  {
  }

  /** Throws away up to three leading zeros. */
  method SkipZeros(str: array<char>, first: nat, end: nat, ghost s: string, ghost z: nat) returns (text: string)
    requires first <= end <= str.Length && Padded(str[first..end], s, z)
    ensures text == s
  {
    ghost var padded := str[first..end];
    PaddedChars(padded, s, z);
    hide Padded;
    assert str[first] == padded[0];
    assert z > 0 ==> str[first + 1] == padded[1];
    assert z > 1 ==> str[first + 2] == padded[2];
    var start := first;
    if str[start] == '0' {
      start := start + 1;
    }
    if str[start] == '0' {
      start := start + 1;
    }
    if str[start] == '0' {
      start := start + 1;
    }
    assert start == first + z;
    text := str[start..end];
  }

  /** operator<<: the numeral of the number, within a buffer of five characters a digit and ten more. */
  method Print(rhs: DataRecord) returns (text: string)
    requires rhs.Canon()
    ensures text == Numeral(rhs.Value())
  {
    hide Groups, Val, Canonical, Pow, WithoutLast;
    var temp := new DataRecord.Copy(rhs, 0);
    var used := rhs.digitsUsed;
    ghost var n := rhs.Value();
    assert n < Pow(used) by { ValBound(rhs.Digits()); }
    var str := new char[used * 5 + 10];
    str[used * 5 + 9] := '\0';
    NothingPrinted(temp, str, used * 5 + 8, n, used);
    var pos, j := PrintGroups(temp, str, n, used);
    PrintedText(temp, str, pos, n, used, j);
    text := SkipZeros(str, pos + 1, used * 5 + 9, Numeral(n), 4 * j - |Numeral(n)|);
  }

  // -------------------------------------------------------------------- input

  predicate DigitAt(input: string, i: nat) {
    i < |input| && IsDigit(input[i])
  }

  /** Where the digits that start at i end. */
  function RunEnd(input: string, i: nat): (e: nat)
    requires i <= |input|
    ensures i <= e <= |input| && !DigitAt(input, e)
    ensures forall k :: i <= k < e ==> IsDigit(input[k])
    decreases |input| - i
  {
    if DigitAt(input, i) then RunEnd(input, i + 1) else i
  }

  /** Where the spaces, tabs and line feeds that start at i end. */
  function SkipBlanks(input: string, i: nat): (e: nat)
    requires i <= |input|
    ensures i <= e <= |input|
    ensures forall k :: i <= k < e ==> input[k] == ' ' || input[k] == '\t' || input[k] == '\n'
    ensures e < |input| ==> input[e] != ' ' && input[e] != '\t' && input[e] != '\n'
    decreases |input| - i
  {
    if i < |input| && (input[i] == ' ' || input[i] == '\t' || input[i] == '\n') then SkipBlanks(input, i + 1) else i
  }

  lemma OneDigitMore(x: nat, p: nat, y: nat, d: nat, xy: nat, q: nat, y': nat, xy': nat)
    requires xy == x * p + y && q == 10 * p && y' == 10 * y + d && xy' == 10 * xy + d
    ensures xy' == x * q + y'
  {
    MulAssoc(10, x, p);
    MulAssoc(x, 10, p);
  }

  lemma NumberOfSnoc(s: string, c: char)
    requires AllDigits(s) && IsDigit(c)
    ensures AllDigits(s + [c]) && NumberOf(s + [c]) == 10 * NumberOf(s) + DigitValue(c)
  {
    assert (s + [c])[..|s|] == s;
  }

  lemma ConcatSnoc(s: string, u: string, c: char)
    requires AllDigits(s) && AllDigits(u) && IsDigit(c) && AllDigits(s + u)
    requires NumberOf(s + u) == NumberOf(s) * Pow10(|u|) + NumberOf(u)
    ensures AllDigits(u + [c]) && AllDigits(s + (u + [c]))
    ensures NumberOf(s + (u + [c])) == NumberOf(s) * Pow10(|u| + 1) + NumberOf(u + [c])
  {
    assert Pow10(|u| + 1) == 10 * Pow10(|u|);
    hide NumberOf, Pow10, DigitValue;
    NumberOfSnoc(s + u, c);
    NumberOfSnoc(u, c);
    assert (s + u) + [c] == s + (u + [c]);
    OneDigitMore(NumberOf(s), Pow10(|u|), NumberOf(u), DigitValue(c), NumberOf(s + u), Pow10(|u| + 1),
                 NumberOf(u + [c]), NumberOf(s + (u + [c])));
  }

  lemma {:induction false} NumberOfConcat(s: string, t: string)
    requires AllDigits(s) && AllDigits(t)
    ensures AllDigits(s + t) && NumberOf(s + t) == NumberOf(s) * Pow10(|t|) + NumberOf(t)
  {
    if t == "" {
      assert s + t == s;
    } else {
      hide NumberOf, Pow10;
      var u, c := t[..|t| - 1], t[|t| - 1];
      assert t == u + [c];
      NumberOfConcat(s, u);
      ConcatSnoc(s, u, c);
    }
  }

  /** One digit of a group, if there is one. */
  lemma NextDigitOf(input: string, from: nat, pos: nat)
    requires from <= pos < |input| && AllDigits(input[from..pos]) && IsDigit(input[pos])
    ensures AllDigits(input[from..pos + 1])
    ensures NumberOf(input[from..pos + 1]) == 10 * NumberOf(input[from..pos]) + DigitValue(input[pos])
  {
    var s := input[from..pos];
    assert input[from..pos + 1] == s + [input[pos]];
    assert (s + [input[pos]])[..|s|] == s;
  }

  /** Up to four digits and the power of ten they make room for. */
  method ReadGroup(input: string, from: nat) returns (num: nat, numRead: nat, pos: nat)
    requires from <= |input|
    ensures from <= pos <= |input| && pos - from <= 4 && (pos - from < 4 ==> !DigitAt(input, pos))
    ensures AllDigits(input[from..pos]) && num == NumberOf(input[from..pos]) && numRead == Pow10(pos - from)
  {
    num, numRead, pos := 0, 1, from;
    for i := 0 to 4
      invariant from <= pos <= |input| && pos - from <= i && (pos - from < i ==> !DigitAt(input, pos))
      invariant AllDigits(input[from..pos]) && num == NumberOf(input[from..pos]) && numRead == Pow10(pos - from)
    {
      if DigitAt(input, pos) {
        NextDigitOf(input, from, pos);
        numRead := numRead * 10;
        num := num * 10 + DigitValue(input[pos]);
        pos := pos + 1;
      }
    }
  }

  lemma TenFourth()
    ensures Pow10(4) == 10000
  {
    assert Pow10(1) == 10;
    assert Pow10(2) == 100;
    assert Pow10(3) == 1000;
  }

  lemma {:induction false} NumberBound(s: string)
    requires AllDigits(s)
    ensures NumberOf(s) < Pow10(|s|)
  {
    if s != "" { NumberBound(s[..|s| - 1]); }
  }

  lemma GroupBound(s: string)
    requires AllDigits(s) && |s| <= 4
    ensures NumberOf(s) < Pow10(|s|) <= 10000
  {
    NumberBound(s);
    TenFourth();
    Pow10Monotone(|s|, 4);
  }

  lemma {:induction false} RunEndIs(input: string, i: nat, e: nat)
    requires i <= e <= |input| && !DigitAt(input, e) && forall k :: i <= k < e ==> IsDigit(input[k])
    ensures RunEnd(input, i) == e
    decreases e - i
  {
    if i < e { RunEndIs(input, i + 1, e); }
  }

  lemma NextGroupOf(input: string, start: nat, from: nat, pos: nat)
    requires start <= from <= pos <= |input| && AllDigits(input[start..from]) && AllDigits(input[from..pos])
    ensures AllDigits(input[start..pos])
    ensures NumberOf(input[start..pos]) == NumberOf(input[start..from]) * Pow10(pos - from) + NumberOf(input[from..pos])
  {
    NumberOfConcat(input[start..from], input[from..pos]);
    assert input[start..from] + input[from..pos] == input[start..pos];
  }

  /** Shifts the number read so far by one group and adds the group. */
  method TakeGroup(store: Store, temp: BigInt, num: Digit, numRead: Digit)
    requires store.Valid() && temp in store.handles && temp.data.references == 1 && temp.data.Valid() && numRead > 1
    modifies store, temp, temp.data`references, temp.data`digitsUsed, temp.data.number
    ensures store.Valid() && store.handles == old(store.handles) && store.Others(temp)
    ensures temp.data.references == 1 && (temp.data == old(temp.data) || (fresh(temp.data) && fresh(temp.data.number)))
    ensures temp.data.Valid() && temp.data.Value() == old(temp.data.Value()) * numRead + num
  {
    hide Val, Canonical, Store.Counted, Store.Sound;
    store.ShortMulAssign(temp, numRead);
    store.ShortAddAssign(temp, num);
  }

  /** What has been read of the digits from `start` on. */
  ghost predicate ReadSoFar(store: Store, temp: BigInt, input: string, start: nat, pos: nat)
    reads temp, temp.data, temp.data.number
  {
    && start <= pos <= |input| && AllDigits(input[start..pos])
    && temp.data.references == 1 && temp.data.Valid() && temp.data.Value() == NumberOf(input[start..pos])
  }

  lemma PowersOfTen(k: nat)
    requires k <= 4
    ensures (Pow10(k) == 10000 <==> k == 4) && (Pow10(k) == 1 <==> k == 0) && Pow10(k) <= 10000
  {
    TenFourth();
    Pow10Monotone(k, 4);
    if k < 4 { Pow10Monotone(k, 3); }
    if k > 0 { Pow10Monotone(1, k); }
  }

  /** Reads one group of digits. */
  method ReadNext(store: Store, temp: BigInt, input: string, start: nat, from: nat) returns (pos: nat, numRead: nat)
    requires store.Valid() && temp in store.handles && ReadSoFar(store, temp, input, start, from)
    modifies store, temp, temp.data`references, temp.data`digitsUsed, temp.data.number
    ensures store.Valid() && store.handles == old(store.handles) && store.Others(temp)
    ensures ReadSoFar(store, temp, input, start, pos) && pos >= from
    ensures temp.data == old(temp.data) || (fresh(temp.data) && fresh(temp.data.number))
    ensures numRead == 10000 ==> pos > from
    ensures numRead != 10000 ==> !DigitAt(input, pos)
  {
    hide Val, Canonical, NumberOf, Pow10, Store.Counted, Store.Sound;
    var num;
    num, numRead, pos := ReadGroup(input, from);
    store.Untouched();
    GroupBound(input[from..pos]);
    NextGroupOf(input, start, from, pos);
    PowersOfTen(pos - from);
    if numRead != 1 {
      TakeGroup(store, temp, num, numRead);
    } else {
      assert pos == from;
    }
  }

  lemma RunOfDigits(input: string, i: nat, e: nat)
    requires i <= e <= |input| && !DigitAt(input, e) && AllDigits(input[i..e])
    ensures RunEnd(input, i) == e
  {
    forall k | i <= k < e ensures IsDigit(input[k]) {
      assert input[k] == input[i..e][k - i];
    }
    RunEndIs(input, i, e);
  }

  lemma NoDigits()
    ensures NumberOf("") == 0
  {
  }

  /** Reads the digits from `start` on into the handle `temp`, which holds zero. */
  method ReadDigits(store: Store, temp: BigInt, input: string, start: nat) returns (pos: nat)
    requires store.Valid() && temp in store.handles && temp.data.references == 1 && temp.data.Valid() &&
      temp.data.Value() == 0
    requires start <= |input|
    modifies store, temp, temp.data`references, temp.data`digitsUsed, temp.data.number
    ensures store.Valid() && store.handles == old(store.handles) && store.Others(temp)
    ensures temp.data == old(temp.data) || (fresh(temp.data) && fresh(temp.data.number))
    ensures pos == RunEnd(input, start) && ReadSoFar(store, temp, input, start, pos)
  {
    hide Val, Canonical, NumberOf, RunEnd, Store.Counted, Store.Sound;
    pos := start;
    var numRead := 10000;
    NoDigits();
    assert input[start..start] == "";
    while numRead == 10000
      invariant store.Valid() && store.handles == old(store.handles) && store.Others(temp)
      invariant temp.data == old(temp.data) || (fresh(temp.data) && fresh(temp.data.number))
      invariant ReadSoFar(store, temp, input, start, pos)
      invariant numRead != 10000 ==> !DigitAt(input, pos)
      decreases |input| - pos, if numRead == 10000 then 1 else 0
    {
      pos, numRead := ReadNext(store, temp, input, start, pos);
    }
    RunOfDigits(input, start, pos);
  }

  /** rhs = temp, and temp goes out of scope. */
  method HandOver(store: Store, rhs: BigInt, temp: BigInt)
    requires store.Valid() && rhs in store.handles && temp in store.handles && temp != rhs && temp.data.Valid()
    requires temp.data.references == 1
    modifies store, rhs, rhs.data`references, temp.data`references
    ensures store.Valid() && store.handles == old(store.handles) - {temp}
    ensures forall h :: h in store.handles && h != rhs ==>
      h.data == old(h.data) && h.data.digitsUsed == old(h.data.digitsUsed) &&
          h.data.number[..] == old(h.data.number[..])
    ensures rhs.data == old(temp.data) && rhs.data.Valid() && rhs.data.Value() == old(temp.data.Value())
  {
    hide Val, Canonical, Store.Counted, Store.Sound;
    store.Assign(rhs, temp);
    assert temp.data == old(temp.data) && temp.data.number[..] == old(temp.data.number[..]);
    assert temp.data.Digits() == old(temp.data.Digits());
    store.Destroy(temp);
    assert rhs.data.Digits() == old(temp.data.Digits());
  }

  /** Reads the digits into a new number, which rhs then takes over. */
  method ParseNumber(store: Store, rhs: BigInt, input: string, start: nat) returns (pos: nat)
    requires store.Valid() && rhs in store.handles && start <= |input|
    modifies store, rhs, rhs.data`references
    ensures store.Valid() && store.handles == old(store.handles) && store.Others(rhs)
    ensures pos == RunEnd(input, start) && AllDigits(input[start..pos])
    ensures rhs.data.Valid() && rhs.data.Value() == NumberOf(input[start..pos])
  {
    hide Val, Canonical, NumberOf, RunEnd, Store.Counted, Store.Sound;
    var temp := store.Zero();
    pos := ReadDigits(store, temp, input, start);
    HandOver(store, rhs, temp);
  }

  /** operator>>: skips blanks, reads all the digits that follow, and fails if there are none. */
  method Parse(store: Store, rhs: BigInt, input: string) returns (ok: bool, pos: nat)
    requires store.Valid() && rhs in store.handles
    modifies store, rhs, rhs.data`references
    ensures store.Valid() && store.handles == old(store.handles) && store.Others(rhs)
    ensures ok <==> DigitAt(input, SkipBlanks(input, 0))
    ensures ok ==> pos == RunEnd(input, SkipBlanks(input, 0)) && AllDigits(input[SkipBlanks(input, 0)..pos])
    ensures ok ==> rhs.data.Valid() && rhs.data.Value() == NumberOf(input[SkipBlanks(input, 0)..pos])
    ensures !ok ==> rhs.data == old(rhs.data) && pos == SkipBlanks(input, 0)
  {
    pos := 0;
    while pos < |input| && (input[pos] == ' ' || input[pos] == '\t' || input[pos] == '\n')
      invariant pos <= |input| && SkipBlanks(input, 0) == SkipBlanks(input, pos)
    {
      pos := pos + 1;
    }
    hide Val, Canonical, NumberOf, RunEnd, Store.Counted, Store.Sound;
    if !DigitAt(input, pos) {
      return false, pos;
    }
    pos := ParseNumber(store, rhs, input, pos);
    return true, pos;
  }

  /** Spaces, tabs and line feeds in front of a numeral are skipped, all of them and nothing else. */
  lemma BlanksAreSkipped(blanks: string, n: nat, rest: string)
    requires forall k :: 0 <= k < |blanks| ==> blanks[k] == ' ' || blanks[k] == '\t' || blanks[k] == '\n'
    requires rest == "" || !('0' <= rest[0] <= '9')
    ensures var text := blanks + Numeral(n) + rest; var end := |blanks| + |Numeral(n)|;
            && SkipBlanks(text, 0) == |blanks| && DigitAt(text, |blanks|)
            && RunEnd(text, |blanks|) == end && text[|blanks|..end] == Numeral(n)
            && NumberOf(Numeral(n)) == n
  {
    var text := blanks + Numeral(n) + rest;
    var e := SkipBlanks(text, 0);
    assert text[|blanks|] == Numeral(n)[0];
    assert forall k :: 0 <= k < |blanks| ==> text[k] == blanks[k];
    RunEndIs(text, |blanks|, |blanks| + |Numeral(n)|);
    NumberOfNumeral(n);
  }

  /** What is printed reads back as the number it came from, up to the last digit of it. */
  lemma PrintedReadsBack(n: nat, rest: string)
    requires rest == "" || !IsDigit(rest[0])
    ensures var text := Numeral(n) + rest;
            && SkipBlanks(text, 0) == 0 && DigitAt(text, 0)
            && RunEnd(text, 0) == |Numeral(n)| && text[0..|Numeral(n)|] == Numeral(n)
            && NumberOf(Numeral(n)) == n
  {
    var text := Numeral(n) + rest;
    assert text[0] == Numeral(n)[0];
    RunEndIs(text, 0, |Numeral(n)|);
    NumberOfNumeral(n);
  }

  /** Numerals have no leading zeros. */
  lemma NumeralHasNoLeadingZeros(n: nat)
    ensures Numeral(n)[0] == '0' <==> n == 0
    ensures n == 0 ==> |Numeral(n)| == 1
  {
    if n > 0 { NumeralStarts(n); }
  }
}
