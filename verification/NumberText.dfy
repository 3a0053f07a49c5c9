/** Oracle NUMBER values as decimal text: an exponent byte and base-100 digits, printed without
    rounding. */
module NumberText {
  import opened Basics

  datatype Result = Ok(text: string) | Err(code: nat)

  const NOT_A_NUMBER := 50009

  // ------------------------------------------------------------ what is printed

  /** A subtraction of bytes stored in a 64-bit unsigned variable. */
  function Unsigned(v: int): nat {
    v % 0x1_0000_0000_0000_0000
  }

  /** The character of a decimal digit, as a byte whatever the digit. */
  function Map10(d: nat): char {
    ((48 + d) % 256) as char
  }

  function Pair(v: nat): (r: string)
    ensures |r| == 2
  {
    [Map10(v / 10), Map10(v % 10)]
  }

  /** The first pair of the integer part has no leading zero. */
  function FirstPair(v: nat): string {
    if v < 10 then [Map10(v)] else Pair(v)
  }

  /** The last pair of the fraction has no trailing zero. */
  function LastPair(v: nat): string {
    if v % 10 != 0 then Pair(v) else [Map10(v / 10)]
  }

  function Zeros(n: nat): string {
    if n == 0 then "" else "00" + Zeros(n - 1)
  }

  /** `n` pairs, with zeros where the digits `m` have ended. */
  function Pairs(m: seq<nat>, n: nat): string {
    if n == 0 then "" else if m == [] then "00" + Pairs(m, n - 1) else Pair(m[0]) + Pairs(m[1..], n - 1)
  }

  function Fraction(m: seq<nat>): string
    requires m != []
  {
    if |m| == 1 then LastPair(m[0]) else Pair(m[0]) + Fraction(m[1..])
  }

  function Drop(m: seq<nat>, n: nat): seq<nat> {
    if n <= |m| then m[n..] else []
  }

  /** The digits `m`, of which `k` pairs are before the point; `first` is the first of them. */
  function Text(k: int, m: seq<nat>, first: nat): string {
    if k <= 0 then "0" + (if m == [] then "" else "." + Zeros(-k) + Fraction(m))
    else
      FirstPair(first) + Pairs(Drop(m, 1), k - 1) + (if |m| <= k then "" else "." + Fraction(m[k..]))
  }

  function Values(bytes: seq<Byte>, negative: bool): (r: seq<nat>)
    ensures |r| == |bytes|
  {
    seq(|bytes|, i requires 0 <= i < |bytes| => Value(bytes[i], negative))
  }

  function Value(b: int, negative: bool): nat {
    Unsigned(if negative then 101 - b else b - 1)
  }

  /** Negative numbers may end with a terminator. */
  function Mantissa(data: seq<Byte>): seq<Byte>
    requires |data| >= 2
  {
    if data[0] < 0x80 && data[|data| - 1] == 0x66 then data[1..|data| - 1] else data[1..]
  }

  /** Pairs before the decimal point. */
  function Exponent(data: seq<Byte>): int
    requires data != []
  {
    var d: int := data[0];
    if d < 0x80 then 0x3F - d else d - 0xC0
  }

  function NumberText(data: seq<Byte>): Result
    requires data != []
  {
    var negative := data[0] < 0x80;
    if data[0] == 0x80 then Ok("0")
    else if |data| >= 2 then
      Ok((if negative then "-" else "") + Text(Exponent(data), Values(Mantissa(data), negative), Value(data[1], negative)))
    else if data[0] == 0 then Ok("0") else Err(NOT_A_NUMBER)
  }

  // ------------------------------------------------------------ the printing loops

  lemma {:induction false} ZerosMore(n: nat)
    ensures Zeros(n) + "00" == Zeros(n + 1)
  {
    if n > 0 {
      ZerosMore(n - 1);
      assert Zeros(n) + "00" == "00" + (Zeros(n - 1) + "00");
    }
  }

  lemma {:induction false} PairsMore(m: seq<nat>, n: nat)
    ensures Pairs(m, n + 1) == Pairs(m, n) + (if n < |m| then Pair(m[n]) else "00")
  {
    if n > 0 {
      PairsMore(Drop(m, 1), n - 1);
      assert m == [] ==> Drop(m, 1) == m;
    }
  }

  /** The pairs of the integer part after the first, and how many digits they took. */
  method PrintInteger(m: seq<nat>, first: nat, k: nat) returns (text: string, j: nat)
    requires k > 0
    ensures text == FirstPair(first) + Pairs(Drop(m, 1), k - 1)
    ensures m != [] ==> j == if k <= |m| then k else |m|
    ensures m == [] ==> j > 0
  {
    text := FirstPair(first);
    j := 1;
    var digits := k - 1;
    while digits > 0
      invariant 0 <= digits < k
      invariant text == FirstPair(first) + Pairs(Drop(m, 1), k - 1 - digits)
      invariant if m == [] then j == 1 else j == if k - digits <= |m| then k - digits else |m|
    {
      PairsMore(Drop(m, 1), k - 1 - digits);
      if j < |m| {
        text := text + [Map10(m[j] / 10), Map10(m[j] % 10)];
        j := j + 1;
      } else {
        text := text + "00";
      }
      digits := digits - 1;
    }
  }

  lemma {:induction false} FractionMore(m: seq<nat>, n: nat)
    requires n < |m|
    ensures Fraction(m) == Pairs(m, n) + Fraction(m[n..])
  {
    if n > 0 {
      FractionMore(m[1..], n - 1);
      assert m[1..][n - 1..] == m[n..];
    } else {
      assert m[0..] == m;
    }
  }

  /** The point, the zeros after it, and the digits from `j` on. */
  method PrintFraction(m: seq<nat>, j: nat, zeros: nat) returns (text: string)
    requires j < |m|
    ensures text == "." + Zeros(zeros) + Fraction(m[j..])
  {
    text := ".";
    var left := zeros;
    while left > 0
      invariant 0 <= left <= zeros && text == "." + Zeros(zeros - left)
    {
      ZerosMore(zeros - left);
      text := text + "00";
      left := left - 1;
    }
    var pairs := PrintPairs(m[j..]);
    text := text + pairs;
  }

  /** The pairs of a fraction. */
  method PrintPairs(m: seq<nat>) returns (text: string)
    requires m != []
    ensures text == Fraction(m)
  {
    hide Fraction, Pairs;
    text := "";
    var j := 0;
    assert text == Pairs(m, 0) by { PairsNone(m); }
    while j < |m| - 1
      invariant j < |m| && text == Pairs(m, j)
    {
      PairsMore(m, j);
      text := text + [Map10(m[j] / 10), Map10(m[j] % 10)];
      j := j + 1;
    }
    FractionMore(m, j);
    LastOfFraction(m, j);
    text := text + [Map10(m[j] / 10)];
    if m[j] % 10 != 0 {
      text := text + [Map10(m[j] % 10)];
    }
  }

  lemma PairsNone(m: seq<nat>)
    ensures Pairs(m, 0) == ""
  {
  }

  lemma LastOfFraction(m: seq<nat>, j: nat)
    requires j == |m| - 1
    ensures Fraction(m[j..]) == LastPair(m[j])
  {
  }

  /** Both signs print their digits in the same way. */
  method PrintDigits(k: int, m: seq<nat>, first: nat) returns (text: string)
    ensures text == Text(k, m, first)
  {
    hide Fraction, Pairs, Zeros, FirstPair;
    var j, zeros := 0, 0;
    if k <= 0 {
      text := "0";
      zeros := -k;
    } else {
      text, j := PrintInteger(m, first, k);
    }
    if j < |m| {
      var fraction := PrintFraction(m, j, zeros);
      assert zeros == 0 ==> Zeros(zeros) == "" by { NoZeros(); }
      assert m[0..] == m;
      text := text + fraction;
    }
  }

  lemma NoZeros()
    ensures Zeros(0) == ""
  {
  }

  /** `parseNumber` */
  method ParseNumber(data: seq<Byte>) returns (r: Result)
    requires data != []
    ensures r == NumberText(data)
  {
    var digits := data[0];
    if digits == 0x80 {
      return Ok("0");
    } else if |data| >= 2 {
      var negative := digits < 0x80;
      var m := Values(Mantissa(data), negative);
      var first := Value(data[1], negative);
      var text := PrintDigits(Exponent(data), m, first);
      r := Ok((if negative then "-" else "") + text);
    } else if digits == 0 {
      r := Ok("0");
    } else {
      r := Err(NOT_A_NUMBER);
    }
  }

  // ------------------------------------------------------------ what the bytes encode

  /** 100 to the power `e`. */
  ghost function Pow100(e: int): real
    decreases if e < 0 then -e else e
  {
    if e == 0 then 1.0 else if e > 0 then 100.0 * Pow100(e - 1) else Pow100(e + 1) / 100.0
  }

  /** The sum of `m[i] * 100^(k - 1 - i)`. */
  ghost function Sum(k: int, m: seq<nat>): real
    decreases |m|
  {
    if m == [] then 0.0 else m[0] as real * Pow100(k - 1) + Sum(k - 1, m[1..])
  }

  /** Zero, or base-100 digits with at least one of them. */
  predicate WellFormed(data: seq<Byte>) {
    data == [0x80] || HasDigits(data)
  }

  predicate HasDigits(data: seq<Byte>) {
    |data| >= 2 && data[0] != 0x80 && Mantissa(data) != []
    && forall i :: 0 <= i < |Mantissa(data)| ==>
         if data[0] < 0x80 then 2 <= Mantissa(data)[i] <= 101 else 1 <= Mantissa(data)[i] <= 100
  }

  ghost function Encoded(data: seq<Byte>): real
    requires WellFormed(data)
  {
    if data == [0x80] then 0.0
    else
      var negative := data[0] < 0x80;
      var magnitude := Sum(Exponent(data), Values(Mantissa(data), negative));
      if negative then -magnitude else magnitude
  }

  // ------------------------------------------------------------ what the text denotes

  predicate IsDigit(c: char) {
    '0' <= c <= '9'
  }

  function DigitOf(c: char): int {
    c as int - 48
  }

  /** The digits after a decimal point. */
  ghost function AfterPoint(s: string): real {
    if s == "" then 0.0 else (DigitOf(s[0]) as real + AfterPoint(s[1..])) / 10.0
  }

  /** Digits, and perhaps a point and more digits, after digits worth `before`. */
  ghost function Reading(s: string, before: int): real
    decreases |s|
  {
    if s == "" then before as real
    else if s[0] == '.' then before as real + AfterPoint(s[1..])
    else Reading(s[1..], 10 * before + DigitOf(s[0]))
  }

  ghost function Denoted(s: string): real {
    if s != "" && s[0] == '-' then -Reading(s[1..], 0) else Reading(s, 0)
  }

  predicate Digits(m: seq<nat>) {
    forall i :: 0 <= i < |m| ==> m[i] < 100
  }

  lemma Map10Digit(d: nat)
    requires d < 10
    ensures IsDigit(Map10(d)) && DigitOf(Map10(d)) == d && (Map10(d) == '0' <==> d == 0)
  {
  }

  lemma PairDigits(v: nat)
    requires v < 100
    ensures IsDigit(Pair(v)[0]) && IsDigit(Pair(v)[1]) && DigitOf(Pair(v)[0]) == v / 10 && DigitOf(Pair(v)[1]) == v % 10
  {
    Map10Digit(v / 10);
    Map10Digit(v % 10);
  }

  lemma FirstPairDigits(v: nat)
    requires v < 100
    ensures AllDigits(FirstPair(v)) && |FirstPair(v)| == (if v < 10 then 1 else 2) && (FirstPair(v)[0] == '0' <==> v == 0)
  {
    hide Map10;
    if v < 10 {
      Map10Digit(v);
    } else {
      PairDigits(v);
      Map10Digit(v / 10);
    }
  }

  lemma ReadPair(v: nat, rest: string, before: int)
    requires v < 100
    ensures Reading(Pair(v) + rest, before) == Reading(rest, 100 * before + v)
  {
    PairDigits(v);
    var s := Pair(v) + rest;
    assert s[1..] == [Pair(v)[1]] + rest && s[1..][1..] == rest;
    assert Reading(s, before) == Reading(s[1..], 10 * before + v / 10);
    assert Reading(s[1..], 10 * before + v / 10) == Reading(rest, 10 * (10 * before + v / 10) + v % 10);
  }

  lemma PairAfterPoint(v: nat, rest: string)
    requires v < 100
    ensures AfterPoint(Pair(v) + rest) == (v as real + AfterPoint(rest)) / 100.0
  {
    PairDigits(v);
    var s := Pair(v) + rest;
    assert s[1..] == [Pair(v)[1]] + rest && s[1..][1..] == rest;
    assert v as real == 10.0 * (v / 10) as real + (v % 10) as real;
  }

  lemma Pow100Next(e: int)
    ensures Pow100(e + 1) == 100.0 * Pow100(e)
  {
  }

  /** One digit more before the point multiplies by 100. */
  lemma {:induction false} SumShifted(k: int, m: seq<nat>)
    ensures Sum(k, m) == 100.0 * Sum(k - 1, m)
    decreases |m|
  {
    if m != [] {
      SumShifted(k - 1, m[1..]);
      Pow100Next(k - 2);
      var v, p := m[0] as real, Pow100(k - 2);
      assert v * (100.0 * p) == 100.0 * (v * p);
      assert Sum(k - 1, m) == v * p + Sum(k - 2, m[1..]);
    }
  }

  lemma SumFromPoint(m: seq<nat>)
    requires m != []
    ensures Sum(0, m) == (m[0] as real + Sum(0, m[1..])) / 100.0
  {
    SumShifted(0, m[1..]);
    assert Pow100(-1) == 1.0 / 100.0;
  }

  lemma {:induction false} FractionDenotes(m: seq<nat>)
    requires m != [] && Digits(m)
    ensures AfterPoint(Fraction(m)) == Sum(0, m)
    decreases |m|
  {
    SumFromPoint(m);
    if |m| == 1 {
      PairAfterPoint(m[0], "");
      assert Pair(m[0]) + "" == Pair(m[0]);
      LastPairAfterPoint(m[0]);
    } else {
      FractionDenotes(m[1..]);
      PairAfterPoint(m[0], Fraction(m[1..]));
    }
  }

  lemma LastPairAfterPoint(v: nat)
    requires v < 100
    ensures AfterPoint(LastPair(v)) == AfterPoint(Pair(v))
  {
    PairDigits(v);
    if v % 10 == 0 {
      assert Pair(v)[1..] == "0";
      assert AfterPoint("0") == 0.0;
      assert LastPair(v)[1..] == "";
    }
  }

  lemma {:induction false} ZerosAfterPoint(n: nat, m: seq<nat>, s: string)
    requires AfterPoint(s) == Sum(0, m)
    ensures AfterPoint(Zeros(n) + s) == Sum(0 - n, m)
    decreases n
  {
    if n == 0 {
      assert Zeros(0) + s == s;
    } else {
      ZerosAfterPoint(n - 1, m, s);
      SumShifted(1 - n, m);
      assert Zeros(n) + s == Pair(0) + (Zeros(n - 1) + s);
      PairAfterPoint(0, Zeros(n - 1) + s);
    }
  }

  /** The first `k` digits as an integer, with zeros where the digits have ended. */
  function Leading(k: nat, m: seq<nat>): nat {
    if k == 0 then 0 else 100 * Leading(k - 1, m) + (if k <= |m| then m[k - 1] else 0)
  }

  lemma {:induction false} SumOfLeading(k: nat, m: seq<nat>)
    ensures Sum(k, m) == Leading(k, m) as real + Sum(0, Drop(m, k))
  {
    if k == 0 {
      assert m[0..] == m;
    } else {
      SumOfLeading(k - 1, m);
      SumShifted(k, m);
      if k <= |m| {
        SumFromPoint(m[k - 1..]);
        assert m[k - 1..][1..] == m[k..];
      }
    }
  }

  lemma PairsFrom(m: seq<nat>, from: nat, n: nat)
    requires n > 0
    ensures Pairs(Drop(m, from), n) == Pair(if from < |m| then m[from] else 0) + Pairs(Drop(m, from + 1), n - 1)
  {
    if from < |m| {
      assert Drop(m, from)[1..] == Drop(m, from + 1);
    }
  }

  lemma {:induction false} ReadPairs(m: seq<nat>, from: nat, n: nat, rest: string)
    requires Digits(m)
    ensures Reading(Pairs(Drop(m, from), n) + rest, Leading(from, m)) == Reading(rest, Leading(from + n, m))
    decreases n
  {
    hide Reading, Drop, Pair;
    if n == 0 {
      assert Pairs(Drop(m, from), 0) + rest == rest;
    } else {
      hide Pairs;
      var tail := Pairs(Drop(m, from + 1), n - 1) + rest;
      var v := if from < |m| then m[from] else 0;
      PairsFrom(m, from, n);
      assert Pairs(Drop(m, from), n) + rest == Pair(v) + tail;
      ReadPair(v, tail, Leading(from, m));
      ReadPairs(m, from + 1, n - 1, rest);
    }
  }

  lemma ReadFirst(v: nat, rest: string)
    requires v < 100
    ensures Reading(FirstPair(v) + rest, 0) == Reading(rest, v)
  {
    if v < 10 {
      Map10Digit(v);
      assert (FirstPair(v) + rest)[1..] == rest;
    } else {
      ReadPair(v, rest, 0);
    }
  }

  lemma ReadZeroPoint(frac: string)
    ensures Reading(['0', '.'] + frac, 0) == AfterPoint(frac)
  {
    var s := ['0', '.'] + frac;
    assert s[1..] == ['.'] + frac && s[1..][1..] == frac;
    assert Reading(s, 0) == Reading(s[1..], 0);
  }

  lemma SmallTextDenotes(k: int, m: seq<nat>)
    requires m != [] && Digits(m) && k <= 0
    ensures Reading(Text(k, m, m[0]), 0) == Sum(k, m)
  {
    hide Fraction, Zeros, Sum, AfterPoint, Reading;
    FractionDenotes(m);
    ZerosAfterPoint(-k, m, Fraction(m));
    var frac := Zeros(-k) + Fraction(m);
    assert Text(k, m, m[0]) == ['0', '.'] + frac;
    ReadZeroPoint(frac);
  }

  lemma ReadRest(m: seq<nat>, k: nat, before: int)
    requires Digits(m)
    ensures Reading(Rest(k, m), before) == before as real + Sum(0, Drop(m, k))
  {
    if k < |m| {
      hide Fraction, Sum, AfterPoint;
      FractionDenotes(m[k..]);
      assert ("." + Fraction(m[k..]))[1..] == Fraction(m[k..]);
    }
  }

  /** What follows the integer part. */
  function Rest(k: nat, m: seq<nat>): string {
    if |m| <= k then "" else "." + Fraction(m[k..])
  }

  lemma TextSplit(k: nat, m: seq<nat>, first: nat)
    requires k > 0
    ensures Text(k, m, first) == FirstPair(first) + (Pairs(Drop(m, 1), k - 1) + Rest(k, m))
  {
    hide FirstPair, Pairs, Fraction, Drop;
  }

  lemma TextDenotes(k: int, m: seq<nat>)
    requires m != [] && Digits(m)
    ensures Reading(Text(k, m, m[0]), 0) == Sum(k, m)
  {
    hide Fraction, Reading, Sum, FirstPair, Pairs, Text, Rest, Leading;
    if k <= 0 {
      SmallTextDenotes(k, m);
    } else {
      TextSplit(k, m, m[0]);
      ReadFirst(m[0], Pairs(Drop(m, 1), k - 1) + Rest(k, m));
      LeadingOne(m);
      ReadPairs(m, 1, k - 1, Rest(k, m));
      ReadRest(m, k, Leading(k, m));
      SumOfLeading(k, m);
    }
  }

  lemma LeadingOne(m: seq<nat>)
    requires m != []
    ensures Leading(1, m) == m[0]
  {
  }

  /** The text denotes exactly the number that the bytes encode. */
  lemma NumberExact(data: seq<Byte>)
    requires WellFormed(data)
    ensures NumberText(data).Ok? && Denoted(NumberText(data).text) == Encoded(data)
  {
    hide Text, Reading, Sum;
    if data == [0x80] {
      ZeroReads();
      return;
    }
    var m := Values(Mantissa(data), data[0] < 0x80);
    TextDenotes(Exponent(data), m);
    TextStart(Exponent(data), m);
    var text := Text(Exponent(data), m, m[0]);
    assert ("-" + text)[1..] == text;
    assert "" + text == text;
  }

  lemma ZeroReads()
    ensures Reading("0", 0) == 0.0
  {
    assert "0"[1..] == "";
  }

  lemma TextStart(k: int, m: seq<nat>)
    requires m != [] && Digits(m)
    ensures Text(k, m, m[0]) != "" && IsDigit(Text(k, m, m[0])[0])
  {
    hide Fraction, Pairs, Zeros, FirstPair;
    FirstPairDigits(m[0]);
  }

  // ------------------------------------------------------------ the number grammar

  predicate AllDigits(s: string) {
    forall i :: 0 <= i < |s| ==> IsDigit(s[i])
  }

  /** `int` and `frac` of section 6 of RFC 8259, with the point at `p`, or no `frac` at all. */
  predicate IntFrac(s: string, p: nat) {
    && 0 < p <= |s| && AllDigits(s[..p]) && (s[0] == '0' ==> p == 1)
    && (p < |s| ==> s[p] == '.' && p + 1 < |s| && AllDigits(s[p + 1..]))
  }

  /** `number` of section 6 of RFC 8259, without an exponent part. */
  ghost predicate JsonNumber(s: string) {
    UnsignedNumber(if s != "" && s[0] == '-' then s[1..] else s)
  }

  ghost predicate UnsignedNumber(s: string) {
    exists p :: IntFrac(s, p)
  }

  lemma {:induction false} PairsAreDigits(m: seq<nat>, n: nat)
    requires Digits(m)
    ensures AllDigits(Pairs(m, n)) && |Pairs(m, n)| == 2 * n
    decreases n
  {
    if n > 0 {
      hide Pair;
      PairsAreDigits(Drop(m, 1), n - 1);
      assert m == [] ==> Drop(m, 1) == m;
      if m != [] {
        PairDigits(m[0]);
      }
    }
  }

  lemma {:induction false} FractionIsDigits(m: seq<nat>)
    requires m != [] && Digits(m)
    ensures AllDigits(Fraction(m)) && Fraction(m) != ""
    decreases |m|
  {
    hide Map10;
    PairDigits(m[0]);
    if |m| > 1 {
      FractionIsDigits(m[1..]);
    }
  }

  lemma {:induction false} ZerosAreDigits(n: nat)
    ensures AllDigits(Zeros(n))
  {
    if n > 0 {
      ZerosAreDigits(n - 1);
    }
  }

  /** The text as integer digits and an optional fraction. */
  lemma TextParts(k: int, m: seq<nat>) returns (whole: string, frac: string)
    requires m != [] && Digits(m)
    ensures AllDigits(whole) && AllDigits(frac) && whole != ""
    ensures Text(k, m, m[0]) == if frac == "" then whole else whole + "." + frac
    ensures whole[0] == '0' && |whole| > 1 <==> k > 1 && m[0] == 0
  {
    hide Fraction, Pairs, Zeros, FirstPair, AllDigits, Text;
    if k <= 0 {
      ZerosAreDigits(-k);
      FractionIsDigits(m);
      DigitsConcat(Zeros(-k), Fraction(m));
      OneDigit();
      SmallText(k, m);
      whole, frac := "0", Zeros(-k) + Fraction(m);
    } else {
      FirstPairDigits(m[0]);
      PairsAreDigits(Drop(m, 1), k - 1);
      DigitsConcat(FirstPair(m[0]), Pairs(Drop(m, 1), k - 1));
      whole, frac := FirstPair(m[0]) + Pairs(Drop(m, 1), k - 1), "";
      NoDigits();
      LargeText(k, m);
      if k < |m| {
        FractionIsDigits(m[k..]);
        frac := Fraction(m[k..]);
      }
    }
  }

  lemma OneDigit()
    ensures AllDigits("0")
  {
  }

  lemma NoDigits()
    ensures AllDigits("")
  {
  }

  lemma DigitsConcat(a: string, b: string)
    requires AllDigits(a) && AllDigits(b)
    ensures AllDigits(a + b)
  {
  }

  lemma SmallText(k: int, m: seq<nat>)
    requires k <= 0 && m != []
    ensures Text(k, m, m[0]) == "0" + "." + (Zeros(-k) + Fraction(m))
  {
    hide Zeros, Fraction;
  }

  lemma LargeText(k: int, m: seq<nat>)
    requires k > 0 && m != []
    ensures var whole := FirstPair(m[0]) + Pairs(Drop(m, 1), k - 1);
            Text(k, m, m[0]) == if |m| <= k then whole else whole + "." + Fraction(m[k..])
  {
    hide FirstPair, Pairs, Fraction, Drop;
    var whole := FirstPair(m[0]) + Pairs(Drop(m, 1), k - 1);
    assert whole + "" == whole;
  }

  /** Where the grammar's point must be. */
  lemma PointIsUnique(s: string, whole: string, frac: string, p: nat)
    requires AllDigits(whole) && AllDigits(frac) && whole != "" && s == (if frac == "" then whole else whole + "." + frac)
    requires IntFrac(s, p)
    ensures p == |whole|
  {
    assert forall i :: 0 <= i < |whole| ==> s[i] == whole[i];
    assert frac != "" ==> s[|whole|] == '.';
    assert forall i :: 0 <= i < p ==> IsDigit(s[..p][i]) && s[..p][i] == s[i];
  }

  lemma TextGrammar(k: int, m: seq<nat>)
    requires m != [] && Digits(m)
    ensures UnsignedNumber(Text(k, m, m[0])) <==> k <= 1 || m[0] != 0
  {
    hide Text;
    var whole, frac := TextParts(k, m);
    var t := Text(k, m, m[0]);
    assert t[0] == whole[0];
    if k <= 1 || m[0] != 0 {
      assert t[..|whole|] == whole;
      assert frac != "" ==> t[|whole| + 1..] == frac;
      assert IntFrac(t, |whole|);
    } else {
      forall p ensures !IntFrac(t, p) {
        if IntFrac(t, p) {
          PointIsUnique(t, whole, frac, p);
        }
      }
    }
  }

  lemma ZeroIsNumber()
    ensures UnsignedNumber("0")
  {
    assert IntFrac("0", 1);
  }

  /** The text is a JSON number exactly if it does not start with a zero digit before others. */
  lemma NumberGrammar(data: seq<Byte>)
    requires WellFormed(data)
    ensures NumberText(data).Ok?
    ensures JsonNumber(NumberText(data).text) <==> Exponent(data) <= 1 || Values(Mantissa(data), data[0] < 0x80)[0] != 0
  {
    hide Text, UnsignedNumber;
    if data == [0x80] {
      ZeroIsNumber();
      return;
    }
    var m := Values(Mantissa(data), data[0] < 0x80);
    var k := Exponent(data);
    TextGrammar(k, m);
    TextStart(k, m);
    var t, s := Text(k, m, m[0]), NumberText(data).text;
    assert ("-" + t)[1..] == t;
    assert (if s[0] == '-' then s[1..] else s) == t;
  }

  // ------------------------------------------------------------ negative numbers

  /** Oracle's negative form of a positive encoding. */
  function Complement(data: seq<Byte>, terminated: bool): seq<Byte>
    requires |data| >= 2 && data[0] > 0x80 && forall i :: 1 <= i < |data| ==> 1 <= data[i] <= 100
  {
    var first: Byte := 0xFF - data[0];
    [first] + seq(|data| - 1, i requires 0 <= i < |data| - 1 => Flipped(data[i + 1])) + (if terminated then [0x66] else [])
  }

  function Flipped(b: Byte): (r: Byte)
    requires 1 <= b <= 100
    ensures 2 <= r <= 101
  {
    102 - b
  }

  /** The negative form prints as the positive one behind a minus sign. */
  lemma NumberMirror(data: seq<Byte>, terminated: bool)
    requires |data| >= 2 && data[0] > 0x80 && forall i :: 1 <= i < |data| ==> 1 <= data[i] <= 100
    ensures NumberText(data).Ok?
    ensures NumberText(Complement(data, terminated)) == Ok("-" + NumberText(data).text)
  {
    var other := Complement(data, terminated);
    assert Mantissa(data) == data[1..];
    assert |Mantissa(other)| == |data| - 1;
    assert Values(Mantissa(other), true) == Values(Mantissa(data), false);
    assert Exponent(other) == Exponent(data);
  }

  /** Exactly these byte strings are errors, and these others are zero. */
  lemma NumberFails(data: seq<Byte>)
    requires data != []
    ensures NumberText(data).Err? <==> |data| == 1 && data[0] != 0x80 && data[0] != 0
    ensures NumberText(data).Err? ==> NumberText(data).code == 50009
    ensures data[0] == 0x80 || data == [0] ==> NumberText(data) == Ok("0")
  {
  }
}
