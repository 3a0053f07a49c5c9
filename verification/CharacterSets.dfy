/** The Unicode decoders of the database character sets and the UTF-8 that is written from them. */
module CharacterSets {
  import opened Basics

  const MAX_CODE := 0x10FFFF
  const UNKNOWN := 0xFFFD

  /** A code point and how many bytes it took. */
  datatype Decoded = Decoded(code: nat, used: nat)

  predicate Continuation(b: Byte) {
    0x80 <= b < 0xC0
  }

  /** The payload bits of the forms of two, three and four bytes. */
  function Code2(a: int, b: int): (r: nat)
    ensures r <= 0x7FF
  {
    a % 0x20 * 0x40 + b % 0x40
  }

  function Code3(a: int, b: int, c: int): (r: nat)
    ensures r <= 0xFFFF
  {
    a % 0x10 * 0x1000 + b % 0x40 * 0x40 + c % 0x40
  }

  function Code4(a: int, b: int, c: int, d: int): nat {
    a % 8 * 0x40000 + b % 0x40 * 0x1000 + c % 0x40 * 0x40 + d % 0x40
  }

  /** `CharacterSetAL32UTF8::decode`; masks and shifts are written as ranges, remainders and
      products. */
  function DecodeUtf8(s: seq<Byte>): (d: Decoded)
    requires s != []
    ensures d.code <= MAX_CODE && 1 <= d.used <= 4 && d.used <= |s|
  {
    if s[0] < 0x80 then Decoded(s[0], 1)
    else if |s| == 1 then Decoded(UNKNOWN, 1)
    else if !Continuation(s[1]) then Decoded(UNKNOWN, 2)
    else if 0xC0 <= s[0] < 0xE0 then Decoded(Code2(s[0], s[1]), 2)
    else if |s| == 2 then Decoded(UNKNOWN, 2)
    else if !Continuation(s[2]) then Decoded(UNKNOWN, 3)
    else if 0xE0 <= s[0] < 0xF0 then Decoded(Code3(s[0], s[1], s[2]), 3)
    else if |s| == 3 then Decoded(UNKNOWN, 3)
    else if !Continuation(s[3]) then Decoded(UNKNOWN, 4)
    else
      var code := Code4(s[0], s[1], s[2], s[3]);
      if 0xF0 <= s[0] < 0xF8 && code <= MAX_CODE && !Surrogate(code) then Decoded(code, 4) else Decoded(UNKNOWN, 4)
  }

  predicate Surrogate(code: nat) {
    0xD800 <= code <= 0xDFFF
  }

  /** A code unit, and the code point of two surrogates. */
  function Unit(a: Byte, b: Byte): (r: nat)
    ensures r <= 0xFFFF
  {
    var high: int := a;
    high * 0x100 + b
  }

  function Pair(a: int, b: Byte, c: int, d: Byte): (r: nat)
    ensures r <= MAX_CODE
  {
    var second: int, fourth: int := b, d;
    0x10000 + a % 4 * 0x40000 + second * 0x400 + c % 4 * 0x100 + fourth
  }

  /** `CharacterSetAL16UTF16::decode` */
  function DecodeUtf16(s: seq<Byte>): (d: Decoded)
    requires s != []
    ensures d.code <= MAX_CODE && 1 <= d.used <= 4 && d.used <= |s|
  {
    if |s| == 1 then Decoded(UNKNOWN, 1)
    else if 0xDC <= s[0] < 0xE0 then Decoded(UNKNOWN, 2)
    else if !(0xD8 <= s[0] < 0xDC) then Decoded(Unit(s[0], s[1]), 2)
    else if |s| < 4 then Decoded(UNKNOWN, |s|)
    else if 0xDC <= s[2] < 0xE0 then
      Decoded(Pair(s[0], s[1], s[2], s[3]), 4)
    else Decoded(UNKNOWN, 4)
  }

  /** The bytes that are written for a code point. */
  function Utf8(code: nat): (r: seq<Byte>)
    requires code <= MAX_CODE
    ensures 1 <= |r| <= 4
  {
    if code <= 0x7F then [code]
    else if code <= 0x7FF then [0xC0 + code / 0x40, 0x80 + code % 0x40]
    else if code <= 0xFFFF then [0xE0 + code / 0x1000, 0x80 + code / 0x40 % 0x40, 0x80 + code % 0x40]
    else [0xF0 + code / 0x40000, 0x80 + code / 0x1000 % 0x40, 0x80 + code / 0x40 % 0x40, 0x80 + code % 0x40]
  }

  // ------------------------------------------------------------ strings

  datatype Charset = AL32UTF8 | AL16UTF16 {
    function Decode(s: seq<Byte>): (d: Decoded)
      requires s != []
      ensures d.code <= MAX_CODE && 1 <= d.used <= 4 && d.used <= |s|
    {
      match this
      case AL32UTF8 => DecodeUtf8(s)
      case AL16UTF16 => DecodeUtf16(s)
    }
  }

  /** A whole string, character by character. */
  function Transcode(charset: Charset, s: seq<Byte>): seq<Byte>
    decreases |s|
  {
    if s == [] then [] else Utf8(charset.Decode(s).code) + Transcode(charset, s[charset.Decode(s).used..])
  }

  function Utf8All(codes: seq<nat>): seq<Byte>
    requires forall i :: 0 <= i < |codes| ==> codes[i] <= MAX_CODE
  {
    if codes == [] then [] else Utf8(codes[0]) + Utf8All(codes[1..])
  }

  /** The output is at most three times as long as the input. */
  lemma {:induction false} TranscodeSize(charset: Charset, s: seq<Byte>)
    ensures |Transcode(charset, s)| <= 3 * |s|
    decreases |s|
  {
    if s != [] {
      TranscodeSize(charset, s[charset.Decode(s).used..]);
    }
  }

  // ------------------------------------------------------------ UTF-8 to UTF-8

  /** Decoding reads back the bytes of a code point, whatever follows them. */
  lemma DecodesItsUtf8(code: nat, rest: seq<Byte>)
    requires code <= MAX_CODE
    ensures DecodeUtf8(Utf8(code) + rest) == Decoded(code, |Utf8(code)|)
  {
    hide Code2, Code3, Code4;
    var r := Utf8(code);
    if |r| == 2 {
      Joins2(code);
    } else if |r| == 3 {
      Joins3(code);
    } else if |r| == 4 {
      Joins4(code);
    }
  }

  lemma Joins2(code: nat)
    requires code <= 0x7FF
    ensures Code2(0xC0 + code / 0x40, 0x80 + code % 0x40) == code
  {
    assert (0xC0 + code / 0x40) % 0x20 == code / 0x40;
    assert (0x80 + code % 0x40) % 0x40 == code % 0x40;
  }

  lemma Joins3(code: nat)
    requires code <= 0xFFFF
    ensures Code3(0xE0 + code / 0x1000, 0x80 + code / 0x40 % 0x40, 0x80 + code % 0x40) == code
  {
    var h, m, l := code / 0x1000, code / 0x40 % 0x40, code % 0x40;
    assert code / 0x40 == h * 0x40 + m;
    assert (0xE0 + h) % 0x10 == h && (0x80 + m) % 0x40 == m && (0x80 + l) % 0x40 == l;
  }

  lemma Joins4(code: nat)
    requires code <= MAX_CODE
    ensures Code4(0xF0 + code / 0x40000, 0x80 + code / 0x1000 % 0x40, 0x80 + code / 0x40 % 0x40, 0x80 + code % 0x40) == code
  {
    var h, i, m, l := code / 0x40000, code / 0x1000 % 0x40, code / 0x40 % 0x40, code % 0x40;
    assert code / 0x1000 == h * 0x40 + i;
    assert code / 0x40 == code / 0x1000 * 0x40 + m;
    assert (0xF0 + h) % 8 == h && (0x80 + i) % 0x40 == i && (0x80 + m) % 0x40 == m && (0x80 + l) % 0x40 == l;
  }

  /** `UTF8-char` of section 4 of RFC 3629 as byte ranges, with the surrogates `ED A0..BF` besides
      when `surrogates` is set: its length, or 0. */
  function CharLength(s: seq<Byte>, surrogates: bool): (n: nat)
    ensures n <= |s|
  {
    if s == [] then 0
    else if s[0] <= 0x7F then 1
    else if |s| >= 2 && 0xC2 <= s[0] <= 0xDF && Continuation(s[1]) then 2
    else if |s| >= 3 && Continuation(s[2])
            && ((s[0] == 0xE0 && 0xA0 <= s[1] <= 0xBF) || (0xE1 <= s[0] <= 0xEC && Continuation(s[1]))
                || (s[0] == 0xED && 0x80 <= s[1] <= (if surrogates then 0xBF else 0x9F)) || (0xEE <= s[0] <= 0xEF && Continuation(s[1]))) then 3
    else if |s| >= 4 && Continuation(s[2]) && Continuation(s[3])
            && ((s[0] == 0xF0 && 0x90 <= s[1] <= 0xBF) || (0xF1 <= s[0] <= 0xF3 && Continuation(s[1]))
                || (s[0] == 0xF4 && 0x80 <= s[1] <= 0x8F)) then 4
    else 0
  }

  /** `UTF8-octets` of section 4 of RFC 3629. */
  predicate WellFormed(s: seq<Byte>, surrogates: bool)
    decreases |s|
  {
    s == [] || (CharLength(s, surrogates) > 0 && WellFormed(s[CharLength(s, surrogates)..], surrogates))
  }

  lemma WellFormedChar(s: seq<Byte>)
    requires CharLength(s, true) > 0
    ensures var d := DecodeUtf8(s);
            d.used == CharLength(s, true) && Utf8(d.code) == s[..d.used]
  {
    hide Code2, Code3, Code4, Utf8;
    var n := CharLength(s, true);
    if n == 1 {
      assert Utf8(s[0]) == [s[0]] by { Splits1(s[0]); }
    } else if n == 2 {
      Splits2(s[0], s[1]);
    } else if n == 3 {
      Splits3(s[0], s[1], s[2]);
    } else {
      Splits4(s[0], s[1], s[2], s[3]);
    }
  }

  lemma Splits1(a: nat)
    requires a <= 0x7F
    ensures Utf8(a) == [a]
  {
  }

  lemma Splits2(a: int, b: int)
    requires 0xC2 <= a <= 0xDF && 0x80 <= b <= 0xBF
    ensures Utf8(Code2(a, b)) == [a, b]
  {
    assert a % 0x20 == a - 0xC0 && b % 0x40 == b - 0x80;
  }

  lemma Splits3(a: int, b: int, c: int)
    requires 0xE0 <= a <= 0xEF && 0x80 <= b <= 0xBF && 0x80 <= c <= 0xBF && (a == 0xE0 ==> b >= 0xA0)
    ensures Utf8(Code3(a, b, c)) == [a, b, c]
  {
    Payload3(a, b, c);
    hide Code3;
    SplitsThree(a - 0xE0, b - 0x80, c - 0x80);
  }

  lemma Payload3(a: int, b: int, c: int)
    requires 0xE0 <= a <= 0xEF && 0x80 <= b <= 0xBF && 0x80 <= c <= 0xBF
    ensures Code3(a, b, c) == ((a - 0xE0) * 0x40 + (b - 0x80)) * 0x40 + (c - 0x80)
  {
    assert a % 0x10 == a - 0xE0;
    assert b % 0x40 == b - 0x80;
    assert c % 0x40 == c - 0x80;
  }

  lemma SplitsThree(h: nat, m: nat, l: nat)
    requires h <= 0xF && m < 0x40 && l < 0x40 && (h == 0 ==> m >= 0x20)
    ensures var code := (h * 0x40 + m) * 0x40 + l;
            0x7FF < code <= 0xFFFF && Utf8(code) == [0xE0 + h, 0x80 + m, 0x80 + l]
  {
    var x := h * 0x40 + m;
    LastSix(x, l);
    LastSix(h, m);
    Shifts(x * 0x40 + l);
  }

  lemma Splits4(a: int, b: int, c: int, d: int)
    requires 0xF0 <= a <= 0xF4 && 0x80 <= b <= 0xBF && 0x80 <= c <= 0xBF && 0x80 <= d <= 0xBF
    requires (a == 0xF0 ==> b >= 0x90) && (a == 0xF4 ==> b <= 0x8F)
    ensures 0xFFFF < Code4(a, b, c, d) <= MAX_CODE && Utf8(Code4(a, b, c, d)) == [a, b, c, d]
  {
    Payload4(a, b, c, d);
    hide Code4;
    Splits(a - 0xF0, b - 0x80, c - 0x80, d - 0x80);
  }

  lemma Payload4(a: int, b: int, c: int, d: int)
    requires 0xF0 <= a < 0xF8 && 0x80 <= b <= 0xBF && 0x80 <= c <= 0xBF && 0x80 <= d <= 0xBF
    ensures Code4(a, b, c, d) == (((a - 0xF0) * 0x40 + (b - 0x80)) * 0x40 + (c - 0x80)) * 0x40 + (d - 0x80)
  {
    assert a % 8 == a - 0xF0;
    assert b % 0x40 == b - 0x80;
    assert c % 0x40 == c - 0x80;
    assert d % 0x40 == d - 0x80;
  }

  lemma Splits(h: nat, i: nat, m: nat, l: nat)
    requires h <= 4 && i < 0x40 && m < 0x40 && l < 0x40 && (h == 0 ==> i >= 0x10) && (h == 4 ==> i < 0x10)
    ensures var code := ((h * 0x40 + i) * 0x40 + m) * 0x40 + l;
            0xFFFF < code <= MAX_CODE && Utf8(code) == [0xF0 + h, 0x80 + i, 0x80 + m, 0x80 + l]
  {
    var x := h * 0x40 + i;
    var y := x * 0x40 + m;
    LastSix(y, l);
    LastSix(x, m);
    LastSix(h, i);
    Shifts(y * 0x40 + l);
  }

  lemma LastSix(x: nat, r: nat)
    requires r < 0x40
    ensures (x * 0x40 + r) / 0x40 == x && (x * 0x40 + r) % 0x40 == r
  {
  }

  lemma Shifts(x: nat)
    ensures x / 0x1000 == x / 0x40 / 0x40 && x / 0x40000 == x / 0x40 / 0x40 / 0x40
  {
  }

  lemma Utf8IsChar(code: nat, rest: seq<Byte>)
    requires code <= MAX_CODE
    ensures CharLength(Utf8(code) + rest, true) == |Utf8(code)|
  {
    if 0x7F < code <= 0x7FF {
      assert 2 <= code / 0x40 <= 0x1F;
    } else if 0x7FF < code <= 0xFFFF {
      var h := code / 0x1000;
      assert h <= 0xF && (h == 0 ==> code / 0x40 % 0x40 >= 0x20);
    } else if 0xFFFF < code {
      var h := code / 0x40000;
      assert h <= 4 && (h == 0 ==> code / 0x1000 % 0x40 >= 0x10) && (h == 4 ==> code / 0x1000 % 0x40 <= 0xF);
    }
  }

  lemma {:induction false} StrictIsGeneral(s: seq<Byte>)
    requires WellFormed(s, false)
    ensures WellFormed(s, true)
    decreases |s|
  {
    if s != [] {
      StrictIsGeneral(s[CharLength(s, false)..]);
    }
  }

  /** UTF-8 text is copied unchanged if and only if it is well formed, where encoded surrogates
      count as well formed too. */
  lemma {:induction false} Utf8Unchanged(s: seq<Byte>)
    ensures Transcode(AL32UTF8, s) == s <==> WellFormed(s, true)
    decreases |s|
  {
    if s != [] {
      hide CharLength, DecodeUtf8, Utf8;
      var d := DecodeUtf8(s);
      Utf8Unchanged(s[d.used..]);
      if CharLength(s, true) > 0 {
        WellFormedChar(s);
        HeadUnchanged(s, Transcode(AL32UTF8, s[d.used..]));
      } else if Transcode(AL32UTF8, s) == s {
        Utf8IsChar(d.code, Transcode(AL32UTF8, s[d.used..]));
      }
    }
  }

  /** UTF-8 as RFC 3629 has it is copied unchanged. */
  lemma WellFormedUnchanged(s: seq<Byte>)
    requires WellFormed(s, false)
    ensures Transcode(AL32UTF8, s) == s
  {
    StrictIsGeneral(s);
    Utf8Unchanged(s);
  }

  lemma HeadUnchanged(s: seq<Byte>, after: seq<Byte>)
    requires s != [] && Utf8(DecodeUtf8(s).code) == s[..DecodeUtf8(s).used]
    ensures Utf8(DecodeUtf8(s).code) + after == s <==> after == s[DecodeUtf8(s).used..]
  {
    hide DecodeUtf8, Utf8;
    var d := DecodeUtf8(s);
    assert (Utf8(d.code) + after)[d.used..] == after;
    assert s[..d.used] + s[d.used..] == s;
  }

  // ------------------------------------------------------------ UTF-16 to UTF-8

  /** Section 2.1 of RFC 2781, big-endian. */
  function Utf16(code: nat): (r: seq<Byte>)
    requires code <= MAX_CODE
  {
    if code < 0x10000 then [code / 0x100, code % 0x100]
    else
      var u := code - 0x10000;
      [0xD8 + u / 0x40000, u / 0x400 % 0x100, 0xDC + u / 0x100 % 4, u % 0x100]
  }

  function Utf16All(codes: seq<nat>): seq<Byte>
    requires forall i :: 0 <= i < |codes| ==> codes[i] <= MAX_CODE
  {
    if codes == [] then [] else Utf16(codes[0]) + Utf16All(codes[1..])
  }

  lemma DecodesItsUtf16(code: nat, rest: seq<Byte>)
    requires code <= MAX_CODE
    ensures (DecodeUtf16(Utf16(code) + rest) == Decoded(code, |Utf16(code)|)) <==> !Surrogate(code)
  {
    if code >= 0x10000 {
      hide Pair;
      JoinsPair(code);
    }
  }

  lemma JoinsPair(code: nat)
    requires 0x10000 <= code <= MAX_CODE
    ensures var u := code - 0x10000;
            0xD8 + u / 0x40000 < 0xDC && Pair(0xD8 + u / 0x40000, u / 0x400 % 0x100, 0xDC + u / 0x100 % 4, u % 0x100) == code
  {
    var u := code - 0x10000;
    var h, i, m, l := u / 0x40000, u / 0x400 % 0x100, u / 0x100 % 4, u % 0x100;
    assert u / 0x400 == h * 0x100 + i;
    assert u / 0x100 == u / 0x400 * 4 + m;
    assert (0xD8 + h) % 4 == h && (0xDC + m) % 4 == m;
  }

  /** Every string of Unicode scalar values in UTF-16 becomes the UTF-8 of the same scalar values. */
  lemma {:induction false} Utf16BecomesUtf8(codes: seq<nat>)
    requires forall i :: 0 <= i < |codes| ==> codes[i] <= MAX_CODE && !Surrogate(codes[i])
    ensures Transcode(AL16UTF16, Utf16All(codes)) == Utf8All(codes)
    decreases |codes|
  {
    if codes != [] {
      var rest := Utf16All(codes[1..]);
      DecodesItsUtf16(codes[0], rest);
      Utf16BecomesUtf8(codes[1..]);
      assert (Utf16(codes[0]) + rest)[|Utf16(codes[0])|..] == rest;
    }
  }

  // ------------------------------------------------------------ everything else

  /** How many bytes the first byte announces; bytes that announce nothing count as four. */
  function Announced(a: Byte): nat {
    if a < 0x80 then 1 else if 0xC0 <= a < 0xE0 then 2 else if 0xE0 <= a < 0xF0 then 3 else 4
  }

  /** The bits after the lead byte, six from each byte. */
  function Payload(lead: nat, rest: seq<Byte>): nat
    decreases |rest|
  {
    if rest == [] then lead else Payload(lead, rest[..|rest| - 1]) * 0x40 + rest[|rest| - 1] % 0x40
  }

  function LeadBits(a: Byte): nat {
    if a < 0x80 then a else if Announced(a) == 2 then a % 0x20 else if Announced(a) == 3 then a % 0x10 else a % 8
  }

  predicate Announces(a: Byte) {
    a < 0x80 || 0xC0 <= a < 0xF8
  }

  /** Bytes of the announced length: the code point of their bits, and the replacement character if the
      first byte announces nothing or four bytes hold no code point. */
  lemma CompleteForm(s: seq<Byte>)
    requires s != [] && |s| >= Announced(s[0]) && forall j :: 1 <= j < Announced(s[0]) ==> Continuation(s[j])
    ensures var n := Announced(s[0]);
            var bits := Payload(LeadBits(s[0]), s[1..n]);
            var bad := !Announces(s[0]) || (n == 4 && (bits > MAX_CODE || Surrogate(bits)));
            DecodeUtf8(s) == Decoded(if bad then UNKNOWN else bits, n)
  {
    hide Code2, Code3, Code4;
    var n := Announced(s[0]);
    if n == 2 {
      Payload2(s);
    } else if n == 3 {
      Payload3Of(s);
    } else if n == 4 {
      Payload4Of(s);
    }
  }

  lemma Payload2(s: seq<Byte>)
    requires |s| >= 2 && Announced(s[0]) == 2 && Continuation(s[1])
    ensures Payload(LeadBits(s[0]), s[1..2]) == Code2(s[0], s[1])
  {
    assert s[1..2][..1] == s[1..2] && s[1..2][..0] == [];
  }

  lemma Payload3Of(s: seq<Byte>)
    requires |s| >= 3 && Announced(s[0]) == 3 && Continuation(s[1]) && Continuation(s[2])
    ensures Payload(LeadBits(s[0]), s[1..3]) == Code3(s[0], s[1], s[2])
  {
    var r := s[1..3];
    assert r[..1] == [s[1]] && [s[1]][..0] == [];
    assert Payload(LeadBits(s[0]), [s[1]]) == LeadBits(s[0]) * 0x40 + s[1] % 0x40;
  }

  lemma Payload4Of(s: seq<Byte>)
    requires |s| >= 4 && Announced(s[0]) == 4 && Continuation(s[1]) && Continuation(s[2]) && Continuation(s[3])
    ensures Payload(LeadBits(s[0]), s[1..4]) == Code4(s[0], s[1], s[2], s[3])
  {
    var r := s[1..4];
    var lead := LeadBits(s[0]);
    assert r[..2] == [s[1], s[2]] && [s[1], s[2]][..1] == [s[1]] && [s[1]][..0] == [];
    assert Payload(lead, [s[1]]) == lead * 0x40 + s[1] % 0x40;
    assert Payload(lead, [s[1], s[2]]) == Payload(lead, [s[1]]) * 0x40 + s[2] % 0x40;
  }

  /** Bytes that break off: the replacement character, for everything up to and with the byte that
      does not continue the character. */
  lemma BrokenForm(s: seq<Byte>, i: nat)
    requires s != [] && 1 <= i < Announced(s[0]) && i <= |s| && (forall j :: 1 <= j < i ==> Continuation(s[j]))
    requires i == |s| || !Continuation(s[i])
    ensures DecodeUtf8(s) == Decoded(UNKNOWN, if i < |s| then i + 1 else i)
  {
  }

  /** UTF-16 that is not a scalar value: the replacement character, for the code unit, or for two of
      them after a high surrogate, as far as there are bytes. */
  lemma Utf16Forms(s: seq<Byte>)
    requires s != []
    ensures var d := DecodeUtf16(s);
            var wanted := if 0xD8 <= s[0] < 0xDC then 4 else 2;
            && d.used == (if wanted <= |s| then wanted else |s|)
            && ((d.used == wanted && !Surrogate(d.code) && Utf16(d.code) == s[..d.used])
                || (d.code == UNKNOWN && forall code: nat :: code <= MAX_CODE && !Surrogate(code) ==> !(Utf16(code) <= s)))
  {
    var d := DecodeUtf16(s);
    if |s| >= 4 && 0xD8 <= s[0] < 0xDC && 0xDC <= s[2] < 0xE0 {
      hide Pair;
      SplitsPair(s[0], s[1], s[2], s[3]);
    } else if !(|s| >= 2 && !(0xD8 <= s[0] < 0xE0)) {
      forall code: nat | code <= MAX_CODE && !Surrogate(code) ensures !(Utf16(code) <= s) {
        DecodesPrefix(s, code);
      }
    }
  }

  lemma DecodesPrefix(s: seq<Byte>, code: nat)
    requires s != [] && code <= MAX_CODE && !Surrogate(code)
    ensures Utf16(code) <= s ==> DecodeUtf16(s) == Decoded(code, |Utf16(code)|)
  {
    if Utf16(code) <= s {
      DecodesItsUtf16(code, s[|Utf16(code)|..]);
      assert Utf16(code) + s[|Utf16(code)|..] == s;
    }
  }

  lemma SplitsPair(a: Byte, b: Byte, c: Byte, d: Byte)
    requires 0xD8 <= a < 0xDC && 0xDC <= c < 0xE0
    ensures !Surrogate(Pair(a, b, c, d)) && Utf16(Pair(a, b, c, d)) == [a, b, c, d]
  {
    var x: int, y: int, z: int, w: int := a - 0xD8, b, c - 0xDC, d;
    assert a % 4 == x && c % 4 == z;
    var u := ((x * 0x100 + y) * 4 + z) * 0x100 + w;
    assert Pair(a, b, c, d) == 0x10000 + u;
    LastByte((x * 0x100 + y) * 4 + z, w);
    LastTwo(x * 0x100 + y, z);
    LastByte(x, y);
    UnitShifts(u);
  }

  lemma LastByte(x: nat, r: nat)
    requires r < 0x100
    ensures (x * 0x100 + r) / 0x100 == x && (x * 0x100 + r) % 0x100 == r
  {
  }

  lemma LastTwo(x: nat, r: nat)
    requires r < 4
    ensures (x * 4 + r) / 4 == x && (x * 4 + r) % 4 == r
  {
  }

  lemma UnitShifts(u: nat)
    ensures u / 0x400 == u / 0x100 / 4 && u / 0x40000 == u / 0x100 / 4 / 0x100
  {
  }
}
