/** Strings in the JSON output: which bytes are escaped, and what a JSON reader makes of them. */
module JsonEscape {
  import opened Basics
  import opened QueueLayout
  import opened QueueSteps
  import opened QueueRuns

  const QUOTE: Byte := 34
  const SLASH: Byte := 47
  const BACKSLASH: Byte := 92

  /** The letter after the backslash for characters with a short escape. */
  function Letter(b: Byte): (r: Option<Byte>) {
    if b == 9 then Some(116)
    else if b == 13 then Some(114)
    else if b == 10 then Some(110)
    else if b == 12 then Some(102)
    else if b == 8 then Some(98)
    else if b == QUOTE || b == BACKSLASH || b == SLASH then Some(b)
    else None
  }

  /** The bytes that get a `\u00` escape: two decimal digits follow. */
  predicate Numbered(b: Byte) {
    b <= 30 && Letter(b).None?
  }

  function EscapeOne(b: Byte): (r: seq<Byte>)
    ensures 1 <= |r| <= 6
  {
    if Letter(b).Some? then [BACKSLASH, Letter(b).value]
    else if Numbered(b) then [BACKSLASH, 117, 48, 48, 48 + b / 10, 48 + b % 10]
    else [b]
  }

  function Escape(s: seq<Byte>): seq<Byte> {
    if s == [] then [] else EscapeOne(s[0]) + Escape(s[1..])
  }

  /** Exactly these bytes are not written as they are. */
  lemma EscapedBytes(b: Byte)
    ensures EscapeOne(b) == [b] <==> b > 30 && b != '\"' as int && b != '/' as int && b != '\\' as int
  {
  }

  lemma {:induction false} EscapeMore(s: seq<Byte>, b: Byte)
    ensures Escape(s + [b]) == Escape(s) + EscapeOne(b)
  {
    if s == [] {
      assert Escape([b]) == EscapeOne(b) + Escape([]);
    } else {
      assert (s + [b])[1..] == s[1..] + [b];
      EscapeMore(s[1..], b);
    }
  }

  /** The cases of `appendEscapeInternal`. */
  method EscapeByte(b: Byte) returns (text: seq<Byte>)
    ensures text == EscapeOne(b)
  {
    match b {
      case 9 => text := [BACKSLASH, 116];
      case 13 => text := [BACKSLASH, 114];
      case 10 => text := [BACKSLASH, 110];
      case 12 => text := [BACKSLASH, 102];
      case 8 => text := [BACKSLASH, 98];
      case _ =>
        if b <= 30 {
          text := [BACKSLASH, 117, 48, 48] + [48 + b / 10, 48 + b % 10];
        } else if b == QUOTE || b == BACKSLASH || b == SLASH {
          text := [BACKSLASH, b];
        } else {
          text := [b];
        }
    }
  }

  /** `appendEscapeInternal` */
  method EscapeText(str: seq<Byte>) returns (text: seq<Byte>)
    ensures text == Escape(str)
  {
    hide EscapeOne;
    text := [];
    for i := 0 to |str|
      invariant text == Escape(str[..i])
    {
      assert str[..i + 1] == str[..i] + [str[i]];
      EscapeMore(str[..i], str[i]);
      var part := EscapeByte(str[i]);
      text := text + part;
    }
    assert str[..|str|] == str;
  }

  // ------------------------------------------------------------ the JSON reader

  function HexValue(b: Byte): Option<nat> {
    if 48 <= b <= 57 then Some(b - 48)
    else if 65 <= b <= 70 then Some(b - 55)
    else if 97 <= b <= 102 then Some(b - 87)
    else None
  }

  /** The character that an escape letter of section 7 of RFC 8259 stands for. */
  function Meaning(b: Byte): Option<Byte> {
    if b == QUOTE || b == BACKSLASH || b == SLASH then Some(b)
    else if b == 98 then Some(8)
    else if b == 102 then Some(12)
    else if b == 110 then Some(10)
    else if b == 114 then Some(13)
    else if b == 116 then Some(9)
    else None
  }

  /** The next character of the inside of a string by section 7 of RFC 8259, and how many bytes it
      takes; `\u` escapes above 7F, which `Escape` never writes, are not read. */
  function ReadOne(s: seq<Byte>): (r: Option<(Byte, nat)>)
    requires s != []
    ensures r.Some? ==> 1 <= r.value.1 <= |s|
  {
    if s[0] != BACKSLASH then if s[0] < 0x20 || s[0] == QUOTE then None else Some((s[0], 1))
    else if |s| == 1 then None
    else if s[1] != 117 then if Meaning(s[1]).Some? then Some((Meaning(s[1]).value, 2)) else None
    else if |s| < 6 then None
    else
      var h, l := HexValue(s[4]), HexValue(s[5]);
      if s[2] == 48 && s[3] == 48 && h.Some? && l.Some? && h.value < 8 && l.value < 16 then Some((h.value * 16 + l.value, 6)) else None
  }

  function Unescape(s: seq<Byte>): Option<seq<Byte>>
    decreases |s|
  {
    if s == [] then Some([])
    else
      var first := ReadOne(s);
      if first.None? then None
      else
        var rest := Unescape(s[first.value.1..]);
        if rest.None? then None else Some([first.value.0] + rest.value)
  }

  /** What a reader gets for one byte: the decimal digits of a `\u00` escape are read as hexadecimal
      ones, and byte 31 is refused. */
  function ReadBack(b: Byte): Option<Byte> {
    if b == 31 then None else if Numbered(b) then Some(b / 10 * 16 + b % 10) else Some(b)
  }

  lemma ReadsEscaped(b: Byte, rest: seq<Byte>)
    ensures ReadOne(EscapeOne(b) + rest) == if ReadBack(b).None? then None else Some((ReadBack(b).value, |EscapeOne(b)|))
  {
    if Numbered(b) {
      assert HexValue(48 + b / 10) == Some(b / 10) && HexValue(48 + b % 10) == Some(b % 10);
    }
  }

  function ReadBackAll(s: seq<Byte>): Option<seq<Byte>> {
    if s == [] then Some([])
    else
      var first, rest := ReadBack(s[0]), ReadBackAll(s[1..]);
      if first.None? || rest.None? then None else Some([first.value] + rest.value)
  }

  /** What a JSON reader makes of any escaped string. */
  lemma {:induction false} UnescapeEscape(s: seq<Byte>)
    ensures Unescape(Escape(s)) == ReadBackAll(s)
  {
    if s != [] {
      hide ReadOne, EscapeOne, ReadBack;
      var rest := Escape(s[1..]);
      ReadsEscaped(s[0], rest);
      UnescapeEscape(s[1..]);
      assert (EscapeOne(s[0]) + rest)[|EscapeOne(s[0])|..] == rest;
    }
  }

  /** Bytes that do not survive. */
  predicate Lost(b: Byte) {
    b == 11 || 14 <= b <= 31
  }

  lemma ReadsBackItself(b: Byte)
    ensures ReadBack(b) == Some(b) <==> !Lost(b)
  {
  }

  lemma {:induction false} ReadBackUnchanged(s: seq<Byte>)
    ensures ReadBackAll(s) == Some(s) <==> forall i :: 0 <= i < |s| ==> !Lost(s[i])
  {
    if s != [] {
      ReadsBackItself(s[0]);
      ReadBackUnchanged(s[1..]);
      assert s == [s[0]] + s[1..];
      if ReadBackAll(s) == Some(s) {
        assert ReadBack(s[0]).value == ([ReadBack(s[0]).value] + ReadBackAll(s[1..]).value)[0] == s[0];
        assert ReadBackAll(s[1..]).value == ([ReadBack(s[0]).value] + ReadBackAll(s[1..]).value)[1..] == s[1..];
      }
    }
  }

  /** Reading back an escaped string gives the string if and only if it has none of the bytes 11 and
      14 to 31. */
  lemma EscapeRoundTrip(s: seq<Byte>)
    ensures Unescape(Escape(s)) == Some(s) <==> forall i :: 0 <= i < |s| ==> !Lost(s[i])
  {
    UnescapeEscape(s);
    ReadBackUnchanged(s);
  }

  // ------------------------------------------------------------ no bare quote

  /** Where the string that starts at the front of `s` ends: at the first quote that is not behind a
      backslash. */
  function ClosingQuote(s: seq<Byte>): Option<nat>
    decreases |s|
  {
    if s == [] then None
    else if s[0] == QUOTE then Some(0)
    else
      var n := if s[0] == BACKSLASH && |s| > 1 then 2 else 1;
      var rest := ClosingQuote(s[n..]);
      if rest.None? then None else Some(n + rest.value)
  }

  function Later(n: nat, at: Option<nat>): Option<nat> {
    if at.None? then None else Some(n + at.value)
  }

  lemma SkipsPlain(b: Byte, rest: seq<Byte>)
    requires b != QUOTE && b != BACKSLASH
    ensures ClosingQuote([b] + rest) == Later(1, ClosingQuote(rest))
  {
    assert ([b] + rest)[1..] == rest;
  }

  lemma SkipsPair(b: Byte, rest: seq<Byte>)
    ensures ClosingQuote([BACKSLASH, b] + rest) == Later(2, ClosingQuote(rest))
  {
    assert ([BACKSLASH, b] + rest)[2..] == rest;
  }

  lemma {:induction false} SkipsAllPlain(s: seq<Byte>, rest: seq<Byte>)
    requires forall i :: 0 <= i < |s| ==> s[i] != QUOTE && s[i] != BACKSLASH
    ensures ClosingQuote(s + rest) == Later(|s|, ClosingQuote(rest))
  {
    if s == [] {
      assert s + rest == rest;
    } else {
      hide ClosingQuote;
      SkipsAllPlain(s[1..], rest);
      SkipsPlain(s[0], s[1..] + rest);
      assert s + rest == [s[0]] + (s[1..] + rest);
    }
  }

  lemma SkipsEscaped(b: Byte, rest: seq<Byte>)
    ensures ClosingQuote(EscapeOne(b) + rest) == Later(|EscapeOne(b)|, ClosingQuote(rest))
  {
    hide ClosingQuote;
    if Letter(b).Some? {
      SkipsPair(Letter(b).value, rest);
    } else if Numbered(b) {
      var digits: seq<Byte> := [48, 48, 48 + b / 10, 48 + b % 10];
      assert EscapeOne(b) + rest == [BACKSLASH, 117] + (digits + rest);
      SkipsPair(117, digits + rest);
      SkipsAllPlain(digits, rest);
    } else {
      SkipsPlain(b, rest);
    }
  }

  /** No byte of an escaped string ends the string: it ends at the quote written behind it. */
  lemma {:induction false} EndsAtItsQuote(s: seq<Byte>, rest: seq<Byte>)
    ensures ClosingQuote(Escape(s) + [QUOTE] + rest) == Some(|Escape(s)|)
  {
    if s == [] {
      assert Escape(s) + [QUOTE] + rest == [QUOTE] + rest;
    } else {
      hide EscapeOne, ClosingQuote;
      EndsAtItsQuote(s[1..], rest);
      var tail := Escape(s[1..]) + [QUOTE] + rest;
      assert Escape(s) + [QUOTE] + rest == EscapeOne(s[0]) + tail;
      SkipsEscaped(s[0], tail);
    }
  }

  // ------------------------------------------------------------ the fast path

  function CountShort(s: seq<Byte>): nat {
    if s == [] then 0 else (if Letter(s[0]).Some? then 1 else 0) + CountShort(s[1..])
  }

  function CountNumbered(s: seq<Byte>): nat {
    if s == [] then 0 else (if Numbered(s[0]) then 1 else 0) + CountNumbered(s[1..])
  }

  lemma {:induction false} EscapeSize(s: seq<Byte>)
    ensures |Escape(s)| == |s| + CountShort(s) + 5 * CountNumbered(s)
    ensures CountShort(s) + CountNumbered(s) <= |s|
  {
    if s != [] {
      EscapeSize(s[1..]);
    }
  }

  /** The guard of `appendEscape`, at `base` in a chunk of `d` bytes. */
  predicate TakesFastPath(s: seq<Byte>, base: nat, d: nat) {
    base + 5 * |s| < d
  }

  predicate StaysInside(s: seq<Byte>, base: nat, d: nat) {
    base + |Escape(s)| < d
  }

  /** The fast path, wherever it is taken, stays inside the chunk if and only if the text has at most
      five bytes for each character. */
  lemma FastPathFits(s: seq<Byte>)
    ensures (forall base, d :: TakesFastPath(s, base, d) ==> StaysInside(s, base, d))
            <==> CountShort(s) + 5 * CountNumbered(s) <= 4 * |s|
  {
    EscapeSize(s);
    if forall base, d :: TakesFastPath(s, base, d) ==> StaysInside(s, base, d) {
      assert TakesFastPath(s, 0, 5 * |s| + 1);
      assert StaysInside(s, 0, 5 * |s| + 1);
    }
  }

  /** The last byte of a chunk makes the checked path go on in a new one. */
  lemma LastByteMovesOn(g: Geometry, limit: nat, q: Queue, bytes: seq<int>, memories: seq<seq<Cell>>)
    requires AllReady(g, q, memories) && Roomy(g, q) && |memories| == |bytes|
    requires bytes != [] && q.lastSize + q.position + |bytes| == g.D
    ensures AppendAll(g, limit, q, bytes, memories) != Done(PutAll(q, bytes))
  {
    var n := |bytes| - 1;
    FastAppendIsAppend(g, limit, q, bytes[..n], memories[..n]);
    var o := Append(g, limit, PutAll(q, bytes[..n]), bytes[n], memories[n]);
    assert o.Failed? || |o.q.chunks| == |q.chunks| + 1;
  }

  /** Where the fast path stays inside the chunk, it writes what the checked path would have written;
      where it fills the chunk to the last byte, it does not, and beyond that there is no room. */
  lemma FastEscapeIsSlow(g: Geometry, limit: nat, q: Queue, s: seq<Byte>, memories: seq<seq<Cell>>)
    requires AllReady(g, q, memories) && Roomy(g, q) && |memories| == |Escape(s)|
    requires TakesFastPath(s, q.lastSize + q.position, g.D)
    ensures StaysInside(s, q.lastSize + q.position, g.D) ==>
              AppendAll(g, limit, q, Escape(s), memories) == Done(PutAll(q, Escape(s)))
    ensures q.lastSize + q.position + |Escape(s)| == g.D ==>
              AppendAll(g, limit, q, Escape(s), memories) != Done(PutAll(q, Escape(s)))
  {
    hide AppendAll, PutAll;
    if StaysInside(s, q.lastSize + q.position, g.D) {
      FastAppendIsAppend(g, limit, q, Escape(s), memories);
    } else if q.lastSize + q.position + |Escape(s)| == g.D {
      LastByteMovesOn(g, limit, q, Escape(s), memories);
    }
  }
}
