/** A string value that arrives in pieces: bytes that may belong to a split character are carried
    over from one piece to the next. */
module StringCarry {
  import opened Basics
  import opened CharacterSets

  const MAX_CHARACTER := 8
  const BUFFER := 16

  /** How strings are printed: mapped to UTF-8 or byte by byte, plain or as hexadecimal digits. */
  datatype Format = Format(charset: Charset, mapped: bool, hex: bool)

  function HexDigit(d: nat): (r: Byte)
    requires d < 16
  {
    if d < 10 then 48 + d else 87 + d
  }

  function HexByte(b: int): seq<Byte>
    requires 0 <= b < 256
  {
    [HexDigit(b / 16), HexDigit(b % 16)]
  }

  function Hex(s: seq<Byte>): (r: seq<Byte>)
    ensures |r| == 2 * |s|
  {
    if s == [] then [] else HexByte(s[0]) + Hex(s[1..])
  }

  /** How many bytes the character at the front of `s` takes. */
  function Used(f: Format, s: seq<Byte>): (n: nat)
    requires s != []
    ensures 1 <= n <= 4 && n <= |s|
  {
    if f.mapped then f.charset.Decode(s).used else 1
  }

  /** What is printed for it. */
  function Piece(f: Format, s: seq<Byte>): (r: seq<Byte>)
    requires s != []
    ensures r != []
  {
    var bytes := if f.mapped then Utf8(f.charset.Decode(s).code) else [s[0]];
    if f.hex then Hex(bytes) else bytes
  }

  /** A decoder looks at no more than four bytes. */
  lemma Window(f: Format, s: seq<Byte>, more: seq<Byte>)
    requires |s| >= 4
    ensures Used(f, s + more) == Used(f, s) && Piece(f, s + more) == Piece(f, s)
  {
  }

  /** The text of a whole string. */
  function Emit(f: Format, s: seq<Byte>): seq<Byte>
    decreases |s|
  {
    if s == [] then [] else Piece(f, s) + Emit(f, s[Used(f, s)..])
  }

  // ------------------------------------------------------------ what the text is

  /** Mapped and plain, the text is the string in UTF-8. */
  lemma {:induction false} EmitMapped(charset: Charset, s: seq<Byte>)
    ensures Emit(Format(charset, true, false), s) == Transcode(charset, s)
    decreases |s|
  {
    hide Utf8;
    if s != [] {
      EmitMapped(charset, s[charset.Decode(s).used..]);
    }
  }

  /** Without mapping, the text is the string itself. */
  lemma {:induction false} EmitUnmapped(charset: Charset, s: seq<Byte>)
    ensures Emit(Format(charset, false, false), s) == s
    decreases |s|
  {
    if s != [] {
      EmitUnmapped(charset, s[1..]);
    }
  }

  /** The value of a lower-case hexadecimal digit. */
  function DigitValue(c: Byte): Option<nat> {
    if '0' as int <= c <= '9' as int then Some(c - '0' as int)
    else if 'a' as int <= c <= 'f' as int then Some(c - 'a' as int + 10)
    else None
  }

  /** A reader of pairs of hexadecimal digits. */
  function Unhex(s: seq<Byte>): Option<seq<int>>
    decreases |s|
  {
    if s == [] then Some([])
    else if |s| == 1 || DigitValue(s[0]).None? || DigitValue(s[1]).None? || Unhex(s[2..]).None? then None
    else Some([16 * DigitValue(s[0]).value + DigitValue(s[1]).value] + Unhex(s[2..]).value)
  }

  lemma HexOfByte(b: Byte, rest: seq<Byte>)
    requires Unhex(rest).Some?
    ensures Unhex(HexByte(b) + rest) == Some([b] + Unhex(rest).value)
  {
    assert (HexByte(b) + rest)[2..] == rest;
  }

  lemma {:induction false} HexOfBytes(bytes: seq<Byte>, rest: seq<Byte>)
    requires Unhex(rest).Some?
    ensures Unhex(Hex(bytes) + rest) == Some(bytes + Unhex(rest).value)
    decreases |bytes|
  {
    hide Unhex, HexByte;
    if bytes == [] {
      assert Hex(bytes) + rest == rest && bytes + Unhex(rest).value == Unhex(rest).value;
    } else {
      HexOfBytes(bytes[1..], rest);
      HexOfByte(bytes[0], Hex(bytes[1..]) + rest);
      assert Hex(bytes) + rest == HexByte(bytes[0]) + (Hex(bytes[1..]) + rest);
      assert [bytes[0]] + (bytes[1..] + Unhex(rest).value) == bytes + Unhex(rest).value;
    }
  }

  /** As hexadecimal digits, the text reads as the plain text. */
  lemma {:induction false} EmitHex(charset: Charset, mapped: bool, s: seq<Byte>)
    ensures Unhex(Emit(Format(charset, mapped, true), s)) == Some(Emit(Format(charset, mapped, false), s))
    decreases |s|
  {
    var f, plain := Format(charset, mapped, true), Format(charset, mapped, false);
    if s != [] {
      hide Unhex, Hex, Emit;
      var rest := s[Used(f, s)..];
      EmitHex(charset, mapped, rest);
      EmitStep(f, s);
      EmitStep(plain, s);
      HexOfBytes(Piece(plain, s), Emit(f, rest));
    }
  }

  lemma EmitStep(f: Format, s: seq<Byte>)
    requires s != []
    ensures Emit(f, s) == Piece(f, s) + Emit(f, s[Used(f, s)..])
  {
    hide Piece, Used;
  }

  // ------------------------------------------------------------ one call

  /** What a call prints and what it carries over. */
  datatype Carried = Carried(text: seq<Byte>, prev: seq<Byte>)

  function Behind(text: seq<Byte>, c: Carried): Carried {
    c.(text := text + c.text)
  }

  /** With more to come, the last bytes are left for the next call. */
  function Rest(f: Format, s: seq<Byte>, prev: seq<Byte>, hasNext: bool): Carried
    decreases |s|
  {
    if s == [] then Carried([], prev)
    else if hasNext && |s| < MAX_CHARACTER then Carried([], s)
    else Behind(Piece(f, s), Rest(f, s[Used(f, s)..], prev, hasNext))
  }

  /** The first `n` bytes of `s` are carried over; the character after them is printed in any case. */
  function Joined(f: Format, s: seq<Byte>, n: int, prev: seq<Byte>, hasNext: bool): Carried
    decreases |s|
  {
    if s == [] then Carried([], prev)
    else if n > 0 then Behind(Piece(f, s), Joined(f, s[Used(f, s)..], n - Used(f, s), prev, hasNext))
    else Behind(Piece(f, s), Rest(f, s[Used(f, s)..], prev, hasNext))
  }

  /** `parseString` with `prev` carried over from before. */
  function Call(f: Format, prev: seq<Byte>, data: seq<Byte>, hasPrev: bool, hasNext: bool): Carried {
    if !hasPrev || prev == [] then Rest(f, data, prev, hasNext)
    else if data == [] then Rest(f, prev, prev, hasNext)
    else if |data| <= BUFFER - |prev| then Carried(Emit(f, prev + data), prev)
    else Joined(f, prev + data, |prev|, prev, hasNext)
  }

  // ------------------------------------------------------------ what a call keeps

  /** `text` followed by what `tail` and any later bytes print is what all of `s` prints. */
  ghost predicate Intact(f: Format, s: seq<Byte>, c: Carried) {
    forall future :: c.text + Emit(f, c.prev + future) == Emit(f, s + future)
  }

  lemma EmitLonger(f: Format, s: seq<Byte>, future: seq<Byte>)
    requires |s| >= 4
    ensures Emit(f, s + future) == Piece(f, s) + Emit(f, s[Used(f, s)..] + future)
  {
    hide Piece, Used;
    Window(f, s, future);
    assert (s + future)[Used(f, s)..] == s[Used(f, s)..] + future;
  }

  lemma IntactBehind(f: Format, s: seq<Byte>, c: Carried)
    requires |s| >= 4 && Intact(f, s[Used(f, s)..], c)
    ensures Intact(f, s, Behind(Piece(f, s), c))
  {
    hide Piece, Used, Emit;
    forall future ensures Piece(f, s) + c.text + Emit(f, c.prev + future) == Emit(f, s + future) {
      EmitLonger(f, s, future);
      assert c.text + Emit(f, c.prev + future) == Emit(f, s[Used(f, s)..] + future);
      Associates(Piece(f, s), c.text, Emit(f, c.prev + future));
    }
  }

  lemma Associates(a: seq<Byte>, b: seq<Byte>, c: seq<Byte>)
    ensures a + b + c == a + (b + c)
  {
  }

  predicate Short(prev: seq<Byte>) {
    1 <= |prev| < MAX_CHARACTER
  }

  lemma {:induction false} RestIntact(f: Format, s: seq<Byte>, prev: seq<Byte>)
    requires s != []
    ensures Intact(f, s, Rest(f, s, prev, true)) && Short(Rest(f, s, prev, true).prev)
    decreases |s|
  {
    if |s| >= MAX_CHARACTER {
      hide Intact, Piece, Emit;
      RestIntact(f, s[Used(f, s)..], prev);
      IntactBehind(f, s, Rest(f, s[Used(f, s)..], prev, true));
    }
  }

  lemma {:induction false} JoinedIntact(f: Format, s: seq<Byte>, n: int, prev: seq<Byte>)
    requires -3 <= n && |s| >= n + 10
    ensures Intact(f, s, Joined(f, s, n, prev, true)) && Short(Joined(f, s, n, prev, true).prev)
    decreases |s|
  {
    hide Intact, Piece, Emit, Rest;
    var rest := s[Used(f, s)..];
    if n > 0 {
      JoinedIntact(f, rest, n - Used(f, s), prev);
      IntactBehind(f, s, Joined(f, rest, n - Used(f, s), prev, true));
    } else {
      RestIntact(f, rest, prev);
      IntactBehind(f, s, Rest(f, rest, prev, true));
    }
  }

  lemma {:induction false} RestPrintsAll(f: Format, s: seq<Byte>, prev: seq<Byte>)
    ensures Rest(f, s, prev, false) == Carried(Emit(f, s), prev)
    decreases |s|
  {
    if s != [] {
      RestPrintsAll(f, s[Used(f, s)..], prev);
    }
  }

  lemma {:induction false} JoinedPrintsAll(f: Format, s: seq<Byte>, n: int, prev: seq<Byte>)
    ensures Joined(f, s, n, prev, false) == Carried(Emit(f, s), prev)
    decreases |s|
  {
    if s != [] {
      var rest := s[Used(f, s)..];
      if n > 0 {
        JoinedPrintsAll(f, rest, n - Used(f, s), prev);
      } else {
        RestPrintsAll(f, rest, prev);
      }
    }
  }

  lemma PrintsSomething(f: Format, s: seq<Byte>)
    requires s != []
    ensures Emit(f, s) != []
  {
  }

  /** A first piece with more to come keeps the string intact if and only if it is not empty, or
      nothing was left over from an earlier string. */
  lemma FirstCall(f: Format, prev: seq<Byte>, data: seq<Byte>)
    ensures var c := Call(f, prev, data, false, true);
            && (Intact(f, data, c) <==> data != [] || prev == [])
            && (data != [] ==> Short(c.prev))
  {
    var c := Call(f, prev, data, false, true);
    if data != [] {
      RestIntact(f, data, prev);
    } else if Intact(f, data, c) {
      assert c.text + Emit(f, c.prev + []) == Emit(f, data + []);
      assert c.prev + [] == prev && data + [] == [];
      if prev != [] {
        PrintsSomething(f, prev);
      }
    }
  }

  /** A middle piece keeps the string intact if and only if it is empty or too long to fit in the
      buffer together with what was carried over. */
  lemma MiddleCall(f: Format, prev: seq<Byte>, data: seq<Byte>)
    requires Short(prev)
    ensures var c := Call(f, prev, data, true, true);
            && (Intact(f, prev + data, c) <==> data == [] || |data| > BUFFER - |prev|)
            && (data == [] || |data| > BUFFER - |prev| ==> Short(c.prev))
  {
    var c := Call(f, prev, data, true, true);
    if data == [] {
      assert prev + data == prev;
      RestIntact(f, prev, prev);
    } else if |data| > BUFFER - |prev| {
      JoinedIntact(f, prev + data, |prev|, prev);
    } else {
      assert c.prev + [] == prev && prev + data + [] == prev + data;
      PrintsSomething(f, prev);
      assert |c.text + Emit(f, prev)| > |c.text|;
      assert Intact(f, prev + data, c) ==> c.text + Emit(f, c.prev + []) == Emit(f, prev + data + []);
    }
  }

  /** The last piece prints all that is left. */
  lemma LastCall(f: Format, prev: seq<Byte>, data: seq<Byte>)
    ensures Call(f, prev, data, true, false).text == Emit(f, prev + data)
    ensures Call(f, prev, data, false, false).text == Emit(f, data)
  {
    RestPrintsAll(f, data, prev);
    RestPrintsAll(f, prev, prev);
    JoinedPrintsAll(f, prev + data, |prev|, prev);
    assert data == [] ==> prev + data == prev;
    assert prev == [] ==> prev + data == data;
  }

  /** With more to come, fewer than eight bytes are kept back, and at least four if there are that many;
      all of a piece with fewer than eight is. */
  lemma {:induction false} RestKeepsBack(f: Format, s: seq<Byte>, prev: seq<Byte>)
    requires s != []
    ensures var c := Rest(f, s, prev, true);
            && |c.prev| < 8 && |c.prev| <= |s| && c.prev == s[|s| - |c.prev|..]
            && (if |s| < 8 then c.prev == s && c.text == [] else |c.prev| >= 4)
    decreases |s|
  {
    hide Piece, Used;
    if |s| >= 8 {
      RestKeepsBack(f, s[Used(f, s)..], prev);
    }
  }

  // ------------------------------------------------------------ a whole string

  function Concat(pieces: seq<seq<Byte>>): seq<Byte> {
    if pieces == [] then [] else pieces[0] + Concat(pieces[1..])
  }

  /** The pieces after the first. */
  function FeedOn(f: Format, prev: seq<Byte>, pieces: seq<seq<Byte>>): seq<Byte>
    requires pieces != []
    decreases |pieces|
  {
    var c := Call(f, prev, pieces[0], true, |pieces| > 1);
    c.text + (if |pieces| == 1 then [] else FeedOn(f, c.prev, pieces[1..]))
  }

  function Feed(f: Format, prev: seq<Byte>, pieces: seq<seq<Byte>>): seq<Byte>
    requires pieces != []
  {
    var c := Call(f, prev, pieces[0], false, |pieces| > 1);
    c.text + (if |pieces| == 1 then [] else FeedOn(f, c.prev, pieces[1..]))
  }

  /** A piece that may come between two others. */
  predicate SafePiece(piece: seq<Byte>) {
    piece == [] || |piece| >= BUFFER
  }

  lemma IntactOn(f: Format, s: seq<Byte>, c: Carried, future: seq<Byte>)
    requires Intact(f, s, c)
    ensures c.text + Emit(f, c.prev + future) == Emit(f, s + future)
  {
    hide Emit;
  }

  lemma {:induction false} FeedOnPrints(f: Format, prev: seq<Byte>, pieces: seq<seq<Byte>>)
    requires pieces != [] && Short(prev) && forall i :: 0 <= i < |pieces| - 1 ==> SafePiece(pieces[i])
    ensures FeedOn(f, prev, pieces) == Emit(f, prev + Concat(pieces))
    decreases |pieces|
  {
    hide Call, Emit, Intact;
    if |pieces| == 1 {
      LastCall(f, prev, pieces[0]);
      assert Concat(pieces) == pieces[0] + [] == pieces[0];
    } else {
      var c := Call(f, prev, pieces[0], true, true);
      assert SafePiece(pieces[0]);
      MiddleCall(f, prev, pieces[0]);
      FeedOnPrints(f, c.prev, pieces[1..]);
      IntactOn(f, prev + pieces[0], c, Concat(pieces[1..]));
      assert prev + Concat(pieces) == prev + pieces[0] + Concat(pieces[1..]);
    }
  }

  /** However a string is cut, with a first piece that is not empty and middle pieces that are empty
      or have at least 16 bytes, it prints as in one piece. */
  lemma SplitInsensitive(f: Format, stale: seq<Byte>, pieces: seq<seq<Byte>>)
    requires pieces != [] && (|pieces| > 1 ==> pieces[0] != []) && forall i :: 0 < i < |pieces| - 1 ==> SafePiece(pieces[i])
    ensures Feed(f, stale, pieces) == Emit(f, Concat(pieces)) == Feed(f, stale, [Concat(pieces)])
  {
    hide Call, Emit;
    LastCall(f, stale, Concat(pieces));
    if |pieces| == 1 {
      LastCall(f, stale, pieces[0]);
      assert Concat(pieces) == pieces[0] + [] == pieces[0];
    } else {
      var c := Call(f, stale, pieces[0], false, true);
      FirstCall(f, stale, pieces[0]);
      FeedOnPrints(f, c.prev, pieces[1..]);
      assert c.text + Emit(f, c.prev + Concat(pieces[1..])) == Emit(f, pieces[0] + Concat(pieces[1..]));
    }
  }

  /** What a string in pieces prints: its characters in UTF-8, its bytes, or the digits of either. */
  lemma PiecesPrint(charset: Charset, mapped: bool, stale: seq<Byte>, pieces: seq<seq<Byte>>)
    requires pieces != [] && (|pieces| > 1 ==> pieces[0] != []) && forall i :: 0 < i < |pieces| - 1 ==> SafePiece(pieces[i])
    ensures var text := if mapped then Transcode(charset, Concat(pieces)) else Concat(pieces);
            && Feed(Format(charset, mapped, false), stale, pieces) == text
            && Unhex(Feed(Format(charset, mapped, true), stale, pieces)) == Some(text)
  {
    hide Feed, Emit, Unhex;
    SplitInsensitive(Format(charset, mapped, false), stale, pieces);
    SplitInsensitive(Format(charset, mapped, true), stale, pieces);
    EmitMapped(charset, Concat(pieces));
    EmitUnmapped(charset, Concat(pieces));
    EmitHex(charset, mapped, Concat(pieces));
  }

  /** However well-formed UTF-8 is cut, also inside characters, it prints unchanged. */
  lemma WellFormedPrintsUnchanged(stale: seq<Byte>, pieces: seq<seq<Byte>>)
    requires pieces != [] && (|pieces| > 1 ==> pieces[0] != []) && forall i :: 0 < i < |pieces| - 1 ==> SafePiece(pieces[i])
    requires WellFormed(Concat(pieces), false)
    ensures Feed(Format(AL32UTF8, true, false), stale, pieces) == Concat(pieces)
  {
    hide Feed;
    PiecesPrint(AL32UTF8, true, stale, pieces);
    WellFormedUnchanged(Concat(pieces));
  }

  /** However UTF-16 is cut, also inside code units, it prints as the UTF-8 of the same characters. */
  lemma Utf16PrintsAsUtf8(stale: seq<Byte>, pieces: seq<seq<Byte>>, codes: seq<nat>)
    requires pieces != [] && (|pieces| > 1 ==> pieces[0] != []) && forall i :: 0 < i < |pieces| - 1 ==> SafePiece(pieces[i])
    requires forall i :: 0 <= i < |codes| ==> codes[i] <= MAX_CODE && !Surrogate(codes[i])
    requires Concat(pieces) == Utf16All(codes)
    ensures Feed(Format(AL16UTF16, true, false), stale, pieces) == Utf8All(codes)
  {
    hide Feed;
    PiecesPrint(AL16UTF16, true, stale, pieces);
    Utf16BecomesUtf8(codes);
  }

  // ------------------------------------------------------------ the loop

  /** Where the loop of `parseString` stands: `parseSize` bytes from `at` on, in the carry buffer or
      in the data; `overlap` bytes of the data are in the carry buffer too. */
  datatype Cursor = Cursor(carrying: bool, at: nat, parseSize: nat, overlap: nat)

  function CopiedFrom(prev: seq<Byte>, data: seq<Byte>): nat
    requires |prev| < MAX_CHARACTER
  {
    if BUFFER - |prev| <= |data| then BUFFER - |prev| else |data|
  }

  /** The cursor stands inside the carry buffer, or inside the data. */
  predicate Tracks(prev: seq<Byte>, data: seq<Byte>, buffer: seq<Byte>, cur: Cursor) {
    if cur.carrying then
      && Short(prev) && cur.overlap == CopiedFrom(prev, data) && |buffer| == BUFFER
      && buffer[..|prev| + cur.overlap] == prev + data[..cur.overlap]
      && cur.at + cur.parseSize == |prev| + cur.overlap
      && (cur.overlap < |data| ==> cur.parseSize + 3 >= cur.overlap)
    else cur.overlap == 0 && cur.at + cur.parseSize == |data|
  }

  /** The bytes that are not printed yet. */
  function Left(prev: seq<Byte>, data: seq<Byte>, cur: Cursor): seq<Byte>
    requires cur.at <= if cur.carrying then |prev| + |data| else |data|
  {
    if cur.carrying then (prev + data)[cur.at..] else data[cur.at..]
  }

  /** What is still to be printed and carried over. */
  function AheadOf(f: Format, left: seq<Byte>, overlap: nat, parseSize: nat, size: nat, prev: seq<Byte>, hasNext: bool): Carried {
    if overlap == 0 then Rest(f, left, prev, hasNext)
    else if size <= overlap then Carried(Emit(f, left), prev)
    else Joined(f, left, parseSize - overlap, prev, hasNext)
  }

  function Ahead(f: Format, prev: seq<Byte>, data: seq<Byte>, buffer: seq<Byte>, cur: Cursor, hasNext: bool): Carried
    requires Tracks(prev, data, buffer, cur)
  {
    AheadOf(f, Left(prev, data, cur), cur.overlap, cur.parseSize, |data|, prev, hasNext)
  }

  /** One character is printed, perhaps after the switch to the data. */
  lemma AheadTurn(f: Format, left: seq<Byte>, overlap: nat, parseSize: nat, size: nat, prev: seq<Byte>, hasNext: bool)
    requires left != [] && (overlap == 0 ==> |left| == parseSize && !(hasNext && parseSize < MAX_CHARACTER))
    requires Used(f, left) <= parseSize || (parseSize <= overlap < size && overlap > 0)
    ensures var n := Used(f, left);
            AheadOf(f, left, overlap, parseSize, size, prev, hasNext) ==
            Behind(Piece(f, left),
                   if parseSize <= overlap < size && overlap > 0 then AheadOf(f, left[n..], 0, |left| - n, size, prev, hasNext)
                   else AheadOf(f, left[n..], overlap, parseSize - n, size, prev, hasNext))
  {
    hide Piece, Used;
  }

  /** Once the carried bytes are printed, the loop goes on in the data. */
  function Switched(data: seq<Byte>, cur: Cursor): Cursor {
    if cur.parseSize <= cur.overlap < |data| && cur.overlap > 0 then
      Cursor(false, cur.overlap - cur.parseSize, |data| - (cur.overlap - cur.parseSize), 0)
    else cur
  }

  function WindowOf(data: seq<Byte>, buffer: seq<Byte>, cur: Cursor): seq<Byte>
    requires cur.at + cur.parseSize <= if cur.carrying then |buffer| else |data|
  {
    if cur.carrying then buffer[cur.at..cur.at + cur.parseSize] else data[cur.at..cur.at + cur.parseSize]
  }

  function Advanced(cur: Cursor, n: nat): Cursor
    requires n <= cur.parseSize
  {
    cur.(at := cur.at + n, parseSize := cur.parseSize - n)
  }

  predicate Leaving(cur: Cursor, hasNext: bool) {
    hasNext && cur.parseSize < MAX_CHARACTER && cur.overlap == 0
  }

  lemma SwitchedTracks(prev: seq<Byte>, data: seq<Byte>, buffer: seq<Byte>, cur: Cursor)
    requires Tracks(prev, data, buffer, cur)
    ensures var c := Switched(data, cur); Tracks(prev, data, buffer, c) && Left(prev, data, c) == Left(prev, data, cur)
  {
  }

  /** The window shows the front of what is left, and enough of it. */
  lemma WindowShows(prev: seq<Byte>, data: seq<Byte>, buffer: seq<Byte>, cur: Cursor)
    requires Tracks(prev, data, buffer, cur) && Switched(data, cur) == cur && cur.parseSize > 0
    ensures var w, left := WindowOf(data, buffer, cur), Left(prev, data, cur);
            w != [] && w <= left && (w == left || |w| >= 10)
  {
    if cur.carrying {
      var n := |prev| + cur.overlap;
      assert WindowOf(data, buffer, cur) == buffer[..n][cur.at..n];
      assert (prev + data)[..n] == prev + data[..cur.overlap];
      assert (prev + data)[..n][cur.at..n] == (prev + data)[cur.at..][..cur.parseSize];
    } else {
      assert WindowOf(data, buffer, cur) == Left(prev, data, cur);
    }
  }

  lemma PieceShows(f: Format, w: seq<Byte>, left: seq<Byte>)
    requires w != [] && w <= left && (w == left || |w| >= 10)
    ensures Piece(f, w) == Piece(f, left) && Used(f, w) == Used(f, left)
  {
    if w != left {
      Window(f, w, left[|w|..]);
      assert w + left[|w|..] == left;
    }
  }

  lemma LeftAdvanced(prev: seq<Byte>, data: seq<Byte>, buffer: seq<Byte>, cur: Cursor, n: nat)
    requires Tracks(prev, data, buffer, cur) && Switched(data, cur) == cur && n <= 4 && n <= cur.parseSize
    ensures Tracks(prev, data, buffer, Advanced(cur, n))
    ensures Left(prev, data, Advanced(cur, n)) == Left(prev, data, cur)[n..]
  {
  }

  function Size(prev: seq<Byte>, data: seq<Byte>, cur: Cursor): nat {
    var n := |data| + if cur.carrying then |prev| else 0;
    if cur.at <= n then n - cur.at else 0
  }

  lemma SizeShrinks(prev: seq<Byte>, data: seq<Byte>, buffer: seq<Byte>, cur: Cursor, n: nat)
    requires Tracks(prev, data, buffer, cur) && 0 < n <= Switched(data, cur).parseSize
    ensures Size(prev, data, Advanced(Switched(data, cur), n)) < Size(prev, data, cur)
  {
  }

  /** One turn of the loop prints one character of what is left. */
  lemma TurnTracks(f: Format, prev: seq<Byte>, data: seq<Byte>, buffer: seq<Byte>, cur: Cursor, hasNext: bool)
    requires Tracks(prev, data, buffer, cur) && cur.parseSize > 0 && !Leaving(cur, hasNext)
    ensures var c := Switched(data, cur);
            && Tracks(prev, data, buffer, c)
            && var w := WindowOf(data, buffer, c);
               && w != []
               && |w| == c.parseSize
               && var next := Advanced(c, Used(f, w));
                  && Size(prev, data, next) < Size(prev, data, cur)
                  && Tracks(prev, data, buffer, next)
  {
    hide Piece, Used, Tracks, Size;
    var c := Switched(data, cur);
    SwitchedTracks(prev, data, buffer, cur);
    TracksInside(prev, data, buffer, cur);
    TracksInside(prev, data, buffer, c);
    WindowShows(prev, data, buffer, c);
    var w, left := WindowOf(data, buffer, c), Left(prev, data, c);
    PieceShows(f, w, left);
    LeftAdvanced(prev, data, buffer, c, Used(f, w));
    SizeShrinks(prev, data, buffer, cur, Used(f, w));
  }

  lemma OneTurn(f: Format, prev: seq<Byte>, data: seq<Byte>, buffer: seq<Byte>, cur: Cursor, hasNext: bool)
    requires Tracks(prev, data, buffer, cur) && cur.parseSize > 0 && !Leaving(cur, hasNext)
    ensures var c := Switched(data, cur);
            && Tracks(prev, data, buffer, c)
            && var w := WindowOf(data, buffer, c);
               && w != []
               && |w| == c.parseSize
               && var next := Advanced(c, Used(f, w));
                  && Size(prev, data, next) < Size(prev, data, cur)
                  && Tracks(prev, data, buffer, next)
                  && Ahead(f, prev, data, buffer, cur, hasNext) == Behind(Piece(f, w), Ahead(f, prev, data, buffer, next, hasNext))
  {
    hide Piece, Used, Tracks, AheadOf, Size;
    TurnTracks(f, prev, data, buffer, cur, hasNext);
    var c := Switched(data, cur);
    SwitchedTracks(prev, data, buffer, cur);
    TracksInside(prev, data, buffer, cur);
    TracksInside(prev, data, buffer, c);
    WindowShows(prev, data, buffer, c);
    var w, left := WindowOf(data, buffer, c), Left(prev, data, c);
    PieceShows(f, w, left);
    LeftAdvanced(prev, data, buffer, c, Used(f, w));
    AheadTurn(f, left, cur.overlap, cur.parseSize, |data|, prev, hasNext);
  }

  lemma TracksInside(prev: seq<Byte>, data: seq<Byte>, buffer: seq<Byte>, cur: Cursor)
    requires Tracks(prev, data, buffer, cur)
    ensures cur.at + cur.parseSize <= if cur.carrying then |buffer| else |data|
    ensures cur.at <= if cur.carrying then |prev| + |data| else |data|
    ensures cur.overlap == 0 ==> |Left(prev, data, cur)| == cur.parseSize
    ensures cur.overlap > 0 ==> cur.carrying
  {
  }

  lemma AtStart(f: Format, prev: seq<Byte>, data: seq<Byte>, buffer: seq<Byte>, cur: Cursor, hasPrev: bool, hasNext: bool)
    requires |prev| < MAX_CHARACTER && Tracks(prev, data, buffer, cur) && cur.at == 0 && cur.carrying == (hasPrev && prev != [])
    ensures Ahead(f, prev, data, buffer, cur, hasNext) == Call(f, prev, data, hasPrev, hasNext)
  {
    assert data == [] ==> prev + data == prev;
    assert (prev + data)[0..] == prev + data && data[0..] == data;
  }

  lemma NothingToDo(f: Format, prev: seq<Byte>, hasPrev: bool, hasNext: bool)
    requires !hasPrev || prev == []
    ensures Call(f, prev, [], hasPrev, hasNext) == Carried([], prev)
  {
  }

  lemma AtEnd(f: Format, prev: seq<Byte>, data: seq<Byte>, buffer: seq<Byte>, cur: Cursor, hasNext: bool)
    requires Tracks(prev, data, buffer, cur) && cur.parseSize == 0
    ensures Ahead(f, prev, data, buffer, cur, hasNext) == Carried([], prev)
  {
  }

  lemma WhenLeaving(f: Format, prev: seq<Byte>, data: seq<Byte>, buffer: seq<Byte>, cur: Cursor, hasNext: bool)
    requires Tracks(prev, data, buffer, cur) && cur.parseSize > 0 && Leaving(cur, hasNext)
    ensures cur.at + cur.parseSize <= if cur.carrying then |buffer| else |data|
    ensures Ahead(f, prev, data, buffer, cur, hasNext) == Carried([], WindowOf(data, buffer, cur))
  {
    WindowShows(prev, data, buffer, cur);
  }

  lemma BehindBehind(text: seq<Byte>, piece: seq<Byte>, c: Carried)
    ensures Behind(text, Behind(piece, c)) == Behind(text + piece, c)
  {
    Associates(text, piece, c.text);
  }

  class StringParser {
    const prevChars: array<Byte>
    var prevSize: nat
    var text: seq<Byte>

    ghost predicate Valid()
      reads this
    {
      prevChars.Length == BUFFER && prevSize < MAX_CHARACTER
    }

    ghost function Prev(): seq<Byte>
      requires Valid()
      reads this, prevChars
    {
      prevChars[..prevSize]
    }

    constructor ()
      ensures Valid() && fresh(prevChars) && Prev() == [] && text == []
    {
      prevChars := new Byte[BUFFER];
      prevSize, text := 0, [];
    }

    /** `memcpy` into the carry buffer. */
    method Copy(at: nat, s: seq<Byte>)
      requires Valid() && at + |s| <= BUFFER
      modifies prevChars
      ensures prevChars[..at + |s|] == old(prevChars[..at]) + s
    {
      forall i | 0 <= i < |s| {
        prevChars[at + i] := s[i];
      }
    }

    /** The bytes under the cursor. */
    method View(data: seq<Byte>, cur: Cursor) returns (window: seq<Byte>)
      requires Valid() && cur.at + cur.parseSize <= if cur.carrying then BUFFER else |data|
      ensures window == WindowOf(data, prevChars[..], cur)
    {
      if cur.carrying {
        window := prevChars[cur.at..cur.at + cur.parseSize];
      } else {
        window := data[cur.at..cur.at + cur.parseSize];
      }
    }

    /** The bytes under the cursor are kept for the next call. */
    method Keep(data: seq<Byte>, cur: Cursor)
      requires Valid() && cur.at + cur.parseSize <= (if cur.carrying then BUFFER else |data|) && cur.parseSize < MAX_CHARACTER
      modifies this`prevSize, prevChars
      ensures Valid() && Prev() == WindowOf(data, old(prevChars[..]), cur)
    {
      var window := View(data, cur);
      Copy(0, window);
      prevSize := cur.parseSize;
    }

    /** The cursor at the start; the carry buffer is filled up from the data. */
    method Prepare(data: seq<Byte>, hasPrev: bool) returns (cur: Cursor)
      requires Valid()
      modifies prevChars
      ensures Prev() == old(Prev()) && Tracks(Prev(), data, prevChars[..], cur)
      ensures cur.at == 0 && cur.carrying == (hasPrev && Prev() != [])
    {
      cur := Cursor(false, 0, |data|, 0);
      if hasPrev && prevSize > 0 {
        var overlap := if BUFFER - prevSize <= |data| then BUFFER - prevSize else |data|;
        Copy(prevSize, data[..overlap]);
        assert prevChars[..prevSize] == prevChars[..prevSize + overlap][..prevSize];
        cur := Cursor(true, 0, prevSize + overlap, overlap);
      }
    }

    /** `parseString` */
    method ParseString(f: Format, data: seq<Byte>, appendData: bool, hasPrev: bool, hasNext: bool)
      requires Valid()
      modifies this, prevChars
      ensures Valid()
      ensures Carried(text, Prev()) ==
              Behind(if appendData then old(text) else [], Call(f, old(Prev()), data, hasPrev, hasNext))
    {
      hide Tracks, Ahead, Call;
      if !appendData {
        text := [];
      }
      ghost var prev := Prev();
      if data == [] && (!hasPrev || prevSize == 0) {
        NothingToDo(f, prev, hasPrev, hasNext);
        return;
      }
      var cur := Prepare(data, hasPrev);
      AtStart(f, prev, data, prevChars[..], cur, hasPrev, hasNext);
      Print(f, data, cur, hasNext);
    }

    /** The loop of `parseString`. */
    method Print(f: Format, data: seq<Byte>, start: Cursor, hasNext: bool)
      requires Valid() && Tracks(Prev(), data, prevChars[..], start)
      modifies this, prevChars
      ensures Valid()
      ensures Carried(text, Prev()) == Behind(old(text), Ahead(f, old(Prev()), data, old(prevChars[..]), start, hasNext))
    {
      hide Tracks, Ahead, Piece, Used, WindowOf, Behind, Switched, Size;
      var cur := start;
      ghost var prev, buffer := Prev(), prevChars[..];
      ghost var goal := Behind(text, Ahead(f, prev, data, buffer, cur, hasNext));
      while cur.parseSize > 0
        invariant Valid() && Prev() == prev && prevChars[..] == buffer && Tracks(prev, data, buffer, cur)
        invariant Behind(text, Ahead(f, prev, data, buffer, cur, hasNext)) == goal
        decreases Size(prev, data, cur)
      {
        if hasNext && cur.parseSize < MAX_CHARACTER && cur.overlap == 0 {
          WhenLeaving(f, prev, data, buffer, cur, hasNext);
          BehindNone(text, WindowOf(data, buffer, cur));
          Keep(data, cur);
          return;
        }
        OneTurn(f, prev, data, buffer, cur, hasNext);
        SwitchedIs(data, cur);
        if cur.parseSize <= cur.overlap && |data| > cur.overlap && cur.overlap > 0 {
          var processed := cur.overlap - cur.parseSize;
          cur := Cursor(false, processed, |data| - processed, 0);
        }
        TracksInside(prev, data, buffer, cur);
        var window := View(data, cur);
        var piece := Piece(f, window);
        cur := Advanced(cur, Used(f, window));
        BehindBehind(text, piece, Ahead(f, prev, data, buffer, cur, hasNext));
        text := text + piece;
      }
      AtEnd(f, prev, data, buffer, cur, hasNext);
      BehindNone(text, prev);
    }
  }

  lemma SwitchedIs(data: seq<Byte>, cur: Cursor)
    ensures Switched(data, cur) ==
            if cur.parseSize <= cur.overlap < |data| && cur.overlap > 0 then
              Cursor(false, cur.overlap - cur.parseSize, |data| - (cur.overlap - cur.parseSize), 0)
            else cur
  {
  }

  lemma BehindNone(text: seq<Byte>, prev: seq<Byte>)
    ensures Behind(text, Carried([], prev)) == Carried(text, prev)
  {
  }
}
