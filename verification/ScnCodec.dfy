/** System change numbers in redo blocks: six bytes, or eight with the top bit of one byte set. */
module ScnCodec {

  /** `Scn::none()` */
  const NONE: bv64 := 0xFFFF_FFFF_FFFF_FFFF

  const LONG_FORM: bv64 := 0x8000_0000_0000

  /** The constructor of `Scn` from eight bytes, least significant first. */
  function Word(a: bv8, b: bv8, c: bv8, d: bv8, e: bv8, f: bv8, g: bv8, h: bv8): bv64 {
    (a as bv64) | ((b as bv64) << 8) | ((c as bv64) << 16) | ((d as bv64) << 24)
    | ((e as bv64) << 32) | ((f as bv64) << 40) | ((g as bv64) << 48) | ((h as bv64) << 56)
  }

  function Low(v: bv64): bv8 {
    (v & 0xFF) as bv8
  }

  // ------------------------------------------------------------ reading

  predicate SixOnes(buf: seq<bv8>)
    requires |buf| >= 6
  {
    buf[0] == buf[1] == buf[2] == buf[3] == buf[4] == buf[5] == 0xFF
  }

  /** `readScnLittle` */
  function ReadLittle(buf: seq<bv8>): bv64
    requires |buf| >= 8
  {
    if SixOnes(buf) then NONE
    else if buf[5] & 0x80 == 0x80 then Word(buf[0], buf[1], buf[2], buf[3], buf[6], buf[7], buf[4], buf[5] & 0x7F)
    else Word(buf[0], buf[1], buf[2], buf[3], buf[4], buf[5], 0, 0)
  }

  /** `readScnBig` */
  function ReadBig(buf: seq<bv8>): bv64
    requires |buf| >= 8
  {
    if SixOnes(buf) then NONE
    else if buf[4] & 0x80 == 0x80 then Word(buf[3], buf[2], buf[1], buf[0], buf[7], buf[6], buf[5], buf[4] & 0x7F)
    else Word(buf[3], buf[2], buf[1], buf[0], buf[5], buf[4], 0, 0)
  }

  // ------------------------------------------------------------ writing

  /** The most significant byte with the mark of the long form. */
  function Marked(v: bv64): bv8 {
    (Low(v >> 56) & 0x7F) | 0x80
  }

  /** The eight bytes after the write; the short form leaves the last two alone. */
  function WrittenLittle(before: seq<bv8>, v: bv64): (r: seq<bv8>)
    requires |before| == 8
    ensures |r| == 8
  {
    [Low(v), Low(v >> 8), Low(v >> 16), Low(v >> 24)]
    + if v < LONG_FORM then [Low(v >> 32), Low(v >> 40)] + before[6..]
      else [Low(v >> 48), Marked(v), Low(v >> 32), Low(v >> 40)]
  }

  function WrittenBig(before: seq<bv8>, v: bv64): (r: seq<bv8>)
    requires |before| == 8
    ensures |r| == 8
  {
    [Low(v >> 24), Low(v >> 16), Low(v >> 8), Low(v)]
    + if v < LONG_FORM then [Low(v >> 40), Low(v >> 32)] + before[6..]
      else [Marked(v), Low(v >> 48), Low(v >> 40), Low(v >> 32)]
  }

  method StoreFour(buf: array<bv8>, a: bv8, b: bv8, c: bv8, d: bv8)
    requires buf.Length == 8
    modifies buf
    ensures buf[..] == [a, b, c, d] + old(buf[..])[4..]
  {
    buf[0] := a;
    buf[1] := b;
    buf[2] := c;
    buf[3] := d;
  }

  method StoreShort(buf: array<bv8>, e: bv8, f: bv8)
    requires buf.Length == 8
    modifies buf
    ensures buf[..] == old(buf[..])[..4] + ([e, f] + old(buf[..])[6..])
  {
    buf[4] := e;
    buf[5] := f;
  }

  method StoreLong(buf: array<bv8>, e: bv8, f: bv8, g: bv8, h: bv8)
    requires buf.Length == 8
    modifies buf
    ensures buf[..] == old(buf[..])[..4] + [e, f, g, h]
  {
    buf[4] := e;
    buf[5] := f;
    buf[6] := g;
    buf[7] := h;
  }

  lemma FirstFour(first: seq<bv8>, rest: seq<bv8>)
    requires |first| == 4
    ensures (first + rest)[..4] == first
  {
  }

  lemma LastTwo(first: seq<bv8>, before: seq<bv8>)
    requires |first| == 4 && |before| == 8
    ensures (first + before[4..])[6..] == before[6..]
  {
  }

  /** `writeScnLittle` */
  method WriteScnLittle(buf: array<bv8>, v: bv64)
    requires buf.Length == 8
    modifies buf
    ensures buf[..] == WrittenLittle(old(buf[..]), v)
  {
    hide Low, Marked;
    ghost var first := [Low(v), Low(v >> 8), Low(v >> 16), Low(v >> 24)];
    StoreFour(buf, Low(v), Low(v >> 8), Low(v >> 16), Low(v >> 24));
    FirstFour(first, old(buf[..])[4..]);
    LastTwo(first, old(buf[..]));
    if v < LONG_FORM {
      StoreShort(buf, Low(v >> 32), Low(v >> 40));
    } else {
      StoreLong(buf, Low(v >> 48), Marked(v), Low(v >> 32), Low(v >> 40));
    }
  }

  /** `writeScnBig` */
  method WriteScnBig(buf: array<bv8>, v: bv64)
    requires buf.Length == 8
    modifies buf
    ensures buf[..] == WrittenBig(old(buf[..]), v)
  {
    hide Low, Marked;
    ghost var first := [Low(v >> 24), Low(v >> 16), Low(v >> 8), Low(v)];
    StoreFour(buf, Low(v >> 24), Low(v >> 16), Low(v >> 8), Low(v));
    FirstFour(first, old(buf[..])[4..]);
    LastTwo(first, old(buf[..]));
    if v < LONG_FORM {
      StoreShort(buf, Low(v >> 40), Low(v >> 32));
    } else {
      StoreLong(buf, Marked(v), Low(v >> 48), Low(v >> 40), Low(v >> 32));
    }
  }

  // ------------------------------------------------------------ reading what was written

  /** The numbers that the readers take for "no number": the low 32 bits and bits 48 to 62 are ones. */
  predicate LooksLikeNone(v: bv64) {
    v & 0xFFFF_FFFF == 0xFFFF_FFFF && (v >> 48) & 0x7FFF == 0x7FFF
  }

  /** When reading what was written gives the number again: it is below `2^63` and does not look like
      "no number", or it is that. */
  predicate Survives(v: bv64) {
    v == NONE || (v < 0x8000_0000_0000_0000 && !LooksLikeNone(v))
  }

  lemma NoneBytes(v: bv64)
    ensures LooksLikeNone(v) <==>
            Low(v) == Low(v >> 8) == Low(v >> 16) == Low(v >> 24) == Low(v >> 48) == Marked(v) == 0xFF
  {
  }

  lemma LongWord(v: bv64)
    ensures var w := Word(Low(v), Low(v >> 8), Low(v >> 16), Low(v >> 24), Low(v >> 32), Low(v >> 40), Low(v >> 48), Marked(v) & 0x7F);
            w == v & 0x7FFF_FFFF_FFFF_FFFF && Marked(v) & 0x80 == 0x80
  {
  }

  lemma ShortWord(v: bv64)
    requires v < LONG_FORM
    ensures Word(Low(v), Low(v >> 8), Low(v >> 16), Low(v >> 24), Low(v >> 32), Low(v >> 40), 0, 0) == v
    ensures Low(v >> 40) & 0x80 != 0x80 && Low(v >> 40) != 0xFF
  {
  }

  /** What is read after a write. */
  function ReadBack(v: bv64): bv64 {
    if v < LONG_FORM then v else if LooksLikeNone(v) then NONE else v & 0x7FFF_FFFF_FFFF_FFFF
  }

  lemma ReadsLittle(before: seq<bv8>, v: bv64)
    requires |before| == 8
    ensures ReadLittle(WrittenLittle(before, v)) == ReadBack(v)
  {
    hide Low, Word, Marked, LooksLikeNone;
    var w := WrittenLittle(before, v);
    assert w[0] == Low(v) && w[1] == Low(v >> 8) && w[2] == Low(v >> 16) && w[3] == Low(v >> 24);
    if v < LONG_FORM {
      assert w[4] == Low(v >> 32) && w[5] == Low(v >> 40);
      ShortWord(v);
    } else {
      assert w[4] == Low(v >> 48) && w[5] == Marked(v) && w[6] == Low(v >> 32) && w[7] == Low(v >> 40);
      NoneBytes(v);
      LongWord(v);
    }
  }

  lemma ReadsBig(before: seq<bv8>, v: bv64)
    requires |before| == 8
    ensures ReadBig(WrittenBig(before, v)) == ReadBack(v)
  {
    hide Low, Word, Marked, LooksLikeNone;
    var w := WrittenBig(before, v);
    assert w[0] == Low(v >> 24) && w[1] == Low(v >> 16) && w[2] == Low(v >> 8) && w[3] == Low(v);
    if v < LONG_FORM {
      assert w[4] == Low(v >> 40) && w[5] == Low(v >> 32);
      ShortWord(v);
    } else {
      assert w[4] == Marked(v) && w[5] == Low(v >> 48) && w[6] == Low(v >> 40) && w[7] == Low(v >> 32);
      NoneBytes(v);
      LongWord(v);
    }
  }

  lemma WhenReadBack(v: bv64)
    ensures ReadBack(v) == v <==> Survives(v)
  {
    hide LooksLikeNone;
    ShortIsNumber(v);
    NoneLooksSo();
    MaskKeeps(v);
  }

  lemma ShortIsNumber(v: bv64)
    ensures v < LONG_FORM ==> !LooksLikeNone(v) && v < 0x8000_0000_0000_0000
  {
  }

  lemma NoneLooksSo()
    ensures LooksLikeNone(NONE)
  {
  }

  lemma MaskKeeps(v: bv64)
    ensures v & 0x7FFF_FFFF_FFFF_FFFF == v <==> v < 0x8000_0000_0000_0000
  {
  }

  /** Both byte orders, over any bytes that were in the buffer, across the switch from the short to
      the long form. */
  lemma ScnRoundTrip(before: seq<bv8>, v: bv64)
    requires |before| == 8
    ensures ReadLittle(WrittenLittle(before, v)) == v <==> Survives(v)
    ensures ReadBig(WrittenBig(before, v)) == v <==> Survives(v)
  {
    ReadsLittle(before, v);
    ReadsBig(before, v);
    WhenReadBack(v);
  }
}
