/** How messages lie in the chunks of the output queue: a message starts with a header, its
    bytes may run on into the next chunks, and the next message starts at a multiple of 8. */
module QueueLayout {
  import opened Basics
  import opened Arithmetic

  /** One byte of a chunk, or the header of a message, which takes `H` bytes. */
  datatype Cell = Byte(b: int) | Header(size: nat, queueId: nat)

  /** `OUTPUT_BUFFER_DATA_SIZE` and `sizeof(BuilderMsg)`. */
  datatype Geometry = Geometry(D: nat, H: nat) {
    predicate Valid() {
      D % 8 == 0 && H % 8 == 0 && 0 < H < D
    }
  }

  datatype Chunk = Chunk(confirmed: nat, start: int, data: seq<Cell>)

  datatype Spot = Spot(c: nat, off: nat)

  /** A committed message and where its header is. */
  datatype Placement = Placement(at: Spot, bytes: seq<int>)

  function Round8(n: nat): (r: nat)
    ensures r % 8 == 0 && n <= r < n + 8
  {
    (n + 7) / 8 * 8
  }

  function Cells(bytes: seq<int>): (r: seq<Cell>)
    ensures |r| == |bytes| && forall i :: 0 <= i < |r| ==> r[i] == Byte(bytes[i])
  {
    seq(|bytes|, i requires 0 <= i < |bytes| => Byte(bytes[i]))
  }

  // ------------------------------------------------------------ reading across chunks

  /** `n` cells from `off` in chunk `c` on, filling each chunk before the next, exist. */
  predicate Fits(g: Geometry, chunks: seq<Chunk>, c: nat, off: nat, n: nat)
    decreases |chunks| - c
  {
    && c < |chunks| && |chunks[c].data| == g.D && off <= g.D
    && (off + n <= g.D || Fits(g, chunks, c + 1, 0, n - (g.D - off)))
  }

  function Span(g: Geometry, chunks: seq<Chunk>, c: nat, off: nat, n: nat): (r: seq<Cell>)
    requires Fits(g, chunks, c, off, n)
    ensures |r| == n
    decreases |chunks| - c
  {
    if off + n <= g.D then chunks[c].data[off..off + n]
    else chunks[c].data[off..] + Span(g, chunks, c + 1, 0, n - (g.D - off))
  }

  /** How much of chunk `c` holds finished messages, when the writer's next or unfinished
      message starts at `last`. */
  function Extent(chunks: seq<Chunk>, last: Spot, c: nat): nat {
    if c < last.c && c < |chunks| then chunks[c].confirmed else if c == last.c then last.off else 0
  }

  /** The range lies in the finished part: it ends each chunk it fills, and the next message can
      only start after it. */
  predicate Sealed(g: Geometry, chunks: seq<Chunk>, last: Spot, c: nat, off: nat, n: nat)
    decreases |chunks| - c
  {
    && c < |chunks|
    && if off + n <= g.D then Round8(off + n) <= Extent(chunks, last, c)
       else c < last.c && chunks[c].confirmed == g.D && Sealed(g, chunks, last, c + 1, 0, n - (g.D - off))
  }

  /** Where a reader is after `n` bytes and the padding. */
  function EndOf(g: Geometry, c: nat, off: nat, n: nat): Spot
    requires off < g.D
    decreases n
  {
    if off + n <= g.D then Spot(c, Round8(off + n)) else EndOf(g, c + 1, 0, n - (g.D - off))
  }

  /** Where the writer is after `n` bytes; it leaves a chunk as soon as that is full. */
  function Reach(g: Geometry, c: nat, off: nat, n: nat): Spot
    requires off < g.D
    decreases n
  {
    if off + n < g.D then Spot(c, off + n) else Reach(g, c + 1, 0, n - (g.D - off))
  }

  lemma {:induction false} ReachEnd(g: Geometry, c: nat, off: nat, n: nat)
    requires g.Valid() && off < g.D && n > 0
    ensures var r := Reach(g, c, off, n);
            && r.off < g.D && c <= r.c
            && (r.off > 0 ==> EndOf(g, c, off, n) == Spot(r.c, Round8(r.off)))
            && (r.off == 0 ==> r.c > c && EndOf(g, c, off, n) == Spot(r.c - 1, g.D))
    decreases n
  {
    if off + n >= g.D {
      if off + n > g.D {
        ReachEnd(g, c + 1, 0, n - (g.D - off));
      } else {
        assert Round8(g.D) == g.D;
      }
    }
  }

  /** One more byte, written at the writer's position, extends the range by that byte. */
  lemma {:induction false} SpanExtended(g: Geometry, chunks: seq<Chunk>, chunks': seq<Chunk>, c: nat, off: nat, n: nat, cell: Cell)
    requires g.Valid() && off < g.D && Fits(g, chunks, c, off, n)
    requires var r := Reach(g, c, off, n);
             && r.c < |chunks| == |chunks'| && |chunks[r.c].data| == g.D && r.off < g.D
             && chunks'[r.c].data == chunks[r.c].data[r.off := cell]
             && forall k :: 0 <= k < |chunks| ==> |chunks[k].data| == g.D && (k != r.c ==> chunks'[k].data == chunks[k].data)
    ensures Fits(g, chunks', c, off, n + 1)
    ensures Span(g, chunks', c, off, n + 1) == Span(g, chunks, c, off, n) + [cell]
    decreases n
  {
    if off + n < g.D {
      assert chunks'[c].data[off..off + n + 1] == chunks[c].data[off..off + n] + [cell];
    } else {
      hide Span, Fits;
      var rest := n - (g.D - off);
      ReachOnwards(g, c + 1, 0, rest);
      SpanCut(g, chunks, c, off, n);
      SpanExtended(g, chunks, chunks', c + 1, 0, rest, cell);
      SpanJoined(g, chunks', c, off, n + 1);
      var head := chunks[c].data[off..];
      assert head + (Span(g, chunks, c + 1, 0, rest) + [cell]) == head + Span(g, chunks, c + 1, 0, rest) + [cell];
    }
  }

  lemma SpanCut(g: Geometry, chunks: seq<Chunk>, c: nat, off: nat, n: nat)
    requires Fits(g, chunks, c, off, n) && off + n >= g.D && c + 1 < |chunks| && |chunks[c + 1].data| == g.D
    ensures c < |chunks| && |chunks[c].data| == g.D && off <= g.D
    ensures Fits(g, chunks, c + 1, 0, n - (g.D - off))
    ensures Span(g, chunks, c, off, n) == chunks[c].data[off..] + Span(g, chunks, c + 1, 0, n - (g.D - off))
  {
  }

  lemma SpanJoined(g: Geometry, chunks: seq<Chunk>, c: nat, off: nat, n: nat)
    requires c < |chunks| && |chunks[c].data| == g.D && off <= g.D && off + n > g.D && Fits(g, chunks, c + 1, 0, n - (g.D - off))
    ensures Fits(g, chunks, c, off, n)
    ensures Span(g, chunks, c, off, n) == chunks[c].data[off..] + Span(g, chunks, c + 1, 0, n - (g.D - off))
  {
  }

  lemma {:induction false} ReachOnwards(g: Geometry, c: nat, off: nat, n: nat)
    requires off < g.D
    ensures Reach(g, c, off, n).c >= c && Reach(g, c, off, n).off < g.D
    decreases n
  {
    if off + n >= g.D {
      ReachOnwards(g, c + 1, 0, n - (g.D - off));
    }
  }

  lemma {:induction false} ReachOffset(g: Geometry, c: nat, off: nat, n: nat)
    requires off < g.D
    ensures Reach(g, c, off, n).off == (off + n) % g.D
    decreases n
  {
    if off + n >= g.D {
      ReachOffset(g, c + 1, 0, n - (g.D - off));
      Shift(1, off + n - g.D, g.D);
    } else {
      Quotient(0, off + n, g.D);
    }
  }

  // ------------------------------------------------------------ committed messages

  /** From one state of the queue to a later one, the finished part stays as it was. */
  ghost predicate Preserved(g: Geometry, chunks: seq<Chunk>, chunks': seq<Chunk>, last: Spot, last': Spot) {
    && last.c < |chunks| <= |chunks'| && last.c <= last'.c < |chunks'|
    && (last'.c == last.c ==> last.off <= last'.off)
    && (last.c < last'.c ==> last.off <= chunks'[last.c].confirmed)
    && (forall c :: 0 <= c < |chunks| ==> |chunks[c].data| == |chunks'[c].data| == g.D)
    && (forall c :: 0 <= c < last.c ==> chunks'[c].confirmed == chunks[c].confirmed)
    && (forall c, j :: 0 <= c < |chunks| && 0 <= j < g.D && j < Extent(chunks, last, c) ==>
          chunks'[c].data[j] == chunks[c].data[j])
  }

  lemma {:induction false} SpanPreserved(g: Geometry, chunks: seq<Chunk>, chunks': seq<Chunk>, last: Spot, last': Spot,
                                         c: nat, off: nat, n: nat)
    requires Preserved(g, chunks, chunks', last, last') && off <= g.D
    requires Fits(g, chunks, c, off, n) && Sealed(g, chunks, last, c, off, n)
    ensures Fits(g, chunks', c, off, n) && Sealed(g, chunks', last', c, off, n)
    ensures Span(g, chunks', c, off, n) == Span(g, chunks, c, off, n)
    decreases |chunks| - c
  {
    if off + n <= g.D {
      assert chunks'[c].data[off..off + n] == chunks[c].data[off..off + n];
    } else {
      assert Extent(chunks, last, c) == g.D;
      assert chunks'[c].data[off..] == chunks[c].data[off..];
      SpanPreserved(g, chunks, chunks', last, last', c + 1, 0, n - (g.D - off));
    }
  }

  /** A committed message is intact: its header gives its size and the chunk that the builder reached
      with it, and its bytes follow. It starts at a multiple of 8, and runs over the end of a chunk
      only if it starts at the front of one. */
  ghost predicate Stored(g: Geometry, chunks: seq<Chunk>, last: Spot, m: Placement) {
    var c, off, n := m.at.c, m.at.off, |m.bytes|;
    && c < |chunks| && |chunks[c].data| == g.D
    && n > 0 && off % 8 == 0 && off + g.H < g.D
    && (off + g.H + n > g.D ==> off == 0)
    && chunks[c].data[off].Header? && chunks[c].data[off].size == n
    && chunks[c].data[off].queueId == Reach(g, c, off + g.H, n).c < |chunks|
    && Fits(g, chunks, c, off + g.H, n) && Sealed(g, chunks, last, c, off + g.H, n)
    && Span(g, chunks, c, off + g.H, n) == Cells(m.bytes)
  }

  lemma StoredPreserved(g: Geometry, chunks: seq<Chunk>, chunks': seq<Chunk>, last: Spot, last': Spot, m: Placement)
    requires g.Valid() && Preserved(g, chunks, chunks', last, last') && Stored(g, chunks, last, m)
    ensures Stored(g, chunks', last', m)
  {
    SpanPreserved(g, chunks, chunks', last, last', m.at.c, m.at.off + g.H, |m.bytes|);
  }

  /** A reader at the end of the confirmed part of a chunk goes on with the next chunk. */
  function Settle(chunks: seq<Chunk>, s: Spot): Spot {
    if s.c + 1 < |chunks| && chunks[s.c].confirmed == s.off then Spot(s.c + 1, 0) else s
  }

  function After(g: Geometry, m: Placement): Spot
    requires m.at.off + g.H < g.D
  {
    EndOf(g, m.at.c, m.at.off + g.H, |m.bytes|)
  }

  /** The messages, all finished before `last`, follow one another from `from` to `to`. */
  ghost predicate Chain(g: Geometry, chunks: seq<Chunk>, from: Spot, placed: seq<Placement>, to: Spot, last: Spot)
    decreases |placed|
  {
    if placed == [] then Settle(chunks, from) == to && from.c <= to.c
    else
      && Settle(chunks, from) == placed[0].at && from.c <= placed[0].at.c
      && Stored(g, chunks, last, placed[0])
      && Chain(g, chunks, After(g, placed[0]), placed[1..], to, last)
  }

  /** Every spot from which a reader would have come to `last` now leads to `to`. */
  ghost predicate Redirected(chunks: seq<Chunk>, chunks': seq<Chunk>, last: Spot, to: Spot) {
    forall s :: Settle(chunks, s) == last && s.c <= last.c ==> Settle(chunks', s) == to
  }

  /** Nobody is sent elsewhere while the chunks before `last` keep their confirmed sizes and the
      chunk of `last`, if another follows, has more in it. */
  lemma NotRedirected(chunks: seq<Chunk>, chunks': seq<Chunk>, last: Spot)
    requires last.c < |chunks| <= |chunks'|
    requires forall c :: 0 <= c < last.c ==> chunks'[c].confirmed == chunks[c].confirmed
    requires last.c + 1 < |chunks'| ==> chunks'[last.c].confirmed != last.off
    ensures Redirected(chunks, chunks', last, last)
  {
    forall s | Settle(chunks, s) == last && s.c <= last.c ensures Settle(chunks', s) == last {
    }
  }

  /** A finished message starts before `last`. */
  lemma StartsInside(g: Geometry, chunks: seq<Chunk>, last: Spot, m: Placement)
    requires g.Valid() && Stored(g, chunks, last, m)
    ensures m.at.c < last.c || (m.at.c == last.c && m.at.off < last.off)
  {
  }

  lemma {:induction false} ChainPreserved(g: Geometry, chunks: seq<Chunk>, chunks': seq<Chunk>, from: Spot,
                                          placed: seq<Placement>, last: Spot, to: Spot, last': Spot)
    requires g.Valid() && Preserved(g, chunks, chunks', last, last') && Redirected(chunks, chunks', last, to)
    requires last.off <= chunks'[last.c].confirmed && last.c <= to.c
    requires Chain(g, chunks, from, placed, last, last)
    ensures Chain(g, chunks', from, placed, to, last')
    decreases |placed|
  {
    if placed != [] {
      hide Stored;
      var m := placed[0];
      StoredPreserved(g, chunks, chunks', last, last', m);
      StartsInside(g, chunks, last, m);
      ChainPreserved(g, chunks, chunks', After(g, m), placed[1..], last, to, last');
    }
  }

  lemma {:induction false} ChainExtended(g: Geometry, chunks: seq<Chunk>, from: Spot, placed: seq<Placement>, m: Placement, last: Spot)
    requires g.Valid() && Stored(g, chunks, last, m) && Settle(chunks, After(g, m)) == last && After(g, m).c <= last.c
    requires Chain(g, chunks, from, placed, m.at, last)
    ensures Chain(g, chunks, from, placed + [m], last, last)
    decreases |placed|
  {
    if placed == [] {
      assert ([m])[1..] == [];
    } else {
      hide Settle;
      ChainExtended(g, chunks, After(g, placed[0]), placed[1..], m, last);
      assert (placed + [m])[1..] == placed[1..] + [m];
    }
  }
}
