/** The state of the output queue and what each step of the builder does to it. */
module QueueSteps {
  import opened Basics
  import opened QueueLayout

  /** `lastSize`, `position` and `size` are `lastBuilderSize`, `messagePosition` and
      `messageSize`; `msg` is where the header of the unfinished message is. */
  datatype Queue = Queue(chunks: seq<Chunk>, lastSize: nat, position: nat, size: nat, msg: Option<Spot>)

  const UNDEFINED: int := -1

  function Last(q: Queue): int {
    |q.chunks| - 1
  }

  ghost predicate Sane(g: Geometry, q: Queue) {
    && g.Valid() && q.chunks != []
    && (forall c :: 0 <= c < |q.chunks| ==> |q.chunks[c].data| == g.D && q.chunks[c].confirmed <= g.D)
    && q.chunks[Last(q)].confirmed == q.lastSize <= g.D && q.lastSize % 8 == 0
  }

  /** The unfinished message: its bytes so far, with room for one more. It lies in the last chunk
      behind the finished ones, or it starts at the front of a chunk and fills every chunk up to
      the last one. */
  ghost predicate Open(g: Geometry, q: Queue, at: Spot, bytes: seq<int>)
    requires Sane(g, q)
  {
    && at.c <= Last(q) && at.off % 8 == 0 && at.off + g.H < g.D
    && q.chunks[at.c].data[at.off].Header? && q.chunks[at.c].data[at.off].size == 0
    && Fits(g, q.chunks, at.c, at.off + g.H, |bytes|)
    && Span(g, q.chunks, at.c, at.off + g.H, |bytes|) == Cells(bytes)
    && Reach(g, at.c, at.off + g.H, |bytes|) == Spot(Last(q), q.lastSize + q.position)
    && q.lastSize + q.position < g.D
    && q.size + q.position == g.H + |bytes|
    && (at.c == Last(q) ==> at.off == q.lastSize && q.size == 0)
    && (at.c < Last(q) ==> at.off == 0 && q.lastSize == 0 && q.size >= g.D)
    && (forall c :: at.c <= c < Last(q) ==> q.chunks[c].confirmed == g.D)
  }

  /** A reader at `from` has `placed` ahead of it, and between messages the queue ends where the next
      one goes. */
  ghost predicate Closed(g: Geometry, q: Queue, from: Spot, placed: seq<Placement>) {
    && Sane(g, q) && q.msg.None?
    && Chain(g, q.chunks, from, placed, Spot(Last(q), q.lastSize), Spot(Last(q), q.lastSize))
  }

  /** A reader at `from` has `placed` ahead of it, followed by an unfinished message of `bytes`. */
  ghost predicate Writing(g: Geometry, q: Queue, from: Spot, placed: seq<Placement>, bytes: seq<int>) {
    && Sane(g, q) && q.msg.Some?
    && Open(g, q, q.msg.value, bytes)
    && Chain(g, q.chunks, from, placed, q.msg.value, q.msg.value)
  }

  function WithLast(q: Queue, chunk: Chunk): seq<Chunk>
    requires q.chunks != []
  {
    q.chunks[Last(q) := chunk]
  }

  // ------------------------------------------------------------ starting a message

  /** The header of a new message, with size 0 while the message is unfinished. */
  function BeginAt(g: Geometry, q: Queue): Queue
    requires q.chunks != [] && |q.chunks[Last(q)].data| == g.D && q.lastSize < g.D
  {
    var chunk := q.chunks[Last(q)];
    q.(chunks := WithLast(q, chunk.(data := chunk.data[q.lastSize := Header(0, 0)])),
       position := g.H, size := 0, msg := Some(Spot(Last(q), q.lastSize)))
  }

  lemma BeginKeeps(g: Geometry, q: Queue, from: Spot, placed: seq<Placement>)
    requires Closed(g, q, from, placed) && q.lastSize + g.H < g.D
    ensures Writing(g, BeginAt(g, q), from, placed, [])
  {
    hide Chain;
    var q' := BeginAt(g, q);
    var last := Spot(Last(q), q.lastSize);
    ChainPreserved(g, q.chunks, q'.chunks, from, placed, last, last, last);
  }

  // ------------------------------------------------------------ appending a byte

  /** The byte goes to the current position. */
  function Put(q: Queue, b: int): Queue
    requires q.chunks != [] && q.lastSize + q.position < |q.chunks[Last(q)].data|
  {
    var chunk := q.chunks[Last(q)];
    q.(chunks := WithLast(q, chunk.(data := chunk.data[q.lastSize + q.position := Byte(b)])), position := q.position + 1)
  }

  /** What holds right after a byte was stored, also when the chunk is now full. */
  lemma PutStores(g: Geometry, q: Queue, from: Spot, placed: seq<Placement>, bytes: seq<int>, b: int)
    requires Writing(g, q, from, placed, bytes)
    ensures var q', at := Put(q, b), q.msg.value;
            && Sane(g, q') && Chain(g, q'.chunks, from, placed, at, at)
            && q'.chunks[at.c].data[at.off].Header? && q'.chunks[at.c].data[at.off].size == 0
            && Fits(g, q'.chunks, at.c, at.off + g.H, |bytes| + 1)
            && Span(g, q'.chunks, at.c, at.off + g.H, |bytes| + 1) == Cells(bytes + [b])
  {
    hide Chain, Span, Fits, Reach, Preserved, Redirected;
    var q', at := Put(q, b), q.msg.value;
    PutPreserves(g, q, bytes, b);
    ChainPreserved(g, q.chunks, q'.chunks, from, placed, at, at, at);
    SpanExtended(g, q.chunks, q'.chunks, at.c, at.off + g.H, |bytes|, Byte(b));
    assert Cells(bytes + [b]) == Cells(bytes) + [Byte(b)];
    ReachStaysAhead(g, at.c, at.off + g.H, |bytes|);
  }

  lemma PutPreserves(g: Geometry, q: Queue, bytes: seq<int>, b: int)
    requires Sane(g, q) && q.msg.Some? && Open(g, q, q.msg.value, bytes)
    ensures var q', at := Put(q, b), q.msg.value;
            && Preserved(g, q.chunks, q'.chunks, at, at) && Redirected(q.chunks, q'.chunks, at, at)
            && at.off <= q'.chunks[at.c].confirmed
  {
    hide Span, Fits, Reach, Redirected;
    ReachStaysAhead(g, q.msg.value.c, q.msg.value.off + g.H, |bytes|);
    NotRedirected(q.chunks, Put(q, b).chunks, q.msg.value);
  }

  lemma {:induction false} ReachStaysAhead(g: Geometry, c: nat, off: nat, n: nat)
    requires off < g.D
    ensures var r := Reach(g, c, off, n); r.c > c || (r.c == c && r.off >= off)
    decreases n
  {
    if off + n >= g.D {
      ReachOnwards(g, c + 1, 0, n - (g.D - off));
    }
  }

  lemma {:induction false} ReachNext(g: Geometry, c: nat, off: nat, n: nat)
    requires off < g.D && 1 < g.D
    ensures var r := Reach(g, c, off, n);
            Reach(g, c, off, n + 1) == if r.off + 1 < g.D then Spot(r.c, r.off + 1) else Spot(r.c + 1, 0)
    decreases n
  {
    if off + n >= g.D {
      ReachNext(g, c + 1, 0, n - (g.D - off));
    } else {
      ReachOnwards(g, c, off, n);
    }
  }

  lemma PutKeeps(g: Geometry, q: Queue, from: Spot, placed: seq<Placement>, bytes: seq<int>, b: int)
    requires Writing(g, q, from, placed, bytes) && q.lastSize + q.position + 1 < g.D
    ensures Writing(g, Put(q, b), from, placed, bytes + [b])
  {
    hide Chain;
    var at := q.msg.value;
    PutStores(g, q, from, placed, bytes, b);
    ReachNext(g, at.c, at.off + g.H, |bytes|);
  }

  // ------------------------------------------------------------ a full chunk

  /** The message would fit in a chunk of its own: it is copied to a new one. */
  function Relocate(q: Queue, memory: seq<Cell>): Queue
    requires q.chunks != [] && q.lastSize + q.position <= |q.chunks[Last(q)].data| && q.position <= |memory|
  {
    var copy := q.chunks[Last(q)].data[q.lastSize..q.lastSize + q.position] + memory[q.position..];
    q.(chunks := q.chunks + [Chunk(0, 0, copy)], lastSize := 0, msg := Some(Spot(|q.chunks|, 0)))
  }

  lemma RelocatePreserves(g: Geometry, p: Queue, at: Spot, memory: seq<Cell>)
    requires Sane(g, p) && p.lastSize + p.position == g.D && 0 < p.lastSize && |memory| == g.D
    requires at == Spot(Last(p), p.lastSize)
    ensures var q' := Relocate(p, memory);
            && Preserved(g, p.chunks, q'.chunks, at, q'.msg.value) && Redirected(p.chunks, q'.chunks, at, q'.msg.value)
            && at.off <= q'.chunks[at.c].confirmed && Sane(g, q')
  {
  }

  lemma RelocateKeeps(g: Geometry, q: Queue, from: Spot, placed: seq<Placement>, bytes: seq<int>, b: int, memory: seq<Cell>)
    requires Writing(g, q, from, placed, bytes) && q.lastSize + q.position + 1 == g.D
    requires q.size + q.position + 1 < g.D && |memory| == g.D
    ensures Writing(g, Relocate(Put(q, b), memory), from, placed, bytes + [b])
  {
    hide Chain, Preserved, Redirected;
    PutStores(g, q, from, placed, bytes, b);
    var p := Put(q, b);
    var at := q.msg.value;
    var q' := Relocate(p, memory);
    var at' := q'.msg.value;
    RelocatePreserves(g, p, at, memory);
    ChainPreserved(g, p.chunks, q'.chunks, from, placed, at, at', at');
    var n := |bytes| + 1;
    assert q'.chunks[at'.c].data[g.H..g.H + n] == p.chunks[at.c].data[at.off + g.H..at.off + g.H + n];
  }

  /** The message does not fit in one chunk: it goes on in a new one. */
  function GoOn(q: Queue, memory: seq<Cell>): Queue
    requires q.chunks != []
  {
    var chunk := q.chunks[Last(q)];
    q.(chunks := WithLast(q, chunk.(confirmed := chunk.confirmed + q.position)) + [Chunk(0, UNDEFINED, memory)],
       lastSize := 0, position := 0, size := q.size + q.position)
  }

  lemma GoOnPreserves(g: Geometry, p: Queue, at: Spot, memory: seq<Cell>)
    requires Sane(g, p) && p.lastSize == 0 && p.position == g.D && |memory| == g.D
    requires at.c <= Last(p) && at.off == 0 && forall c :: at.c <= c < Last(p) ==> p.chunks[c].confirmed == g.D
    ensures var q' := GoOn(p, memory);
            && Preserved(g, p.chunks, q'.chunks, at, at) && Redirected(p.chunks, q'.chunks, at, at)
            && at.off <= q'.chunks[at.c].confirmed && Sane(g, q')
            && forall c :: at.c <= c < Last(q') ==> q'.chunks[c].confirmed == g.D
  {
    hide Redirected;
    NotRedirected(p.chunks, GoOn(p, memory).chunks, at);
  }

  lemma GoOnKeeps(g: Geometry, q: Queue, from: Spot, placed: seq<Placement>, bytes: seq<int>, b: int, memory: seq<Cell>)
    requires Writing(g, q, from, placed, bytes) && q.lastSize + q.position + 1 == g.D
    requires q.size + q.position + 1 >= g.D && |memory| == g.D
    ensures q.lastSize == 0
    ensures Writing(g, GoOn(Put(q, b), memory), from, placed, bytes + [b])
  {
    hide Chain, Preserved, Redirected, Span, Fits, Reach;
    PutStores(g, q, from, placed, bytes, b);
    var p := Put(q, b);
    var at := q.msg.value;
    var q' := GoOn(p, memory);
    GoOnPreserves(g, p, at, memory);
    ChainPreserved(g, p.chunks, q'.chunks, from, placed, at, at, at);
    SpanOfMore(g, p.chunks, q'.chunks, at.c, at.off + g.H, |bytes| + 1);
    ReachNext(g, at.c, at.off + g.H, |bytes|);
  }

  lemma GoOnBetweenPreserves(g: Geometry, q: Queue, memory: seq<Cell>)
    requires Sane(g, q) && q.position == 0 && q.lastSize > 0 && |memory| == g.D
    ensures var q' := GoOn(q, memory);
            var last, last' := Spot(Last(q), q.lastSize), Spot(Last(q'), 0);
            && Sane(g, q') && last.off <= q'.chunks[last.c].confirmed
            && Preserved(g, q.chunks, q'.chunks, last, last') && Redirected(q.chunks, q'.chunks, last, last')
  {
    var q' := GoOn(q, memory);
    assert forall c :: 0 <= c < |q.chunks| ==> q'.chunks[c] == q.chunks[c];
  }

  /** Between two messages a new chunk changes nothing for the reader. */
  lemma GoOnBetweenKeeps(g: Geometry, q: Queue, from: Spot, placed: seq<Placement>, memory: seq<Cell>)
    requires Closed(g, q, from, placed) && q.position == 0 && q.lastSize > 0 && |memory| == g.D
    ensures Closed(g, GoOn(q, memory), from, placed)
  {
    hide Chain, Preserved, Redirected;
    var q' := GoOn(q, memory);
    var last := Spot(Last(q), q.lastSize);
    var last' := Spot(Last(q'), 0);
    GoOnBetweenPreserves(g, q, memory);
    ChainPreserved(g, q.chunks, q'.chunks, from, placed, last, last', last');
  }

  /** Adding chunks, or confirming more of one, does not change what is read. */
  lemma {:induction false} SpanOfMore(g: Geometry, chunks: seq<Chunk>, chunks': seq<Chunk>, c: nat, off: nat, n: nat)
    requires Fits(g, chunks, c, off, n) && |chunks| <= |chunks'|
    requires forall k :: 0 <= k < |chunks| ==> chunks'[k].data == chunks[k].data
    ensures Fits(g, chunks', c, off, n) && Span(g, chunks', c, off, n) == Span(g, chunks, c, off, n)
    decreases |chunks| - c
  {
    if off + n > g.D {
      SpanOfMore(g, chunks, chunks', c + 1, 0, n - (g.D - off));
    }
  }

  // ------------------------------------------------------------ finishing a message

  function Padded(n: nat): nat {
    n + (8 - n % 8) % 8
  }

  /** The header gets the size, and the position is rounded up to a multiple of 8. */
  function Finish(g: Geometry, q: Queue): Queue
    requires q.msg.Some? && q.chunks != [] && q.msg.value.c < |q.chunks| && q.msg.value.off < |q.chunks[q.msg.value.c].data|
    requires q.chunks[q.msg.value.c].data[q.msg.value.off].Header? && q.size + q.position >= g.H
  {
    var at := q.msg.value;
    var first := q.chunks[at.c];
    var header := first.data[at.off].(size := q.size + q.position - g.H, queueId := Last(q));
    var chunks := q.chunks[at.c := first.(data := first.data[at.off := header])];
    var last := chunks[Last(q)];
    var confirmed := last.confirmed + Padded(q.position);
    q.(chunks := chunks[Last(q) := last.(confirmed := confirmed, start := if last.start == UNDEFINED then confirmed else last.start)],
       lastSize := q.lastSize + Padded(q.position), position := Padded(q.position), size := q.size + q.position, msg := None)
  }

  lemma {:induction false} SealedByReach(g: Geometry, chunks: seq<Chunk>, last: Spot, c: nat, off: nat, n: nat)
    requires g.Valid() && off < g.D && Fits(g, chunks, c, off, n) && last.c < |chunks|
    requires var r := Reach(g, c, off, n); r.c == last.c && Round8(r.off) <= last.off
    requires forall k :: c <= k < last.c ==> chunks[k].confirmed == g.D
    ensures Sealed(g, chunks, last, c, off, n)
    decreases n
  {
    if off + n >= g.D {
      ReachOnwards(g, c + 1, 0, n - (g.D - off));
      if off + n > g.D {
        SealedByReach(g, chunks, last, c + 1, 0, n - (g.D - off));
      } else {
        assert Round8(g.D) == g.D;
      }
    }
  }

  lemma PaddedIsRounded(base: nat, n: nat, limit: nat)
    requires base % 8 == 0 && limit % 8 == 0 && base + n < limit
    ensures base + Padded(n) == Round8(base + n) <= limit && Padded(n) % 8 == 0
  {
    var k, q, r := base / 8, n / 8, n % 8;
    assert base + n == 8 * (k + q) + r;
    if r == 0 {
      assert (base + n + 7) / 8 == k + q;
    } else {
      assert (base + n + 7) / 8 == k + q + 1;
      assert limit / 8 >= k + q + 1;
    }
  }

  lemma FinishSane(g: Geometry, q: Queue, bytes: seq<int>)
    requires Sane(g, q) && q.msg.Some? && Open(g, q, q.msg.value, bytes)
    ensures var q' := Finish(g, q);
            Sane(g, q') && q'.lastSize == Round8(q.lastSize + q.position) && Last(q') == Last(q)
  {
    hide Span, Fits, Reach, Padded, Round8;
    PaddedIsRounded(q.lastSize, q.position, g.D);
  }

  lemma FinishStores(g: Geometry, q: Queue, from: Spot, placed: seq<Placement>, bytes: seq<int>)
    requires Writing(g, q, from, placed, bytes) && bytes != []
    ensures var q' := Finish(g, q);
            && Sane(g, q')
            && Stored(g, q'.chunks, Spot(Last(q'), q'.lastSize), Placement(q.msg.value, bytes))
  {
    hide Chain, Span, Fits, Reach, Sealed, Round8, Padded;
    var q', at := Finish(g, q), q.msg.value;
    FinishSane(g, q, bytes);
    FinishKeepsBytes(g, q, bytes);
    SealedByReach(g, q'.chunks, Spot(Last(q'), q'.lastSize), at.c, at.off + g.H, |bytes|);
    SpanningStartsAtFront(g, at, |bytes|, Last(q));
  }

  lemma SpanningStartsAtFront(g: Geometry, at: Spot, n: nat, last: int)
    requires at.off + g.H < g.D && Reach(g, at.c, at.off + g.H, n).c == last && (at.c < last ==> at.off == 0)
    ensures at.off + g.H + n > g.D ==> at.off == 0
  {
    if at.off + g.H + n > g.D {
      ReachOnwards(g, at.c + 1, 0, at.off + g.H + n - g.D);
    }
  }

  lemma FinishKeepsBytes(g: Geometry, q: Queue, bytes: seq<int>)
    requires Sane(g, q) && q.msg.Some? && Open(g, q, q.msg.value, bytes)
    ensures var q', at := Finish(g, q), q.msg.value;
            && Fits(g, q'.chunks, at.c, at.off + g.H, |bytes|)
            && Span(g, q'.chunks, at.c, at.off + g.H, |bytes|) == Cells(bytes)
  {
    var q', at := Finish(g, q), q.msg.value;
    SpanBehind(g, q.chunks, q'.chunks, at.c, at.off + g.H, |bytes|);
  }

  /** Changing one chunk before the range does not change what is read. */
  lemma SpanBehind(g: Geometry, chunks: seq<Chunk>, chunks': seq<Chunk>, c: nat, off: nat, n: nat)
    requires Fits(g, chunks, c, off, n) && |chunks'| == |chunks|
    requires |chunks'[c].data| == g.D && chunks'[c].data[off..] == chunks[c].data[off..]
    requires forall k :: c < k < |chunks| ==> chunks'[k].data == chunks[k].data
    ensures Fits(g, chunks', c, off, n) && Span(g, chunks', c, off, n) == Span(g, chunks, c, off, n)
  {
    if off + n > g.D {
      SpanAfter(g, chunks, chunks', c + 1, n - (g.D - off));
    } else {
      assert chunks'[c].data[off..off + n] == chunks'[c].data[off..][..n];
      assert chunks[c].data[off..off + n] == chunks[c].data[off..][..n];
    }
  }

  lemma {:induction false} SpanAfter(g: Geometry, chunks: seq<Chunk>, chunks': seq<Chunk>, c: nat, n: nat)
    requires Fits(g, chunks, c, 0, n) && |chunks'| == |chunks|
    requires forall k :: c <= k < |chunks| ==> chunks'[k].data == chunks[k].data
    ensures Fits(g, chunks', c, 0, n) && Span(g, chunks', c, 0, n) == Span(g, chunks, c, 0, n)
    decreases |chunks| - c
  {
    if n > g.D {
      SpanAfter(g, chunks, chunks', c + 1, n - g.D);
    }
  }

  lemma FinishPreserves(g: Geometry, q: Queue, bytes: seq<int>)
    requires Sane(g, q) && q.msg.Some? && Open(g, q, q.msg.value, bytes)
    ensures var q', at := Finish(g, q), q.msg.value;
            && Sane(g, q')
            && Preserved(g, q.chunks, q'.chunks, at, Spot(Last(q'), q'.lastSize)) && Redirected(q.chunks, q'.chunks, at, at)
            && at.off <= q'.chunks[at.c].confirmed
            && forall c :: at.c <= c < Last(q) ==> q'.chunks[c].confirmed == g.D
  {
    hide Span, Fits, Reach, Padded, Round8, Redirected;
    PaddedIsRounded(q.lastSize, q.position, g.D);
    FinishRedirects(g, q, bytes);
  }

  lemma FinishRedirects(g: Geometry, q: Queue, bytes: seq<int>)
    requires Sane(g, q) && q.msg.Some? && Open(g, q, q.msg.value, bytes)
    ensures Redirected(q.chunks, Finish(g, q).chunks, q.msg.value, q.msg.value)
  {
    hide Span, Fits, Reach, Redirected, Padded;
    NotRedirected(q.chunks, Finish(g, q).chunks, q.msg.value);
  }

  lemma FinishKeeps(g: Geometry, q: Queue, from: Spot, placed: seq<Placement>, bytes: seq<int>)
    requires Writing(g, q, from, placed, bytes) && bytes != []
    ensures Closed(g, Finish(g, q), from, placed + [Placement(q.msg.value, bytes)])
  {
    hide Chain, Stored, Span, Fits, Reach, EndOf, Preserved, Redirected, Round8, Padded;
    var q', at := Finish(g, q), q.msg.value;
    var last' := Spot(Last(q'), q'.lastSize);
    var m := Placement(at, bytes);
    FinishSane(g, q, bytes);
    FinishPreserves(g, q, bytes);
    FinishStores(g, q, from, placed, bytes);
    ChainPreserved(g, q.chunks, q'.chunks, from, placed, at, at, last');
    ReachEnd(g, at.c, at.off + g.H, |bytes|);
    ChainExtended(g, q'.chunks, from, placed, m, last');
  }
}
