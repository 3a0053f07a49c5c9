/** The output queue in memory: the builder fills arrays chunk by chunk, and the writer thread
    reads the finished messages back from them. */
module OutputQueue {
  import opened Basics
  import opened QueueLayout
  import opened QueueSteps
  import opened QueueRuns

  ghost function ChunkList(buffers: seq<array<Cell>>, confirmed: seq<nat>, start: seq<int>): (r: seq<Chunk>)
    requires |buffers| == |confirmed| == |start|
    reads buffers
    ensures |r| == |buffers| && forall i :: 0 <= i < |r| ==> r[i] == Chunk(confirmed[i], start[i], buffers[i][..])
  {
    seq(|buffers|, i requires 0 <= i < |buffers| reads buffers => Chunk(confirmed[i], start[i], buffers[i][..]))
  }

  /** `memcpy` between two chunks. */
  method CopyCells(from: array<Cell>, off: nat, to: array<Cell>, n: nat)
    requires from != to && off + n <= from.Length && n <= to.Length
    modifies to
    ensures to[..] == old(from[off..off + n] + to[n..])
  {
    forall i | 0 <= i < n {
      to[i] := from[off + i];
    }
  }

  /** `memcpy` of a string into a chunk. */
  method CopyBytes(to: array<Cell>, at: nat, str: seq<int>)
    requires at + |str| <= to.Length
    modifies to
    ensures to[..] == old(to[..])[..at] + Cells(str) + old(to[..])[at + |str|..]
  {
    forall i | 0 <= i < |str| {
      to[at + i] := Byte(str[i]);
    }
  }

  function Confirmed(q: Queue, n: nat): Queue
    requires q.chunks != []
  {
    var last := q.chunks[Last(q)];
    q.(chunks := WithLast(q, last.(confirmed := last.confirmed + n)))
  }

  function Linked(q: Queue, chunk: Chunk): Queue {
    q.(chunks := q.chunks + [chunk])
  }

  lemma GoOnInSteps(q: Queue, memory: seq<Cell>)
    requires q.chunks != []
    ensures GoOn(q, memory) ==
            Linked(Confirmed(Queue(q.chunks, 0, 0, q.size + q.position, q.msg), q.position), Chunk(0, UNDEFINED, memory))
  {
  }

  function Sized(q: Queue, at: Spot, n: nat): Queue
    requires at.c < |q.chunks| && at.off < |q.chunks[at.c].data| && q.chunks[at.c].data[at.off].Header?
  {
    var first := q.chunks[at.c];
    q.(chunks := q.chunks[at.c := first.(data := first.data[at.off := first.data[at.off].(size := n, queueId := Last(q))])])
  }

  function Started(q: Queue): Queue
    requires q.chunks != []
  {
    var last := q.chunks[Last(q)];
    if last.start == UNDEFINED then q.(chunks := WithLast(q, last.(start := last.confirmed))) else q
  }

  lemma FinishInSteps(g: Geometry, q: Queue)
    requires HasHeader(g, q)
    ensures var p := Sized(q, q.msg.value, q.size + q.position - g.H);
            var n := Padded(q.position);
            Finish(g, q) == Started(Confirmed(Queue(p.chunks, q.lastSize + n, n, q.size + q.position, None), n))
  {
  }

  /** The list of chunks: the data of each, its confirmed size and its `start`; `next` links are the
      order of the lists. */
  class Builder {
    const g: Geometry
    const limit: nat
    var buffers: seq<array<Cell>>
    var confirmed: seq<nat>
    var start: seq<int>
    var lastSize: nat
    var position: nat
    var size: nat
    var msg: Option<Spot>

    ghost predicate Valid()
      reads this
    {
      && g.Valid() && buffers != [] && |buffers| == |confirmed| == |start|
      && (forall i :: 0 <= i < |buffers| ==> buffers[i].Length == g.D)
      && (forall i, j :: 0 <= i < j < |buffers| ==> buffers[i] != buffers[j])
    }

    ghost function Now(): Queue
      requires Valid()
      reads this, buffers
    {
      Queue(ChunkList(buffers, confirmed, start), lastSize, position, size, msg)
    }

    constructor (g: Geometry, limit: nat)
      requires g.Valid()
      ensures Valid() && this.g == g && this.limit == limit && fresh(buffers)
      ensures Now() == Fresh(buffers[0][..]).q
    {
      this.g, this.limit := g, limit;
      var first := new Cell[g.D];
      buffers, confirmed, start, lastSize, position, size, msg := [first], [0], [0], 0, 0, 0, None;
      new;
      assert ChunkList(buffers, confirmed, start) == [Chunk(0, 0, first[..])];
    }

    /** The message would fit in one chunk: it is copied to the new chunk. */
    method CopyTo(next: array<Cell>)
      requires Valid() && lastSize + position <= g.D && msg == Some(Spot(|buffers| - 1, lastSize))
      requires next !in buffers && next.Length == g.D
      modifies this, next
      ensures Valid() && Now() == Relocate(old(Now()), old(next[..])) && buffers == old(buffers) + [next]
      ensures lastSize == 0 && size + position == old(size + position)
    {
      CopyCells(buffers[|buffers| - 1], msg.value.off, next, position);
      Fields(0, position, size, Some(Spot(|buffers|, 0)));
      hide ChunkList;
      Link(next, 0);
    }

    /** The scalar fields change, the chunks do not. */
    method Fields(lastSize': nat, position': nat, size': nat, msg': Option<Spot>)
      requires Valid()
      modifies this`lastSize, this`position, this`size, this`msg
      ensures Valid() && lastSize == lastSize' && position == position' && size == size' && msg == msg'
      ensures Now() == Queue(old(Now().chunks), lastSize', position', size', msg')
    {
      lastSize, position, size, msg := lastSize', position', size', msg';
    }

    /** More of the last chunk is finished. */
    method Confirm(n: nat)
      requires Valid()
      modifies this`confirmed
      ensures Valid() && Now() == Confirmed(old(Now()), n)
    {
      var last := |buffers| - 1;
      confirmed := confirmed[last := confirmed[last] + n];
    }

    /** A new chunk at the end of the list. */
    method Link(next: array<Cell>, first: int)
      requires Valid() && next !in buffers && next.Length == g.D
      modifies this`buffers, this`confirmed, this`start
      ensures Valid() && buffers == old(buffers) + [next] && Now() == Linked(old(Now()), Chunk(0, first, next[..]))
    {
      buffers, confirmed, start := buffers + [next], confirmed + [0], start + [first];
    }

    /** The message goes on in the new chunk, or starts there. */
    method Continue(next: array<Cell>)
      requires Valid() && next !in buffers && next.Length == g.D
      modifies this
      ensures Valid() && Now() == GoOn(old(Now()), next[..]) && buffers == old(buffers) + [next]
      ensures lastSize == 0 && size + position == old(size + position)
    {
      hide ChunkList, Confirmed, Linked, GoOn;
      var n := position;
      Fields(0, 0, size + n, msg);
      Confirm(n);
      Link(next, UNDEFINED);
      GoOnInSteps(old(Now()), next[..]);
    }

    /** `builderRotate`; `memory` is what the new chunk holds when it is allocated. */
    method Rotate() returns (ok: bool, ghost memory: seq<Cell>)
      requires Valid() && lastSize + position <= g.D && (msg.Some? && size + position < g.D ==> msg == Some(Spot(|buffers| - 1, lastSize)))
      modifies this
      ensures Valid() && |memory| == g.D
      ensures var o := QueueRuns.Rotate(g, limit, old(Now()), memory); Now() == o.q && ok == o.Done?
      ensures if ok then lastSize == 0 && size + position == old(size + position) && fresh(buffers[|buffers| - 1])
              else buffers == old(buffers)
    {
      hide GoOn, Relocate;
      if size > limit {
        return false, seq(g.D, _ => Byte(0));
      }
      var next := new Cell[g.D];
      memory := next[..];
      if msg.Some? && size + position < g.D {
        CopyTo(next);
      } else {
        Continue(next);
      }
      ok := true;
    }

    /** A cell of the last chunk is written. */
    method Store(i: nat, cell: Cell)
      requires Valid() && i < g.D
      modifies buffers[|buffers| - 1]
      ensures Now().chunks == old(Now().chunks[|buffers| - 1 := Now().chunks[|buffers| - 1].(data := Now().chunks[|buffers| - 1].data[i := cell])])
    {
      buffers[|buffers| - 1][i] := cell;
    }

    /** The header of a new message. */
    method PlaceHeader()
      requires Valid() && lastSize < g.D && size == 0
      modifies this, buffers[|buffers| - 1]
      ensures Valid() && Now() == BeginAt(g, old(Now()))
    {
      Store(lastSize, Header(0, 0));
      msg := Some(Spot(|buffers| - 1, lastSize));
      position := g.H;
    }

    /** `builderBegin` */
    method Begin() returns (ghost memory: seq<Cell>)
      requires Valid() && lastSize <= g.D && msg.None?
      modifies this, buffers[|buffers| - 1]
      ensures Valid() && |memory| == g.D && Now() == QueueRuns.Begin(g, limit, old(Now()), memory).q
    {
      hide GoOn, Relocate, BeginAt;
      size, position := 0, 0;
      memory := seq(g.D, _ => Byte(0));
      if lastSize + g.H >= g.D {
        var ok;
        ok, memory := Rotate();
      }
      PlaceHeader();
    }

    /** The byte goes to the current position. */
    method PutByte(b: int)
      requires Valid() && lastSize + position < g.D
      modifies this`position, buffers[|buffers| - 1]
      ensures Valid() && position == old(position) + 1 && Now() == Put(old(Now()), b)
    {
      Store(lastSize + position, Byte(b));
      position := position + 1;
    }

    /** `append` and `builderShift` */
    method Append(b: int) returns (ok: bool, ghost memory: seq<Cell>)
      requires Valid() && Roomy(g, Now())
      modifies this, buffers[|buffers| - 1]
      ensures Valid() && |memory| == g.D
      ensures var o := QueueRuns.Append(g, limit, old(Now()), b, memory); Now() == o.q && ok == o.Done?
      ensures buffers == old(buffers) || fresh(buffers[|buffers| - 1])
    {
      hide GoOn, Relocate, ChunkList;
      PutByte(b);
      ok, memory := true, seq(g.D, _ => Byte(0));
      if lastSize + position >= g.D {
        ok, memory := Rotate();
      }
    }

    /** `appendArr`: one copy when the string fits, otherwise byte by byte. It ends early, after
        `n` bytes, when one of them fails. */
    method AppendArr(str: seq<int>) returns (ok: bool, ghost n: nat, ghost memories: seq<seq<Cell>>)
      requires Valid() && Roomy(g, Now())
      modifies this, buffers[|buffers| - 1]
      ensures Valid() && n <= |str| && |memories| == n && AllReady(g, old(Now()), memories)
      ensures var o := AppendAll(g, limit, old(Now()), str[..n], memories); Now() == o.q && ok == o.Done?
      ensures ok ==> n == |str|
    {
      hide AppendAll, QueueRuns.Append, PutAll;
      if lastSize + position + |str| < g.D {
        CopyIn(str);
        ok, n, memories := true, |str|, seq(|str|, _ => seq(g.D, _ => Byte(0)));
        FastAppendIsAppend(g, limit, old(Now()), str, memories);
        assert str[..n] == str;
      } else {
        ok, n, memories := AppendEach(str);
      }
    }

    /** The fast path: `memcpy` into the last chunk. */
    method CopyIn(str: seq<int>)
      requires Valid() && lastSize + position + |str| < g.D
      modifies this`position, buffers[|buffers| - 1]
      ensures Valid() && Now() == PutAll(old(Now()), str)
    {
      CopyBytes(buffers[|buffers| - 1], lastSize + position, str);
      position := position + |str|;
    }

    /** The slow path. */
    method AppendEach(str: seq<int>) returns (ok: bool, ghost n: nat, ghost memories: seq<seq<Cell>>)
      requires Valid() && Roomy(g, Now())
      modifies this, buffers[|buffers| - 1]
      ensures Valid() && n <= |str| && |memories| == n && AllReady(g, old(Now()), memories)
      ensures var o := AppendAll(g, limit, old(Now()), str[..n], memories); Now() == o.q && ok == o.Done?
      ensures ok ==> n == |str|
    {
      hide QueueRuns.Append, AppendAll, ChunkList;
      ok, n, memories := true, 0, [];
      AppendNone(g, limit, Now());
      var i := 0;
      while i < |str| && ok
        invariant Valid() && i == n <= |str| && |memories| == n && AllReady(g, old(Now()), memories)
        invariant var o := AppendAll(g, limit, old(Now()), str[..n], memories); Now() == o.q && ok == o.Done?
        invariant buffers[|buffers| - 1] == old(buffers[|buffers| - 1]) || fresh(buffers[|buffers| - 1])
      {
        ghost var memory;
        ok, memory := Append(str[i]);
        AppendOneMore(g, limit, old(Now()), str[..i], memories, str[i], memory);
        i, n, memories := i + 1, n + 1, memories + [memory];
        assert str[..n] == str[..n - 1] + [str[n - 1]];
      }
    }

    /** `memcpy` out of a chunk. */
    method CopyOut(c: nat, from: nat, to: nat) returns (r: seq<Cell>)
      requires Valid() && c < |buffers| && from <= to <= g.D
      ensures r == Now().chunks[c].data[from..to]
    {
      r := buffers[c][from..to];
    }

    /** The header of the message gets its size and the number of the last chunk. */
    method SetHeader(at: Spot, n: nat)
      requires Valid() && at.c < |buffers| && at.off < g.D && buffers[at.c][at.off].Header?
      modifies buffers[at.c]
      ensures Valid() && Now() == Sized(old(Now()), at, n)
    {
      buffers[at.c][at.off] := buffers[at.c][at.off].(size := n, queueId := |buffers| - 1);
    }

    /** The first message that ends in a chunk is where a reader may start there. */
    method SetStart()
      requires Valid()
      modifies this`start
      ensures Valid() && Now() == Started(old(Now()))
    {
      var last := |buffers| - 1;
      if start[last] == UNDEFINED {
        start := start[last := confirmed[last]];
      }
    }

    /** A message with bytes is finished. */
    method FinishMessage()
      requires Valid() && HasHeader(g, Now()) && size + position != g.H
      modifies this, buffers[msg.value.c]
      ensures Valid() && Now() == Finish(g, old(Now()))
    {
      hide ChunkList, Confirmed, Sized, Started, Finish, Padded;
      var at, n, padded := msg.value, size + position, Padded(position);
      SetHeader(at, n - g.H);
      Fields(lastSize + padded, padded, n, None);
      Confirm(padded);
      SetStart();
      FinishInSteps(g, old(Now()));
    }

    /** `builderCommit` */
    method Commit() returns (ok: bool)
      requires Valid() && HasHeader(g, Now())
      modifies this, buffers[msg.value.c]
      ensures Valid() && var o := QueueRuns.Commit(g, old(Now())); Now() == o.q && ok == o.Done?
    {
      hide ChunkList, Finish;
      if size + position == g.H {
        Fields(lastSize, position, size + position, msg);
        return false;
      }
      FinishMessage();
      ok := true;
    }
  }

  lemma InOnePart(g: Geometry, off: nat, n: nat)
    requires g.Valid() && off % 8 == 0
    ensures off + Round8(n) <= g.D <==> off + n <= g.D
    ensures Round8(off + n) == off + Round8(n)
  {
    var k, q, d := off / 8, (n + 7) / 8, g.D / 8;
    assert (off + n + 7) / 8 == k + q;
    if off + n <= g.D {
      assert k + q <= d;
    }
  }

  /** What is read from one chunk, and what is left for the next ones. */
  lemma SpanStep(g: Geometry, chunks: seq<Chunk>, c: nat, off: nat, n: nat)
    requires g.Valid() && off < g.D && Fits(g, chunks, c, off, n)
    ensures c < |chunks| && |chunks[c].data| == g.D
    ensures off + n <= g.D ==>
              Span(g, chunks, c, off, n) == chunks[c].data[off..off + n] && EndOf(g, c, off, n) == Spot(c, Round8(off + n))
    ensures off + n > g.D ==>
              && Fits(g, chunks, c + 1, 0, n - (g.D - off))
              && Span(g, chunks, c, off, n) == chunks[c].data[off..g.D] + Span(g, chunks, c + 1, 0, n - (g.D - off))
              && EndOf(g, c, off, n) == EndOf(g, c + 1, 0, n - (g.D - off))
  {
  }

  /** A reader at `s`, with `left` bytes to go, has read `data` of the message `whole`. */
  ghost predicate Reading(g: Geometry, chunks: seq<Chunk>, s: Spot, left: nat, data: seq<Cell>, whole: seq<Cell>, end: Spot) {
    if left == 0 then data == whole && s == end
    else
      && s.off < g.D && s.off % 8 == 0 && Fits(g, chunks, s.c, s.off, left)
      && whole == data + Span(g, chunks, s.c, s.off, left) && end == EndOf(g, s.c, s.off, left)
  }

  /** The rest of this chunk, or all that is left of the message, is read. */
  lemma ReadOn(g: Geometry, chunks: seq<Chunk>, s: Spot, left: nat, data: seq<Cell>, whole: seq<Cell>, end: Spot)
    requires g.Valid() && Reading(g, chunks, s, left, data, whole, end) && left > 0
    ensures s.c < |chunks| && |chunks[s.c].data| == g.D && s.off < g.D
    ensures left > g.D - s.off ==>
              Reading(g, chunks, Spot(s.c + 1, 0), left - (g.D - s.off), data + chunks[s.c].data[s.off..g.D], whole, end)
    ensures left <= g.D - s.off ==>
              Reading(g, chunks, Spot(s.c, s.off + Round8(left)), 0, data + chunks[s.c].data[s.off..s.off + left], whole, end)
  {
    hide Fits, Span, EndOf, Round8;
    SpanStep(g, chunks, s.c, s.off, left);
    InOnePart(g, s.off, left);
  }

  lemma ReadNone(g: Geometry, chunks: seq<Chunk>, c: nat, off: nat, n: nat)
    requires n > 0 && off < g.D && off % 8 == 0 && Fits(g, chunks, c, off, n)
    ensures Reading(g, chunks, Spot(c, off), n, [], Span(g, chunks, c, off, n), EndOf(g, c, off, n))
  {
  }

  lemma ReadAll(g: Geometry, chunks: seq<Chunk>, s: Spot, data: seq<Cell>, whole: seq<Cell>, end: Spot)
    requires Reading(g, chunks, s, 0, data, whole, end)
    ensures data == whole && s == end
  {
  }

  /** What a reader finds where it looks for a header. */
  ghost predicate HeaderAt(g: Geometry, chunks: seq<Chunk>, s: Spot) {
    && s.c < |chunks|
    && (s.off + g.H < chunks[s.c].confirmed ==>
          && s.off < |chunks[s.c].data| && chunks[s.c].data[s.off].Header?
          && (chunks[s.c].data[s.off].size > 0 ==>
                && Available(g, chunks, s) && s.off % 8 == 0 && s.off + g.H < g.D
                && (s.off + g.H + chunks[s.c].data[s.off].size > g.D ==> chunks[s.c].confirmed == g.D)))
  }

  ghost function SizeAt(g: Geometry, chunks: seq<Chunk>, s: Spot): nat
    requires HeaderAt(g, chunks, s)
  {
    if s.off + g.H < chunks[s.c].confirmed then chunks[s.c].data[s.off].size else 0
  }

  lemma WhatIsNext(g: Geometry, chunks: seq<Chunk>, from: Spot)
    requires HeaderAt(g, chunks, Settle(chunks, from))
    ensures var s := Settle(chunks, from);
            var n := SizeAt(g, chunks, s);
            && s.c < |chunks|
            && (n == 0 ==> NextMessage(g, chunks, from) == None && NextSpot(g, chunks, from) == s)
            && (n > 0 ==>
                  && s.off % 8 == 0 && s.off + g.H < g.D && Fits(g, chunks, s.c, s.off + g.H, n)
                  && (s.off + g.H + n > g.D ==> chunks[s.c].confirmed == g.D)
                  && NextMessage(g, chunks, from) == Some(Plain(Span(g, chunks, s.c, s.off + g.H, n)))
                  && NextSpot(g, chunks, from) == EndOf(g, s.c, s.off + g.H, n))
  {
    hide Fits, Span, EndOf, Settle;
  }

  lemma FindsHeader(g: Geometry, chunks: seq<Chunk>, from: Spot, placed: seq<Placement>, end: Spot)
    requires g.Valid() && Chain(g, chunks, from, placed, end, end) && Frontier(g, chunks, end)
    ensures from.c < |chunks| && HeaderAt(g, chunks, Settle(chunks, from))
  {
    if placed != [] {
      ConfirmedBeyond(g, chunks, end, placed[0]);
    }
  }

  /** The writer thread: it stands at `oldSize` in chunk `current`. */
  class Writer {
    const builder: Builder
    var current: nat
    var oldSize: nat

    constructor (builder: Builder)
      ensures this.builder == builder && current == 0 == oldSize
    {
      this.builder, current, oldSize := builder, 0, 0;
    }

    ghost function At(): Spot
      reads this
    {
      Spot(current, oldSize)
    }

    /** `size` bytes from `off` in chunk `c` on, over several chunks, the first of which ends at
        `newSize`. */
    method Merge(c: nat, off: nat, size: nat, newSize: nat) returns (data: seq<Cell>, c': nat, off': nat)
      requires builder.Valid() && off < builder.g.D == newSize && off % 8 == 0 && size > 0
      requires Fits(builder.g, builder.Now().chunks, c, off, size)
      ensures data == Span(builder.g, builder.Now().chunks, c, off, size)
      ensures Spot(c', off') == EndOf(builder.g, c, off, size)
    {
      hide Fits, Span, EndOf, ChunkList, Round8, Reading;
      ghost var g, chunks := builder.g, builder.Now().chunks;
      ghost var whole, end := Span(g, chunks, c, off, size), EndOf(g, c, off, size);
      var copied := 0;
      data, c', off' := [], c, off;
      ReadNone(g, chunks, c, off, size);
      while size > copied
        invariant copied <= size && Reading(g, chunks, Spot(c', off'), size - copied, data, whole, end)
      {
        ReadOn(g, chunks, Spot(c', off'), size - copied, data, whole, end);
        var toCopy := size - copied;
        if toCopy > newSize - off' {
          toCopy := newSize - off';
          var part := builder.CopyOut(c', off', off' + toCopy);
          data := data + part;
          c', off' := c' + 1, 0;
        } else {
          var part := builder.CopyOut(c', off', off' + toCopy);
          data := data + part;
          off' := off' + Round8(toCopy);
        }
        copied := copied + toCopy;
      }
      ReadAll(g, chunks, Spot(c', off'), data, whole, end);
    }

    /** At the end of the confirmed part of a chunk the writer goes on with the next one. */
    method NextBuffer()
      requires builder.Valid() && current < |builder.buffers|
      modifies this
      ensures At() == Settle(builder.Now().chunks, old(At()))
    {
      if current + 1 < |builder.buffers| && builder.confirmed[current] == oldSize {
        current := current + 1;
        oldSize := 0;
      }
    }

    /** The message behind a header, in one part or merged. */
    method Fetch(c: nat, off: nat, size: nat, newSize: nat) returns (data: seq<Cell>, c': nat, off': nat)
      requires builder.Valid() && off % 8 == 0 && off < builder.g.D && size > 0
      requires off + size > builder.g.D ==> newSize == builder.g.D
      requires Fits(builder.g, builder.Now().chunks, c, off, size)
      ensures data == Span(builder.g, builder.Now().chunks, c, off, size)
      ensures Spot(c', off') == EndOf(builder.g, c, off, size)
    {
      hide Fits, Span, EndOf, ChunkList, Round8;
      InOnePart(builder.g, off, size);
      SpanStep(builder.g, builder.Now().chunks, c, off, size);
      if off + Round8(size) <= builder.g.D {
        data := builder.CopyOut(c, off, off + size);
        c', off' := c, off + Round8(size);
      } else {
        data, c', off' := Merge(c, off, size, newSize);
      }
    }

    /** The size of a finished message at the writer's position, 0 if there is none. */
    method Look() returns (size: nat)
      requires builder.Valid() && HeaderAt(builder.g, builder.Now().chunks, At())
      ensures size == SizeAt(builder.g, builder.Now().chunks, At())
    {
      hide Available;
      size := 0;
      if builder.confirmed[current] > oldSize + builder.g.H {
        size := builder.buffers[current][oldSize].size;
      }
    }

    /** One attempt to get the next message. */
    method Poll(ghost placed: seq<Placement>, ghost end: Spot) returns (m: Option<seq<int>>)
      requires builder.Valid() && Frontier(builder.g, builder.Now().chunks, end)
      requires Chain(builder.g, builder.Now().chunks, At(), placed, end, end)
      modifies this
      ensures m == NextMessage(builder.g, builder.Now().chunks, old(At()))
      ensures At() == NextSpot(builder.g, builder.Now().chunks, old(At()))
    {
      hide Chain, Frontier, Settle, Fits, Span, EndOf, NextMessage, NextSpot, HeaderAt, SizeAt;
      ghost var g, chunks := builder.g, builder.Now().chunks;
      FindsHeader(g, chunks, At(), placed, end);
      WhatIsNext(g, chunks, At());
      NextBuffer();
      var newSize := builder.confirmed[current];
      var size := Look();
      if size == 0 {
        return None;
      }
      var data;
      data, current, oldSize := Fetch(current, oldSize + builder.g.H, size, newSize);
      m := Some(Plain(data));
    }
  }
}
