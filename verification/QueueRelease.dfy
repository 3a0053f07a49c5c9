/** Releasing chunks of the output queue: once the client has confirmed a message, the chunks before
    the one its header names are given back. */
module QueueRelease {
  import opened Arithmetic
  import opened QueueLayout
  import opened QueueSteps
  import opened QueueRuns

  lemma {:induction false} EndOfOnwards(g: Geometry, c: nat, off: nat, n: nat)
    requires off < g.D
    ensures EndOf(g, c, off, n).c >= c
    decreases n
  {
    if off + n > g.D {
      EndOfOnwards(g, c + 1, 0, n - (g.D - off));
    }
  }

  /** What follows a reader lies where it stands or further on. */
  lemma {:induction false} ChainAhead(g: Geometry, chunks: seq<Chunk>, from: Spot, placed: seq<Placement>, to: Spot, last: Spot)
    requires g.Valid() && Chain(g, chunks, from, placed, to, last)
    ensures Settle(chunks, from).c <= to.c
    decreases |placed|
  {
    if placed != [] {
      var m := placed[0];
      EndOfOnwards(g, m.at.c, m.at.off + g.H, |m.bytes|);
      ChainAhead(g, chunks, After(g, m), placed[1..], to, last);
    }
  }

  /** Steps of the builder add chunks and leave the size of the chunks before the last one. */
  lemma BuilderKeepsSizes(g: Geometry, limit: nat, r: Run, e: Event, placed: seq<Placement>, log: Log)
    requires Faithful(g, r, placed, log) && Possible(g, r, e) && (e.Start? || e.Add? || e.End?)
    ensures var q' := Next(g, limit, r, e).q;
            && |r.q.chunks| <= |q'.chunks| && r.q.chunks != []
            && forall c :: 0 <= c < Last(r.q) ==> q'.chunks[c].confirmed == r.q.chunks[c].confirmed
  {
    hide Chain, Span, Fits, Reach;
  }

  /** The reader stands in the chunk of `read` or behind it, or at the end of the full chunk before. */
  ghost predicate Kept(g: Geometry, r: Run) {
    && r.first <= r.read < |r.q.chunks|
    && (r.from.c < r.read ==> r.from.c + 1 == r.read && r.from.off == g.D == r.q.chunks[r.from.c].confirmed)
  }

  /** A message that fills a chunk exactly leaves it full. */
  lemma {:induction false} EndIsFull(g: Geometry, chunks: seq<Chunk>, last: Spot, c: nat, off: nat, n: nat)
    requires g.Valid() && off < g.D && n > 0 && Sealed(g, chunks, last, c, off, n) && Reach(g, c, off, n).off == 0
    requires last.c < |chunks| && last.off <= chunks[last.c].confirmed
    ensures var r := Reach(g, c, off, n); 0 < r.c <= |chunks| && chunks[r.c - 1].confirmed >= g.D
    decreases n
  {
    if off + n > g.D {
      EndIsFull(g, chunks, last, c + 1, 0, n - (g.D - off));
    } else {
      assert Round8(g.D) == g.D;
    }
  }

  /** Where the reader is after a message, and the chunk number that it got from the header. */
  lemma AfterRead(g: Geometry, chunks: seq<Chunk>, from: Spot, placed: seq<Placement>, end: Spot, read: nat)
    requires g.Valid() && Chain(g, chunks, from, placed, end, end) && Frontier(g, chunks, end) && placed != []
    ensures var m := placed[0];
            && m.at.off + g.H < g.D && Settle(chunks, from) == m.at
            && var r := Reach(g, m.at.c, m.at.off + g.H, |m.bytes|);
               && NextRead(g, chunks, from, read) == r.c < |chunks|
               && (r.off > 0 ==> NextSpot(g, chunks, from) == Spot(r.c, Round8(r.off)))
               && (r.off == 0 ==> r.c > 0 && NextSpot(g, chunks, from) == Spot(r.c - 1, g.D) && chunks[r.c - 1].confirmed >= g.D)
               && m.at.c <= r.c
  {
    hide Span, Fits, EndOf, Sealed, Settle, Reach, Round8;
    var m := placed[0];
    ConfirmedBeyond(g, chunks, end, m);
    ReachEnd(g, m.at.c, m.at.off + g.H, |m.bytes|);
    if Reach(g, m.at.c, m.at.off + g.H, |m.bytes|).off == 0 {
      EndIsFull(g, chunks, end, m.at.c, m.at.off + g.H, |m.bytes|);
    }
  }

  lemma ReadKept(g: Geometry, limit: nat, r: Run, placed: seq<Placement>, log: Log)
    requires Faithful(g, r, placed, log) && Kept(g, r)
    ensures Kept(g, Next(g, limit, r, Read))
  {
    hide Chain, Open, Available, Frontier, NextMessage, NextSpot, NextRead;
    HoldsFrontier(g, r, placed, log.current);
    var end := EndSpot(r);
    if placed == [] {
      NothingRead(g, r.q.chunks, r.from, end, r.read);
    } else {
      AfterRead(g, r.q.chunks, r.from, placed, end, r.read);
      KeptAhead(g, r);
    }
  }

  lemma NothingRead(g: Geometry, chunks: seq<Chunk>, from: Spot, end: Spot, read: nat)
    requires Chain(g, chunks, from, [], end, end) && Frontier(g, chunks, end)
    ensures NextRead(g, chunks, from, read) == read && NextSpot(g, chunks, from) == Settle(chunks, from)
  {
  }

  lemma KeptAhead(g: Geometry, r: Run)
    requires Kept(g, r)
    ensures r.read <= Settle(r.q.chunks, r.from).c
  {
  }

  lemma NextKept(g: Geometry, limit: nat, r: Run, e: Event, placed: seq<Placement>, log: Log)
    requires Faithful(g, r, placed, log) && Kept(g, r) && Possible(g, r, e)
    ensures Kept(g, Next(g, limit, r, e))
  {
    match e {
      case Read => ReadKept(g, limit, r, placed, log);
      case Confirm =>
      case _ =>
        hide Faithful, Possible, Begin, Append, Commit;
        BuilderKeepsSizes(g, limit, r, e, placed, log);
    }
  }

  lemma {:induction false} RunKept(g: Geometry, limit: nat, r: Run, events: seq<Event>, placed: seq<Placement>, log: Log)
    returns (placed': seq<Placement>)
    requires Faithful(g, r, placed, log) && Kept(g, r) && PossibleRun(g, limit, r, events)
    ensures Kept(g, Outcomes(g, limit, r, events))
    ensures Faithful(g, Outcomes(g, limit, r, events), placed', Recorded(log, events))
    decreases |events|
  {
    hide Faithful, Possible, Next, Record, Kept;
    placed' := placed;
    if events != [] {
      NextKept(g, limit, r, events[0], placed, log);
      placed' := NextFaithful(g, limit, r, events[0], placed, log);
      placed' := RunKept(g, limit, Next(g, limit, r, events[0]), events[1..], placed', Record(log, events[0]));
    }
  }

  /** In every run the chunks released so far are behind everything that is still to be read or
      written; the reader itself is never more than one chunk behind, and then at its very end. */
  lemma ReleasedChunksAreDone(g: Geometry, limit: nat, memory: seq<Cell>, events: seq<Event>)
    requires g.Valid() && |memory| == g.D && PossibleRun(g, limit, Fresh(memory), events)
    ensures var r := Outcomes(g, limit, Fresh(memory), events);
            && r.first <= Settle(r.q.chunks, r.from).c <= EndSpot(r).c
            && (r.q.msg.Some? ==> r.first <= r.q.msg.value.c)
            && (r.from.c < r.first ==> r.from == Spot(r.first - 1, g.D))
  {
    hide Outcomes, Recorded, Holds, Chain;
    FreshFaithful(g, memory);
    var placed := RunKept(g, limit, Fresh(memory), events, [], NO_MESSAGES);
    var r := Outcomes(g, limit, Fresh(memory), events);
    KeptAhead(g, r);
    HoldsFrontier(g, r, placed, Recorded(NO_MESSAGES, events).current);
    ChainAhead(g, r.q.chunks, r.from, placed, EndSpot(r), EndSpot(r));
  }

  /** When a message is read and confirmed at once, the chunk under the reader is released if and only
      if the message fills its last chunk to the last byte. */
  lemma WhenReaderChunkIsReleased(g: Geometry, limit: nat, r: Run, placed: seq<Placement>, log: Log)
    requires Faithful(g, r, placed, log) && Kept(g, r) && placed != []
    ensures g.Valid()
    ensures var r' := Next(g, limit, Next(g, limit, r, Read), Confirm);
            r'.from.c < r'.first <==> (placed[0].at.off + g.H + |placed[0].bytes|) % g.D == 0
  {
    hide Chain, Open, Available, Frontier, NextMessage, NextSpot, NextRead, Reach;
    HoldsFrontier(g, r, placed, log.current);
    var m := placed[0];
    AfterRead(g, r.q.chunks, r.from, placed, EndSpot(r), r.read);
    KeptAhead(g, r);
    ReachOffset(g, m.at.c, m.at.off + g.H, |m.bytes|);
  }

  /** When a message is read and confirmed at once, the chunks released are exactly those before the
      one in which the builder stood at the end of the message. */
  lemma ConfirmReleases(g: Geometry, limit: nat, r: Run, placed: seq<Placement>, log: Log)
    requires Faithful(g, r, placed, log) && Kept(g, r) && placed != []
    ensures g.Valid() && placed[0].at.off + g.H < g.D
    ensures var r' := Next(g, limit, Next(g, limit, r, Read), Confirm);
            r'.first == Reach(g, placed[0].at.c, placed[0].at.off + g.H, |placed[0].bytes|).c
  {
    hide Chain, Open, Available, Frontier, NextMessage, NextSpot, NextRead, Reach;
    HoldsFrontier(g, r, placed, log.current);
    AfterRead(g, r.q.chunks, r.from, placed, EndSpot(r), r.read);
    KeptAhead(g, r);
  }
}
