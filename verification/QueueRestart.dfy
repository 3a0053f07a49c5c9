/** Restarting the reader: after a lost connection it goes back to the `start` of its chunk. */
module QueueRestart {
  import opened Basics
  import opened QueueLayout
  import opened QueueSteps
  import opened QueueRuns

  const FRONT := Spot(0, 0)

  /** What a finished message adds. */
  function Finished(r: Run, e: Event, current: Option<seq<int>>): seq<Placement> {
    if e.End? && current.Some? && current.value != [] && r.q.msg.Some? then [Placement(r.q.msg.value, current.value)] else []
  }

  /** A step of the builder keeps what any reader has ahead of it. */
  lemma BuilderHolds(g: Geometry, limit: nat, r: Run, e: Event, from: Spot, placed: seq<Placement>, current: Option<seq<int>>)
    requires Holds(g, r.(from := from), placed, current) && Possible(g, r, e) && (e.Start? || e.Add? || e.End?)
    ensures Holds(g, Next(g, limit, r, e).(from := from), placed + Finished(r, e, current), Record(Log([], current), e).current)
  {
    hide Chain, Open, Begin, Append, Commit;
    assert placed + [] == placed;
    match e {
      case Start(memory) => BeginHolds(g, limit, r.q, from, placed, memory);
      case Add(b, memory) => AppendHolds(g, limit, r.q, from, placed, current.value, b, memory);
      case End => CommitHolds(g, r.q, from, placed, current.value);
    }
  }

  /** A reader that starts at the `start` of chunk `c` has the messages from number `k` on ahead of it;
      of the messages that begin in the chunk it misses at most one, at the very front, and none if
      `start` is 0. */
  ghost predicate StartsAt(g: Geometry, r: Run, all: seq<Placement>, current: Option<seq<int>>, c: nat, k: nat) {
    && c < |r.q.chunks| && r.q.chunks[c].start >= 0 && k <= |all|
    && Holds(g, r.(from := Spot(c, r.q.chunks[c].start)), all[k..], current)
    && (forall i :: 0 <= i < k ==> all[i].at.c < c || all[i].at == Spot(c, 0))
    && (r.q.chunks[c].start == 0 ==> forall i :: 0 <= i < k ==> all[i].at.c < c)
  }

  ghost predicate Marked(g: Geometry, r: Run, all: seq<Placement>, current: Option<seq<int>>) {
    && r.q.chunks != [] && (r.q.chunks[Last(r.q)].start == UNDEFINED ==> r.q.lastSize == 0)
    && forall c :: 0 <= c < |r.q.chunks| && r.q.chunks[c].start != UNDEFINED ==> exists k :: StartsAt(g, r, all, current, c, k)
  }

  lemma FreshMarked(g: Geometry, memory: seq<Cell>)
    requires g.Valid() && |memory| == g.D
    ensures Marked(g, Fresh(memory), [], None) && Holds(g, Fresh(memory), [], None)
  {
    FreshFaithful(g, memory);
    assert StartsAt(g, Fresh(memory), [], None, 0, 0);
  }

  /** A chunk that has its `start` keeps it, and what lies behind it. */
  lemma StartStays(g: Geometry, limit: nat, r: Run, e: Event, all: seq<Placement>, current: Option<seq<int>>, c: nat, k: nat)
    requires StartsAt(g, r, all, current, c, k) && Possible(g, r, e) && (e.Start? || e.Add? || e.End?)
    requires |r.q.chunks| <= |Next(g, limit, r, e).q.chunks| && Next(g, limit, r, e).q.chunks[c].start == r.q.chunks[c].start
    ensures StartsAt(g, Next(g, limit, r, e), all + Finished(r, e, current), Record(Log([], current), e).current, c, k)
  {
    hide Holds, Possible, Next;
    BuilderHolds(g, limit, r, e, Spot(c, r.q.chunks[c].start), all[k..], current);
    assert all[k..] + Finished(r, e, current) == (all + Finished(r, e, current))[k..];
  }

  lemma {:induction false} ChainInside(g: Geometry, chunks: seq<Chunk>, from: Spot, placed: seq<Placement>, to: Spot, last: Spot, i: nat)
    requires g.Valid() && Chain(g, chunks, from, placed, to, last) && i < |placed|
    ensures placed[i].at.c < last.c || (placed[i].at.c == last.c && placed[i].at.off < last.off)
    decreases |placed|
  {
    StartsInside(g, chunks, last, placed[0]);
    if i > 0 {
      ChainInside(g, chunks, After(g, placed[0]), placed[1..], to, last, i - 1);
    }
  }

  /** What a step does to the `start` of the chunks. */
  lemma StepStarts(g: Geometry, limit: nat, r: Run, e: Event, all: seq<Placement>, current: Option<seq<int>>)
    requires Holds(g, r.(from := FRONT), all, current) && Possible(g, r, e) && (e.Start? || e.Add? || e.End?)
    requires r.q.chunks[Last(r.q)].start == UNDEFINED ==> r.q.lastSize == 0
    ensures var r' := Next(g, limit, r, e);
            var q, q' := r.q, r'.q;
            && |q.chunks| <= |q'.chunks| <= |q.chunks| + 1 && q'.chunks != []
            && (q'.chunks[Last(q')].start == UNDEFINED ==> q'.lastSize == 0)
            && (forall c :: 0 <= c < Last(q) ==> q'.chunks[c].start == q.chunks[c].start)
            && (q.chunks[Last(q)].start != UNDEFINED || !(e.End? && !r'.failed) ==> q'.chunks[Last(q)].start == q.chunks[Last(q)].start)
            && (e.End? && !r'.failed && q.chunks[Last(q)].start == UNDEFINED ==> q'.chunks[Last(q)].start == q'.lastSize && Last(q') == Last(q))
            && (|q'.chunks| > |q.chunks| ==>
                  !e.End? && !r'.failed
                  && (q'.chunks[Last(q')].start == UNDEFINED || (q'.chunks[Last(q')].start == 0 && e.Add? && q'.msg == Some(Spot(Last(q'), 0)))))
  {
    hide Chain, Span, Fits, Reach;
  }

  /** A commit in a chunk without a `start` sets it behind the message: nothing is ahead yet. */
  lemma StartAfterCommit(g: Geometry, limit: nat, r: Run, all: seq<Placement>, current: Option<seq<int>>)
    requires Holds(g, r.(from := FRONT), all, current) && Possible(g, r, End) && !Next(g, limit, r, End).failed
    requires r.q.chunks[Last(r.q)].start == UNDEFINED && r.q.lastSize == 0
    ensures var r' := Next(g, limit, r, End);
            var all' := all + Finished(r, End, current);
            StartsAt(g, r', all', None, Last(r.q), |all'|)
  {
    hide Chain, Open, Commit, Next;
    var r' := Next(g, limit, r, End);
    var c := Last(r.q);
    BuilderHolds(g, limit, r, End, FRONT, all, current);
    StepStarts(g, limit, r, End, all, current);
    var all' := all + Finished(r, End, current);
    CommitFinishes(g, limit, r, all, current);
    var end := Spot(Last(r'.q), r'.q.lastSize);
    assert Chain(g, r'.q.chunks, end, [], end, end) by { ChainAtEnd(g, r'.q.chunks, end); }
    assert all'[|all'|..] == [];
    OpenAt(g, r.q, current.value);
    CommitFromFront(g, limit, r, current.value);
    forall i | 0 <= i < |all'|
      ensures all'[i].at.c < c || all'[i].at == Spot(c, 0)
      ensures r'.q.chunks[c].start == 0 ==> all'[i].at.c < c
    {
      if i < |all| {
        ChainInside(g, r.q.chunks, FRONT, all, r.q.msg.value, r.q.msg.value, i);
      }
    }
  }

  /** If the commit leaves the size of the last chunk at 0, the message began in an earlier chunk. */
  lemma CommitFromFront(g: Geometry, limit: nat, r: Run, bytes: seq<int>)
    requires Sane(g, r.q) && r.q.msg.Some? && Open(g, r.q, r.q.msg.value, bytes)
    requires Possible(g, r, End) && !Next(g, limit, r, End).failed
    ensures Next(g, limit, r, End).q.lastSize == 0 ==> r.q.msg.value.c < Last(r.q)
  {
    hide Span, Fits, Reach;
  }

  lemma ChainAtEnd(g: Geometry, chunks: seq<Chunk>, end: Spot)
    requires end.c + 1 == |chunks|
    ensures Chain(g, chunks, end, [], end, end)
  {
  }

  lemma OpenAt(g: Geometry, q: Queue, bytes: seq<int>)
    requires Sane(g, q) && q.msg.Some? && Open(g, q, q.msg.value, bytes)
    ensures q.msg.value.c < Last(q) || (q.msg.value.c == Last(q) && q.msg.value.off == q.lastSize)
  {
    hide Span, Fits, Reach;
  }

  lemma CommitFinishes(g: Geometry, limit: nat, r: Run, all: seq<Placement>, current: Option<seq<int>>)
    requires Holds(g, r.(from := FRONT), all, current) && Possible(g, r, End) && !Next(g, limit, r, End).failed
    ensures current.Some? && current.value != [] && r.q.msg.Some?
    ensures Record(Log([], current), End).current == None
  {
    hide Chain, Span, Fits, Reach;
  }

  /** A message that moves to a new chunk begins at the `start` of that chunk. */
  lemma StartAfterMove(g: Geometry, limit: nat, r: Run, e: Event, all: seq<Placement>, current: Option<seq<int>>)
    requires Holds(g, r.(from := FRONT), all, current) && Possible(g, r, e) && e.Add? && !Next(g, limit, r, e).failed
    requires var q' := Next(g, limit, r, e).q;
             |q'.chunks| == |r.q.chunks| + 1 && q'.chunks[Last(q')].start == 0 && q'.msg == Some(Spot(Last(q'), 0))
    ensures var r' := Next(g, limit, r, e);
            StartsAt(g, r', all, Record(Log([], current), e).current, Last(r'.q), |all|)
  {
    hide Chain, Open, Append, Next;
    var r' := Next(g, limit, r, e);
    var c := Last(r'.q);
    BuilderHolds(g, limit, r, e, FRONT, all, current);
    assert Chain(g, r'.q.chunks, Spot(c, 0), [], Spot(c, 0), Spot(c, 0)) by { ChainAtEnd(g, r'.q.chunks, Spot(c, 0)); }
    assert all[|all|..] == [];
    forall i | 0 <= i < |all| ensures all[i].at.c < c {
      ChainInside(g, r.q.chunks, FRONT, all, r.q.msg.value, r.q.msg.value, i);
      OpenAt(g, r.q, current.value);
    }
  }

  lemma BuilderMarked(g: Geometry, limit: nat, r: Run, e: Event, all: seq<Placement>, current: Option<seq<int>>)
    requires Marked(g, r, all, current) && Holds(g, r.(from := FRONT), all, current)
    requires Possible(g, r, e) && (e.Start? || e.Add? || e.End?)
    ensures Marked(g, Next(g, limit, r, e), all + Finished(r, e, current), Record(Log([], current), e).current)
  {
    hide Holds, Possible, Next, StartsAt;
    var r' := Next(g, limit, r, e);
    var all', current' := all + Finished(r, e, current), Record(Log([], current), e).current;
    StepStarts(g, limit, r, e, all, current);
    forall c | 0 <= c < |r'.q.chunks| && r'.q.chunks[c].start != UNDEFINED ensures exists k :: StartsAt(g, r', all', current', c, k) {
      if c < |r.q.chunks| && r.q.chunks[c].start != UNDEFINED {
        var k :| StartsAt(g, r, all, current, c, k);
        StartStays(g, limit, r, e, all, current, c, k);
      } else if e.End? {
        StartAfterCommit(g, limit, r, all, current);
        CommitFinishes(g, limit, r, all, current);
      } else {
        StartAfterMove(g, limit, r, e, all, current);
        assert all' == all;
      }
    }
  }

  // ------------------------------------------------------------ every run

  lemma {:induction false} RunMarked(g: Geometry, limit: nat, r: Run, events: seq<Event>, all: seq<Placement>, log: Log)
    returns (all': seq<Placement>)
    requires PossibleRun(g, limit, r, events) && Contents(all) == log.messages
    requires Marked(g, r, all, log.current) && Holds(g, r.(from := FRONT), all, log.current)
    ensures var r', log' := Outcomes(g, limit, r, events), Recorded(log, events);
            && Contents(all') == log'.messages
            && Marked(g, r', all', log'.current) && Holds(g, r'.(from := FRONT), all', log'.current)
    decreases |events|
  {
    hide Marked, Holds, Possible, Next;
    all' := all;
    if events != [] {
      var e := events[0];
      var r', log' := Next(g, limit, r, e), Record(log, e);
      if e.Read? || e.Confirm? {
        ReaderChangesNothing(g, limit, r, e, all, log.current);
      } else {
        BuilderMarked(g, limit, r, e, all, log.current);
        BuilderHolds(g, limit, r, e, FRONT, all, log.current);
        RecordFinishes(g, r, e, all, log);
        all' := all + Finished(r, e, log.current);
      }
      all' := RunMarked(g, limit, r', events[1..], all', log');
    }
  }

  lemma RecordFinishes(g: Geometry, r: Run, e: Event, all: seq<Placement>, log: Log)
    requires Holds(g, r.(from := FRONT), all, log.current) && Possible(g, r, e) && Contents(all) == log.messages
    ensures Record(log, e) == Log(Contents(all + Finished(r, e, log.current)), Record(Log([], log.current), e).current)
  {
    hide Chain, Open;
    var more := Finished(r, e, log.current);
    assert Contents(all + more) == Contents(all) + Contents(more);
    if e.End? && log.current.Some? && log.current.value != [] {
      assert Contents(more) == [log.current.value];
    } else {
      assert Contents(more) == [];
    }
  }

  /** The marks do not depend on where the reader is. */
  lemma ReaderChangesNothing(g: Geometry, limit: nat, r: Run, e: Event, all: seq<Placement>, current: Option<seq<int>>)
    requires Marked(g, r, all, current) && Holds(g, r.(from := FRONT), all, current) && (e.Read? || e.Confirm?)
    ensures var r' := Next(g, limit, r, e); Marked(g, r', all, current) && Holds(g, r'.(from := FRONT), all, current)
  {
    hide Chain, Open;
    var r' := Next(g, limit, r, e);
    assert r'.q == r.q && r'.failed == r.failed;
    forall c | 0 <= c < |r.q.chunks| && r.q.chunks[c].start != UNDEFINED ensures exists k :: StartsAt(g, r', all, current, c, k) {
      var k :| StartsAt(g, r, all, current, c, k);
      assert StartsAt(g, r', all, current, c, k);
    }
  }

  /** A reader at `from` receives exactly these messages. */
  ghost predicate Delivers(g: Geometry, chunks: seq<Chunk>, from: Spot, messages: seq<seq<int>>)
    decreases |messages|
  {
    if messages == [] then NextMessage(g, chunks, from) == None
    else NextMessage(g, chunks, from) == Some(messages[0]) && Delivers(g, chunks, NextSpot(g, chunks, from), messages[1..])
  }

  lemma {:induction false} ChainDelivers(g: Geometry, chunks: seq<Chunk>, from: Spot, placed: seq<Placement>, end: Spot)
    requires g.Valid() && Chain(g, chunks, from, placed, end, end) && Frontier(g, chunks, end)
    ensures Delivers(g, chunks, from, Contents(placed))
    decreases |placed|
  {
    hide Chain, NextMessage, NextSpot, Frontier;
    if placed == [] {
      ReadsNothing(g, chunks, from, end);
    } else {
      ReadsFirst(g, chunks, from, placed, end);
      ChainDelivers(g, chunks, NextSpot(g, chunks, from), placed[1..], end);
      assert Contents(placed)[1..] == Contents(placed[1..]);
    }
  }

  lemma {:induction false} EndOfAhead(g: Geometry, c: nat, off: nat, n: nat)
    requires off < g.D
    ensures var e := EndOf(g, c, off, n); e.c > c || (e.c == c && e.off >= off + n)
    decreases n
  {
    if off + n > g.D {
      EndOfAhead(g, c + 1, 0, n - (g.D - off));
    }
  }

  /** The messages that follow a spot begin there or further on. */
  lemma {:induction false} ChainOnwards(g: Geometry, chunks: seq<Chunk>, from: Spot, placed: seq<Placement>, to: Spot, last: Spot, i: nat)
    requires g.Valid() && Chain(g, chunks, from, placed, to, last) && i < |placed|
    ensures placed[i].at.c > from.c || (placed[i].at.c == from.c && placed[i].at.off >= from.off)
    decreases |placed|
  {
    if i > 0 {
      var m := placed[0];
      EndOfAhead(g, m.at.c, m.at.off + g.H, |m.bytes|);
      ChainOnwards(g, chunks, After(g, m), placed[1..], to, last, i - 1);
    }
  }

  /** Exactly which messages lie behind the `start` of a chunk. */
  lemma MissedExactly(g: Geometry, r: Run, all: seq<Placement>, current: Option<seq<int>>, c: nat, k: nat)
    requires StartsAt(g, r, all, current, c, k)
    ensures forall i :: 0 <= i < |all| ==> (i < k <==> all[i].at.c < c || (r.q.chunks[c].start > 0 && all[i].at == Spot(c, 0)))
  {
    hide Chain, Holds;
    var from := Spot(c, r.q.chunks[c].start);
    HoldsFrontier(g, r.(from := from), all[k..], current);
    forall i | k <= i < |all| ensures all[i].at.c > c || (all[i].at.c == c && all[i].at.off >= from.off) {
      ChainOnwards(g, r.q.chunks, from, all[k..], EndSpot(r), EndSpot(r), i - k);
    }
  }

  /** In every run, at every chunk that has a `start`, a reader that restarts there receives the
      finished messages from number `k` on, with none left out after it. What it does not receive
      again are the messages that begin in earlier chunks, and the one that begins at the front of
      the chunk, if there is one and `start` is not 0. */
  lemma RestartDelivers(g: Geometry, limit: nat, memory: seq<Cell>, events: seq<Event>, c: nat)
    returns (all: seq<Placement>, k: nat)
    requires g.Valid() && |memory| == g.D && PossibleRun(g, limit, Fresh(memory), events)
    requires var q := Outcomes(g, limit, Fresh(memory), events).q; c < |q.chunks| && q.chunks[c].start != UNDEFINED
    ensures var r := Outcomes(g, limit, Fresh(memory), events);
            var sent := Recorded(NO_MESSAGES, events).messages;
            && Contents(all) == sent && Chain(g, r.q.chunks, FRONT, all, EndSpot(r), EndSpot(r))
            && k <= |sent| && r.q.chunks[c].start >= 0
            && Delivers(g, r.q.chunks, Spot(c, r.q.chunks[c].start), sent[k..])
            && forall i :: 0 <= i < |all| ==> (i < k <==> all[i].at.c < c || (r.q.chunks[c].start > 0 && all[i].at == Spot(c, 0)))
  {
    hide Outcomes, Recorded, Holds, Chain, Delivers;
    FreshMarked(g, memory);
    var r0 := Fresh(memory);
    assert r0.(from := FRONT) == r0;
    all := RunMarked(g, limit, r0, events, [], NO_MESSAGES);
    var r, log := Outcomes(g, limit, r0, events), Recorded(NO_MESSAGES, events);
    k :| StartsAt(g, r, all, log.current, c, k);
    var from := Spot(c, r.q.chunks[c].start);
    HoldsFrontier(g, r.(from := FRONT), all, log.current);
    HoldsFrontier(g, r.(from := from), all[k..], log.current);
    ChainDelivers(g, r.q.chunks, from, all[k..], EndSpot(r));
    assert Contents(all[k..]) == Contents(all)[k..];
    MissedExactly(g, r, all, log.current, c, k);
  }
}
