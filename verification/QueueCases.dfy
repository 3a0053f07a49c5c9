/** Two runs of the output queue, for every chunk size: one in which the chunk under the reader is
    released, and one in which a reader that restarts does not receive a message of its chunk. */
module QueueCases {
  import opened Basics
  import opened Arithmetic
  import opened QueueLayout
  import opened QueueSteps
  import opened QueueRuns
  import opened QueueRelease
  import opened QueueRestart

  /** The events are possible one after the other and lead to `r'`. */
  predicate Leads(g: Geometry, limit: nat, r: Run, events: seq<Event>, r': Run) {
    PossibleRun(g, limit, r, events) && Outcomes(g, limit, r, events) == r'
  }

  lemma LeadsFirst(g: Geometry, limit: nat, r: Run, e: Event, events: seq<Event>, r': Run)
    requires Possible(g, r, e) && Leads(g, limit, Next(g, limit, r, e), events, r')
    ensures Leads(g, limit, r, [e] + events, r')
  {
    hide Possible, Next;
    assert ([e] + events)[1..] == events;
  }

  lemma LeadsNowhere(g: Geometry, limit: nat, r: Run)
    ensures Leads(g, limit, r, [], r)
  {
  }

  function Adds(n: nat, memory: seq<Cell>): seq<Event> {
    if n == 0 then [] else [Add(0, memory)] + Adds(n - 1, memory)
  }

  function Zeros(n: nat): seq<int> {
    seq(n, _ => 0)
  }

  lemma {:induction false} AddsRecorded(log: Log, n: nat, memory: seq<Cell>, events: seq<Event>)
    requires log.current.Some?
    ensures Recorded(log, Adds(n, memory) + events) == Recorded(log.(current := Some(log.current.value + Zeros(n))), events)
    decreases n
  {
    if n == 0 {
      assert Adds(n, memory) + events == events && log.current.value + Zeros(n) == log.current.value;
    } else {
      var rest := Adds(n - 1, memory) + events;
      assert Adds(n, memory) + events == [Add(0, memory)] + rest && ([Add(0, memory)] + rest)[1..] == rest;
      AddsRecorded(Record(log, Add(0, memory)), n - 1, memory, events);
      assert log.current.value + [0] + Zeros(n - 1) == log.current.value + Zeros(n);
    }
  }

  lemma FirstRecorded(log: Log, e: Event, events: seq<Event>)
    ensures Recorded(log, [e] + events) == Recorded(Record(log, e), events)
  {
    assert ([e] + events)[1..] == events;
  }

  /** The last chunk holds an unfinished message alone. */
  predicate InOneChunk(g: Geometry, r: Run, position: nat) {
    && !r.failed && r.q.chunks != [] && 0 < g.D == |r.q.chunks[Last(r.q)].data|
    && r.q.lastSize == 0 && r.q.position == position && r.q.size == 0
    && r.q.msg == Some(Spot(Last(r.q), 0)) && r.q.chunks[Last(r.q)].data[0].Header?
    && r.q.chunks[Last(r.q)].confirmed == 0
  }

  /** Nothing but the last chunk, its data and the position differs. */
  predicate OnlyFilled(q: Queue, q': Queue) {
    && q.chunks != [] && |q'.chunks| == |q.chunks|
    && q' == q.(chunks := q'.chunks, position := q'.position)
    && q'.chunks == q.chunks[Last(q) := q.chunks[Last(q)].(data := q'.chunks[Last(q)].data)]
  }

  lemma OneAdded(g: Geometry, limit: nat, r: Run, position: nat, memory: seq<Cell>)
    requires g.Valid() && |memory| == g.D && InOneChunk(g, r, position) && g.H <= position && position + 1 < g.D
    ensures Possible(g, r, Add(0, memory))
    ensures var r' := Next(g, limit, r, Add(0, memory));
            r' == r.(q := r'.q) && InOneChunk(g, r', position + 1) && OnlyFilled(r.q, r'.q)
  {
  }

  lemma {:induction false} AddsLead(g: Geometry, limit: nat, r: Run, position: nat, n: nat, memory: seq<Cell>) returns (r': Run)
    requires g.Valid() && |memory| == g.D && InOneChunk(g, r, position) && g.H <= position && position + n < g.D
    ensures r' == r.(q := r'.q) && InOneChunk(g, r', position + n) && OnlyFilled(r.q, r'.q)
    ensures forall events, end :: Leads(g, limit, r', events, end) ==> Leads(g, limit, r, Adds(n, memory) + events, end)
    decreases n
  {
    hide Leads, Next, Possible, InOneChunk;
    if n == 0 {
      r' := r;
      NothingFilled(g, r, position);
      forall events, end | Leads(g, limit, r', events, end) ensures Leads(g, limit, r, Adds(n, memory) + events, end) {
        assert Adds(n, memory) + events == events;
      }
    } else {
      var e := Add(0, memory);
      OneAdded(g, limit, r, position, memory);
      r' := AddsLead(g, limit, Next(g, limit, r, e), position + 1, n - 1, memory);
      forall events, end | Leads(g, limit, r', events, end) ensures Leads(g, limit, r, Adds(n, memory) + events, end) {
        LeadsFirst(g, limit, r, e, Adds(n - 1, memory) + events, end);
        assert Adds(n, memory) + events == [e] + (Adds(n - 1, memory) + events);
      }
    }
  }

  lemma NothingFilled(g: Geometry, r: Run, position: nat)
    requires InOneChunk(g, r, position)
    ensures OnlyFilled(r.q, r.q)
  {
  }

  /** The first message begins. */
  lemma FirstBegun(g: Geometry, limit: nat, memory: seq<Cell>)
    requires g.Valid() && |memory| == g.D
    ensures Possible(g, Fresh(memory), Start(memory))
    ensures var r := Next(g, limit, Fresh(memory), Start(memory));
            && InOneChunk(g, r, g.H) && |r.q.chunks| == 1 && r.q.chunks[0].start == 0
            && r == Fresh(memory).(q := r.q)
  {
  }

  // ------------------------------------------------------------ a released chunk

  /** One message that fills the first chunk exactly. */
  function FullChunk(g: Geometry, memory: seq<Cell>): seq<Event>
    requires g.Valid()
  {
    [Start(memory)] + (Adds(g.D - g.H - 1, memory) + ([Add(0, memory)] + ([End] + [])))
  }

  lemma LastByteGoesOn(g: Geometry, limit: nat, r: Run, memory: seq<Cell>)
    requires g.Valid() && |memory| == g.D && InOneChunk(g, r, g.D - 1)
    ensures Possible(g, r, Add(0, memory))
    ensures var r' := Next(g, limit, r, Add(0, memory));
            Possible(g, r', End) && !Next(g, limit, r', End).failed
  {
  }

  lemma FullChunkPossible(g: Geometry, limit: nat, memory: seq<Cell>)
    requires g.Valid() && |memory| == g.D
    ensures var r0 := Fresh(memory);
            && PossibleRun(g, limit, r0, FullChunk(g, memory))
            && Outcomes(g, limit, r0, FullChunk(g, memory)).from == FRONT
            && Outcomes(g, limit, r0, FullChunk(g, memory)).delivered == []
  {
    hide Next, Possible, InOneChunk;
    var r0 := Fresh(memory);
    FirstBegun(g, limit, memory);
    var r1 := Next(g, limit, r0, Start(memory));
    var r2 := AddsLead(g, limit, r1, g.H, g.D - g.H - 1, memory);
    LastByteGoesOn(g, limit, r2, memory);
    var r3 := Next(g, limit, r2, Add(0, memory));
    var r4 := Next(g, limit, r3, End);
    LeadsNowhere(g, limit, r4);
    LeadsFirst(g, limit, r3, End, [], r4);
    LeadsFirst(g, limit, r2, Add(0, memory), [End] + [], r4);
    LeadsFirst(g, limit, r0, Start(memory), Adds(g.D - g.H - 1, memory) + ([Add(0, memory)] + ([End] + [])), r4);
    BuilderLeavesReader(g, limit, r2, Add(0, memory));
    BuilderLeavesReader(g, limit, r3, End);
  }

  lemma BuilderLeavesReader(g: Geometry, limit: nat, r: Run, e: Event)
    requires Possible(g, r, e) && (e.Start? || e.Add? || e.End?)
    ensures var r' := Next(g, limit, r, e); r'.from == r.from && r'.delivered == r.delivered
  {
  }

  lemma FullChunkRecorded(g: Geometry, memory: seq<Cell>)
    requires g.Valid()
    ensures Recorded(NO_MESSAGES, FullChunk(g, memory)) == Log([Zeros(g.D - g.H)], None)
  {
    hide Recorded;
    var n := g.D - g.H - 1;
    FirstRecorded(NO_MESSAGES, Start(memory), Adds(n, memory) + ([Add(0, memory)] + ([End] + [])));
    AddsRecorded(Log([], Some([])), n, memory, [Add(0, memory)] + ([End] + []));
    assert [] + Zeros(n) == Zeros(n);
    FirstRecorded(Log([], Some(Zeros(n))), Add(0, memory), [End] + []);
    assert Zeros(n) + [0] == Zeros(n + 1);
    FirstRecorded(Log([], Some(Zeros(n + 1))), End, []);
    Ended([], Zeros(n + 1));
    NothingRecorded(Log([Zeros(n + 1)], None));
  }

  lemma Ended(messages: seq<seq<int>>, bytes: seq<int>)
    requires bytes != []
    ensures Record(Log(messages, Some(bytes)), End) == Log(messages + [bytes], None)
    ensures messages == [] ==> messages + [bytes] == [bytes]
  {
  }

  lemma NothingRecorded(log: Log)
    ensures Recorded(log, []) == log
  {
  }

  /** For every chunk size: after one message of `D - H` bytes has been read and confirmed, the chunk
      in which the reader stands is released. */
  lemma ReaderChunkIsReleased(g: Geometry, limit: nat, memory: seq<Cell>)
    requires g.Valid() && |memory| == g.D
    ensures PossibleRun(g, limit, Fresh(memory), FullChunk(g, memory))
    ensures var r := Outcomes(g, limit, Fresh(memory), FullChunk(g, memory));
            var r' := Next(g, limit, Next(g, limit, r, Read), Confirm);
            r'.from.c < r'.first
  {
    hide Outcomes, PossibleRun, Recorded, Next, Chain, FullChunk;
    var events := FullChunk(g, memory);
    FullChunkPossible(g, limit, memory);
    FullChunkRecorded(g, memory);
    FreshFaithful(g, memory);
    var placed := RunKept(g, limit, Fresh(memory), events, [], NO_MESSAGES);
    var r := Outcomes(g, limit, Fresh(memory), events);
    var log := Recorded(NO_MESSAGES, events);
    assert [] + Contents(placed) == Contents(placed) == [Zeros(g.D - g.H)];
    assert placed[0].bytes == Contents(placed)[0];
    FirstAtFront(g, r, placed, log);
    WhenReaderChunkIsReleased(g, limit, r, placed, log);
    Quotient(1, 0, g.D);
  }

  lemma FirstAtFront(g: Geometry, r: Run, placed: seq<Placement>, log: Log)
    requires Faithful(g, r, placed, log) && r.from == FRONT && placed != []
    ensures placed[0].at.off == 0
  {
    hide Open, Stored;
    HoldsFrontier(g, r, placed, log.current);
  }

  // ------------------------------------------------------------ a message that is missed

  /** A message that leaves no room for another header, and then a message of one byte. */
  function TwoMessages(g: Geometry, memory: seq<Cell>): seq<Event>
    requires g.Valid()
  {
    [Start(memory)] + (Adds(g.D - g.H - 1, memory) + ([End] + SecondMessage(memory)))
  }

  function SecondMessage(memory: seq<Cell>): seq<Event> {
    [Start(memory)] + ([Add(0, memory)] + ([End] + []))
  }

  lemma FirstEnded(g: Geometry, limit: nat, r: Run)
    requires g.Valid() && InOneChunk(g, r, g.D - 1) && |r.q.chunks| == 1 && r.q.chunks[0].start == 0
    ensures Possible(g, r, End)
    ensures var q' := Next(g, limit, r, End).q;
            && !Next(g, limit, r, End).failed && q'.lastSize == g.D && q'.msg.None?
            && |q'.chunks| == 1 && |q'.chunks[0].data| == g.D && q'.chunks[0].confirmed == g.D && q'.chunks[0].start == 0
  {
    assert Padded(g.D - 1) == g.D;
  }

  lemma SecondBegun(g: Geometry, limit: nat, r: Run, memory: seq<Cell>)
    requires g.Valid() && |memory| == g.D && !r.failed && r.q.lastSize == g.D && r.q.msg.None?
    requires |r.q.chunks| == 1 && |r.q.chunks[0].data| == g.D && r.q.chunks[0].confirmed == g.D
    ensures Possible(g, r, Start(memory))
    ensures var r' := Next(g, limit, r, Start(memory));
            && InOneChunk(g, r', g.H) && |r'.q.chunks| == 2 && r'.q.chunks[1].start == UNDEFINED
            && r'.q.chunks[0].confirmed == g.D
  {
  }

  lemma SecondEnded(g: Geometry, limit: nat, r: Run)
    requires g.Valid() && InOneChunk(g, r, g.H + 1) && |r.q.chunks| == 2 && r.q.chunks[1].start == UNDEFINED
    ensures Possible(g, r, End)
    ensures var q' := Next(g, limit, r, End).q;
            |q'.chunks| == 2 && q'.chunks[1].start > 0 && q'.chunks[0].confirmed == r.q.chunks[0].confirmed
  {
  }

  lemma TwoMessagesPossible(g: Geometry, limit: nat, memory: seq<Cell>)
    requires g.Valid() && |memory| == g.D
    ensures PossibleRun(g, limit, Fresh(memory), TwoMessages(g, memory))
    ensures var q := Outcomes(g, limit, Fresh(memory), TwoMessages(g, memory)).q;
            |q.chunks| == 2 && q.chunks[1].start > 0 && q.chunks[0].confirmed == g.D
  {
    hide Next, Possible, InOneChunk;
    var r0 := Fresh(memory);
    FirstBegun(g, limit, memory);
    var r1 := Next(g, limit, r0, Start(memory));
    var r2 := AddsLead(g, limit, r1, g.H, g.D - g.H - 1, memory);
    FirstEnded(g, limit, r2);
    var r3 := Next(g, limit, r2, End);
    SecondBegun(g, limit, r3, memory);
    var r4 := Next(g, limit, r3, Start(memory));
    OneAdded(g, limit, r4, g.H, memory);
    var r5 := Next(g, limit, r4, Add(0, memory));
    SecondEnded(g, limit, r5);
    var r6 := Next(g, limit, r5, End);
    LeadsNowhere(g, limit, r6);
    LeadsFirst(g, limit, r5, End, [], r6);
    LeadsFirst(g, limit, r4, Add(0, memory), [End] + [], r6);
    LeadsFirst(g, limit, r3, Start(memory), [Add(0, memory)] + ([End] + []), r6);
    LeadsFirst(g, limit, r2, End, SecondMessage(memory), r6);
    LeadsFirst(g, limit, r0, Start(memory), Adds(g.D - g.H - 1, memory) + ([End] + SecondMessage(memory)), r6);
  }

  lemma TwoMessagesRecorded(g: Geometry, memory: seq<Cell>)
    requires g.Valid()
    ensures Recorded(NO_MESSAGES, TwoMessages(g, memory)) == Log([Zeros(g.D - g.H - 1), [0]], None)
  {
    hide Recorded;
    var n := g.D - g.H - 1;
    FirstRecorded(NO_MESSAGES, Start(memory), Adds(n, memory) + ([End] + SecondMessage(memory)));
    AddsRecorded(Log([], Some([])), n, memory, [End] + SecondMessage(memory));
    assert [] + Zeros(n) == Zeros(n);
    FirstRecorded(Log([], Some(Zeros(n))), End, SecondMessage(memory));
    Ended([], Zeros(n));
    var one := Log([Zeros(n)], None);
    FirstRecorded(one, Start(memory), [Add(0, memory)] + ([End] + []));
    FirstRecorded(one.(current := Some([])), Add(0, memory), [End] + []);
    assert [] + [0] == [0];
    FirstRecorded(one.(current := Some([0])), End, []);
    Ended([Zeros(n)], [0]);
    assert [Zeros(n)] + [[0]] == [Zeros(n), [0]];
    NothingRecorded(Log([Zeros(n), [0]], None));
  }

  lemma SecondAtFront(g: Geometry, chunks: seq<Chunk>, all: seq<Placement>, end: Spot)
    requires g.Valid() && Chain(g, chunks, FRONT, all, end, end) && |all| == 2 && |all[0].bytes| == g.D - g.H - 1
    requires |chunks| == 2 && chunks[0].confirmed == g.D
    ensures all[1].at == Spot(1, 0) && Stored(g, chunks, end, all[1])
  {
    hide Stored;
    StoredHeader(g, chunks, end, all[0]);
    assert all[0].at == FRONT;
    assert Round8(g.D - 1) == g.D;
    assert After(g, all[0]) == Spot(0, g.D);
    assert all[1..][0] == all[1];
  }

  lemma StoredHeader(g: Geometry, chunks: seq<Chunk>, last: Spot, m: Placement)
    requires Stored(g, chunks, last, m)
    ensures m.at.off + g.H < g.D
  {
  }

  /** For every chunk size: the second of two messages lies at the front of the second chunk, and a
      reader that goes back to the `start` of that chunk does not receive it. */
  lemma MessageIsMissed(g: Geometry, limit: nat, memory: seq<Cell>)
    requires g.Valid() && |memory| == g.D
    ensures PossibleRun(g, limit, Fresh(memory), TwoMessages(g, memory))
    ensures var r := Outcomes(g, limit, Fresh(memory), TwoMessages(g, memory));
            && Recorded(NO_MESSAGES, TwoMessages(g, memory)).messages == [Zeros(g.D - g.H - 1), [0]]
            && |r.q.chunks| == 2 && Stored(g, r.q.chunks, EndSpot(r), Placement(Spot(1, 0), [0]))
            && r.q.chunks[1].start > 0 && NextMessage(g, r.q.chunks, Spot(1, r.q.chunks[1].start)) == None
  {
    hide Outcomes, PossibleRun, Recorded, Chain, TwoMessages, NextMessage, Stored;
    TwoMessagesPossible(g, limit, memory);
    TwoMessagesRecorded(g, memory);
    var all, k := RestartDelivers(g, limit, memory, TwoMessages(g, memory), 1);
    var r := Outcomes(g, limit, Fresh(memory), TwoMessages(g, memory));
    assert all[0].bytes == Contents(all)[0] && all[1].bytes == Contents(all)[1];
    SecondAtFront(g, r.q.chunks, all, EndSpot(r));
    assert all[1] == Placement(Spot(1, 0), [0]) && k == 2;
  }
}
