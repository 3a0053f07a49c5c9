/** Whole runs of the output queue: the builder writes messages while the writer thread reads
    them, in any interleaving of their steps. */
module QueueRuns {
  import opened Basics
  import opened Arithmetic
  import opened QueueLayout
  import opened QueueSteps

  /** What a call of the builder leaves: the queue, or the queue and an error code. */
  datatype Outcome = Done(q: Queue) | Failed(q: Queue, code: nat)

  const TOO_BIG := 10072
  const EMPTY_MESSAGE := 50058

  predicate Ready(g: Geometry, q: Queue, memory: seq<Cell>) {
    && 0 < g.H < g.D == |memory| && q.chunks != [] && |q.chunks[Last(q)].data| == g.D
  }

  // ------------------------------------------------------------ the builder

  /** `builderRotate`; `limit` is the configured size of the write buffer. */
  function Rotate(g: Geometry, limit: nat, q: Queue, memory: seq<Cell>): Outcome
    requires Ready(g, q, memory) && q.lastSize + q.position <= g.D
  {
    if q.size > limit then Failed(q, TOO_BIG)
    else if q.msg.Some? && q.size + q.position < g.D then Done(Relocate(q, memory))
    else Done(GoOn(q, memory))
  }

  /** `builderBegin` */
  function Begin(g: Geometry, limit: nat, q: Queue, memory: seq<Cell>): Outcome
    requires Ready(g, q, memory) && q.lastSize <= g.D && q.msg.None?
  {
    var q0 := q.(size := 0, position := 0);
    if q.lastSize + g.H < g.D then Done(BeginAt(g, q0))
    else Done(BeginAt(g, Rotate(g, limit, q0, memory).q))
  }

  /** `append`, with the check of `builderShift` after it. */
  function Append(g: Geometry, limit: nat, q: Queue, b: int, memory: seq<Cell>): Outcome
    requires Ready(g, q, memory) && q.lastSize + q.position < g.D
  {
    var p := Put(q, b);
    if p.lastSize + p.position >= g.D then Rotate(g, limit, p, memory) else Done(p)
  }

  /** There is room for another byte, and a message that fits in one chunk is in the last one. */
  predicate Roomy(g: Geometry, q: Queue) {
    && q.lastSize + q.position < g.D
    && (q.msg.Some? && q.size < g.D ==> q.msg == Some(Spot(if q.chunks == [] then 0 else Last(q), q.lastSize)))
  }

  lemma AppendRoomy(g: Geometry, limit: nat, q: Queue, b: int, memory: seq<Cell>)
    requires Ready(g, q, memory) && Roomy(g, q)
    ensures var o := Append(g, limit, q, b, memory); o.Done? ==> Roomy(g, o.q) && Ready(g, o.q, memory)
  {
  }

  ghost predicate AllReady(g: Geometry, q: Queue, memories: seq<seq<Cell>>) {
    && 0 < g.H < g.D && q.chunks != [] && |q.chunks[Last(q)].data| == g.D
    && forall i :: 0 <= i < |memories| ==> |memories[i]| == g.D
  }

  /** The bytes one after another, until one fails. */
  ghost function AppendAll(g: Geometry, limit: nat, q: Queue, bytes: seq<int>, memories: seq<seq<Cell>>): (o: Outcome)
    requires AllReady(g, q, memories) && Roomy(g, q) && |memories| == |bytes|
    ensures o.Done? ==> Roomy(g, o.q) && AllReady(g, o.q, memories)
    decreases |bytes|
  {
    if bytes == [] then Done(q)
    else
      var n := |bytes| - 1;
      var o := AppendAll(g, limit, q, bytes[..n], memories[..n]);
      if o.Failed? then o else AppendRoomy(g, limit, o.q, bytes[n], memories[n]); Append(g, limit, o.q, bytes[n], memories[n])
  }

  lemma AppendNone(g: Geometry, limit: nat, q: Queue)
    requires AllReady(g, q, []) && Roomy(g, q)
    ensures AppendAll(g, limit, q, [], []) == Done(q)
  {
  }

  lemma AppendOneMore(g: Geometry, limit: nat, q: Queue, bytes: seq<int>, memories: seq<seq<Cell>>, b: int, memory: seq<Cell>)
    requires AllReady(g, q, memories) && Roomy(g, q) && |memories| == |bytes| && |memory| == g.D
    requires AppendAll(g, limit, q, bytes, memories).Done?
    ensures AllReady(g, q, memories + [memory])
    ensures var o := AppendAll(g, limit, q, bytes, memories);
            AppendAll(g, limit, q, bytes + [b], memories + [memory]) == Append(g, limit, o.q, b, memory)
  {
    assert (bytes + [b])[..|bytes|] == bytes && (memories + [memory])[..|bytes|] == memories;
  }

  /** One copy for the whole string. */
  function PutAll(q: Queue, bytes: seq<int>): Queue
    requires q.chunks != [] && q.lastSize + q.position + |bytes| <= |q.chunks[Last(q)].data|
  {
    var chunk := q.chunks[Last(q)];
    var at := q.lastSize + q.position;
    q.(chunks := WithLast(q, chunk.(data := chunk.data[..at] + Cells(bytes) + chunk.data[at + |bytes|..])),
       position := q.position + |bytes|)
  }

  /** The copy of `appendArr` does what the byte by byte path would do. */
  lemma {:induction false} FastAppendIsAppend(g: Geometry, limit: nat, q: Queue, bytes: seq<int>, memories: seq<seq<Cell>>)
    requires AllReady(g, q, memories) && Roomy(g, q) && |memories| == |bytes|
    requires q.lastSize + q.position + |bytes| < g.D
    ensures AppendAll(g, limit, q, bytes, memories) == Done(PutAll(q, bytes))
    decreases |bytes|
  {
    if bytes == [] {
      assert PutAll(q, bytes).chunks == q.chunks by {
        assert PutAll(q, bytes).chunks[Last(q)].data == q.chunks[Last(q)].data;
      }
    } else {
      var n := |bytes| - 1;
      FastAppendIsAppend(g, limit, q, bytes[..n], memories[..n]);
      PutAllMore(q, bytes);
    }
  }

  lemma PutAllMore(q: Queue, bytes: seq<int>)
    requires bytes != [] && q.chunks != [] && q.lastSize + q.position + |bytes| <= |q.chunks[Last(q)].data|
    ensures Put(PutAll(q, bytes[..|bytes| - 1]), bytes[|bytes| - 1]) == PutAll(q, bytes)
  {
    var n := |bytes| - 1;
    var p := Put(PutAll(q, bytes[..n]), bytes[n]);
    assert p.chunks[Last(q)].data == PutAll(q, bytes).chunks[Last(q)].data;
    assert p.chunks == PutAll(q, bytes).chunks;
  }

  predicate HasHeader(g: Geometry, q: Queue) {
    && q.msg.Some? && q.msg.value.c < |q.chunks| && q.msg.value.off < |q.chunks[q.msg.value.c].data|
    && q.chunks[q.msg.value.c].data[q.msg.value.off].Header? && q.size + q.position >= g.H
  }

  /** `builderCommit` */
  function Commit(g: Geometry, q: Queue): Outcome
    requires HasHeader(g, q)
  {
    if q.size + q.position == g.H then Failed(q.(size := g.H), EMPTY_MESSAGE) else Done(Finish(g, q))
  }

  // ------------------------------------------------------------ the reader

  /** The writer thread finds a finished message at `s`. */
  predicate Available(g: Geometry, chunks: seq<Chunk>, s: Spot) {
    && s.c < |chunks| && s.off + g.H < |chunks[s.c].data| && s.off + g.H < chunks[s.c].confirmed
    && chunks[s.c].data[s.off].Header? && chunks[s.c].data[s.off].size > 0
    && Fits(g, chunks, s.c, s.off + g.H, chunks[s.c].data[s.off].size)
  }

  function Plain(cells: seq<Cell>): (r: seq<int>)
    ensures |r| == |cells|
  {
    seq(|cells|, i requires 0 <= i < |cells| => if cells[i].Byte? then cells[i].b else 0)
  }

  /** The message that a reader at `from` comes to. */
  function NextMessage(g: Geometry, chunks: seq<Chunk>, from: Spot): Option<seq<int>> {
    var s := Settle(chunks, from);
    if !Available(g, chunks, s) then None
    else Some(Plain(Span(g, chunks, s.c, s.off + g.H, chunks[s.c].data[s.off].size)))
  }

  /** Where the reader is after one attempt to read. */
  function NextSpot(g: Geometry, chunks: seq<Chunk>, from: Spot): Spot {
    var s := Settle(chunks, from);
    if Available(g, chunks, s) && s.off + g.H < g.D then EndOf(g, s.c, s.off + g.H, chunks[s.c].data[s.off].size) else s
  }

  /** The chunk that the builder had reached when it finished the message just read. */
  function NextRead(g: Geometry, chunks: seq<Chunk>, from: Spot, read: nat): nat {
    var s := Settle(chunks, from);
    if Available(g, chunks, s) then chunks[s.c].data[s.off].queueId else read
  }

  // ------------------------------------------------------------ runs

  datatype Event = Start(memory: seq<Cell>) | Add(b: int, memory: seq<Cell>) | End | Read | Confirm

  /** `read` is the chunk number in the header of the last message received, and `first` the first
      chunk that is not released yet; chunks keep their numbers. */
  datatype Run = Run(q: Queue, from: Spot, delivered: seq<seq<int>>, failed: bool, read: nat, first: nat)

  /** The builder begins a message only between messages, and stops at the first error. */
  predicate Possible(g: Geometry, r: Run, e: Event) {
    match e
    case Start(memory) => !r.failed && Ready(g, r.q, memory) && r.q.lastSize <= g.D && r.q.msg.None?
    case Add(_, memory) => !r.failed && Ready(g, r.q, memory) && r.q.msg.Some? && r.q.lastSize + r.q.position < g.D
    case End => !r.failed && HasHeader(g, r.q)
    case Read => true
    case Confirm => true
  }

  function WithOutcome(r: Run, o: Outcome): Run {
    r.(q := o.q, failed := o.Failed?)
  }

  function Next(g: Geometry, limit: nat, r: Run, e: Event): Run
    requires Possible(g, r, e)
  {
    match e
    case Start(memory) => WithOutcome(r, Begin(g, limit, r.q, memory))
    case Add(b, memory) => WithOutcome(r, Append(g, limit, r.q, b, memory))
    case End => WithOutcome(r, Commit(g, r.q))
    case Read =>
      var m := NextMessage(g, r.q.chunks, r.from);
      r.(from := NextSpot(g, r.q.chunks, r.from), delivered := if m.Some? then r.delivered + [m.value] else r.delivered,
         read := NextRead(g, r.q.chunks, r.from, r.read))
    case Confirm => r.(first := if r.first < r.read then r.read else r.first)
  }

  /** The queue at startup: one empty chunk. */
  function Fresh(memory: seq<Cell>): Run {
    Run(Queue([Chunk(0, 0, memory)], 0, 0, 0, None), Spot(0, 0), [], false, 0, 0)
  }

  predicate PossibleRun(g: Geometry, limit: nat, r: Run, events: seq<Event>)
    decreases |events|
  {
    events == [] || (Possible(g, r, events[0]) && PossibleRun(g, limit, Next(g, limit, r, events[0]), events[1..]))
  }

  function Outcomes(g: Geometry, limit: nat, r: Run, events: seq<Event>): Run
    requires PossibleRun(g, limit, r, events)
    decreases |events|
  {
    if events == [] then r else Outcomes(g, limit, Next(g, limit, r, events[0]), events[1..])
  }

  /** The plain meaning of the builder's calls, without chunks, headers or padding. */
  datatype Log = Log(messages: seq<seq<int>>, current: Option<seq<int>>)

  function Record(log: Log, e: Event): Log {
    match e
    case Start(_) => log.(current := Some([]))
    case Add(b, _) => if log.current.Some? then log.(current := Some(log.current.value + [b])) else log
    case End =>
      if log.current.Some? && log.current.value != [] then Log(log.messages + [log.current.value], None) else log
    case Read => log
    case Confirm => log
  }

  function Recorded(log: Log, events: seq<Event>): Log
    decreases |events|
  {
    if events == [] then log else Recorded(Record(log, events[0]), events[1..])
  }

  // ------------------------------------------------------------ the invariant

  /** After an error the finished messages are still there, and nothing follows them. */
  ghost predicate Halted(g: Geometry, q: Queue, from: Spot, placed: seq<Placement>) {
    && Sane(g, q) && q.msg.Some?
    && Chain(g, q.chunks, from, placed, q.msg.value, q.msg.value)
    && Frontier(g, q.chunks, q.msg.value)
  }

  /** Nothing finished lies beyond `end`, and a reader there stays there. */
  ghost predicate Frontier(g: Geometry, chunks: seq<Chunk>, end: Spot) {
    && end.c < |chunks| && end.off <= chunks[end.c].confirmed && Settle(chunks, end) == end
    && (end.off + g.H < chunks[end.c].confirmed ==>
          && end.off < |chunks[end.c].data| && chunks[end.c].data[end.off].Header? && chunks[end.c].data[end.off].size == 0)
  }

  ghost predicate Holds(g: Geometry, r: Run, placed: seq<Placement>, current: Option<seq<int>>) {
    if r.failed then Halted(g, r.q, r.from, placed)
    else if current.None? then Closed(g, r.q, r.from, placed)
    else Writing(g, r.q, r.from, placed, current.value)
  }

  function Contents(placed: seq<Placement>): (r: seq<seq<int>>)
    ensures |r| == |placed|
  {
    seq(|placed|, i requires 0 <= i < |placed| => placed[i].bytes)
  }

  ghost predicate Faithful(g: Geometry, r: Run, placed: seq<Placement>, log: Log) {
    && Holds(g, r, placed, log.current)
    && r.delivered + Contents(placed) == log.messages
  }

  // ------------------------------------------------------------ one step

  lemma BeginHolds(g: Geometry, limit: nat, q: Queue, from: Spot, placed: seq<Placement>, memory: seq<Cell>)
    requires Closed(g, q, from, placed) && |memory| == g.D
    ensures var o := Begin(g, limit, q, memory); o.Done? && Writing(g, o.q, from, placed, [])
    ensures var fits := q.lastSize + g.H < g.D;
            var q' := Begin(g, limit, q, memory).q;
            && q'.msg == Some(if fits then Spot(Last(q), q.lastSize) else Spot(|q.chunks|, 0))
            && q'.chunks[Last(q')].start == if fits then q.chunks[Last(q)].start else UNDEFINED
  {
    hide Chain, Open;
    var q0 := q.(size := 0, position := 0);
    if q.lastSize + g.H < g.D {
      BeginKeeps(g, q0, from, placed);
    } else {
      GoOnBetweenKeeps(g, q0, from, placed, memory);
      BeginKeeps(g, GoOn(q0, memory), from, placed);
    }
  }

  lemma AppendHolds(g: Geometry, limit: nat, q: Queue, from: Spot, placed: seq<Placement>, bytes: seq<int>, b: int, memory: seq<Cell>)
    requires Writing(g, q, from, placed, bytes) && |memory| == g.D
    ensures q.lastSize + q.position < g.D
    ensures match Append(g, limit, q, b, memory)
            case Done(q') => Writing(g, q', from, placed, bytes + [b])
            case Failed(q', _) => Halted(g, q', from, placed)
  {
    hide Chain, Span, Fits, Reach;
    if q.lastSize + q.position + 1 < g.D {
      PutKeeps(g, q, from, placed, bytes, b);
    } else if q.size > limit {
      PutStores(g, q, from, placed, bytes, b);
    } else if q.size + q.position + 1 < g.D {
      RelocateKeeps(g, q, from, placed, bytes, b, memory);
    } else {
      GoOnKeeps(g, q, from, placed, bytes, b, memory);
    }
  }

  /** A string appended to the unfinished message makes it longer by that string. */
  lemma {:induction false} AppendAllHolds(g: Geometry, limit: nat, q: Queue, from: Spot, placed: seq<Placement>, bytes: seq<int>,
                                          more: seq<int>, memories: seq<seq<Cell>>)
    requires Writing(g, q, from, placed, bytes) && |memories| == |more| && forall i :: 0 <= i < |memories| ==> |memories[i]| == g.D
    ensures AllReady(g, q, memories) && Roomy(g, q)
    ensures match AppendAll(g, limit, q, more, memories)
            case Done(q') => Writing(g, q', from, placed, bytes + more)
            case Failed(q', _) => Halted(g, q', from, placed)
    decreases |more|
  {
    hide Chain, Span, Fits, Reach, Append;
    if more == [] {
      assert bytes + more == bytes;
    } else {
      var n := |more| - 1;
      AppendAllHolds(g, limit, q, from, placed, bytes, more[..n], memories[..n]);
      var o := AppendAll(g, limit, q, more[..n], memories[..n]);
      if o.Done? {
        AppendHolds(g, limit, o.q, from, placed, bytes + more[..n], more[n], memories[n]);
        assert bytes + more[..n] + [more[n]] == bytes + more;
      }
    }
  }

  lemma CommitHolds(g: Geometry, q: Queue, from: Spot, placed: seq<Placement>, bytes: seq<int>)
    requires Writing(g, q, from, placed, bytes)
    ensures HasHeader(g, q)
    ensures match Commit(g, q)
            case Done(q') => bytes != [] && Closed(g, q', from, placed + [Placement(q.msg.value, bytes)])
            case Failed(q', code) => bytes == [] && code == 50058 && Halted(g, q', from, placed)
  {
    hide Chain, Span, Fits, Reach;
    if bytes != [] {
      FinishKeeps(g, q, from, placed, bytes);
    }
  }

  /** With a message ahead the reader gets it, and is then where the next one is looked for. */
  lemma ReadsFirst(g: Geometry, chunks: seq<Chunk>, from: Spot, placed: seq<Placement>, end: Spot)
    requires g.Valid() && Chain(g, chunks, from, placed, end, end) && Frontier(g, chunks, end) && placed != []
    ensures NextMessage(g, chunks, from) == Some(placed[0].bytes)
    ensures Chain(g, chunks, NextSpot(g, chunks, from), placed[1..], end, end)
  {
    hide Sealed, EndOf, Settle;
    var m := placed[0];
    ConfirmedBeyond(g, chunks, end, m);
    PlainCells(m.bytes);
  }

  lemma PlainCells(bytes: seq<int>)
    ensures Plain(Cells(bytes)) == bytes
  {
  }

  lemma ConfirmedBeyond(g: Geometry, chunks: seq<Chunk>, last: Spot, m: Placement)
    requires g.Valid() && Stored(g, chunks, last, m) && (last.c < |chunks| ==> last.off <= chunks[last.c].confirmed)
    ensures m.at.off + g.H < chunks[m.at.c].confirmed
  {
  }

  lemma ReadsNothing(g: Geometry, chunks: seq<Chunk>, from: Spot, end: Spot)
    requires Chain(g, chunks, from, [], end, end) && Frontier(g, chunks, end)
    ensures NextMessage(g, chunks, from) == None
    ensures Chain(g, chunks, NextSpot(g, chunks, from), [], end, end)
  {
  }

  /** The end of what the reader can get. */
  ghost function EndSpot(r: Run): Spot {
    if r.q.msg.Some? then r.q.msg.value else Spot(if r.q.chunks == [] then 0 else Last(r.q), r.q.lastSize)
  }

  lemma HoldsFrontier(g: Geometry, r: Run, placed: seq<Placement>, current: Option<seq<int>>)
    requires Holds(g, r, placed, current)
    ensures g.Valid() && Frontier(g, r.q.chunks, EndSpot(r)) && Chain(g, r.q.chunks, r.from, placed, EndSpot(r), EndSpot(r))
  {
    hide Chain, Span, Fits, Reach;
  }

  lemma ReadHolds(g: Geometry, limit: nat, r: Run, placed: seq<Placement>, log: Log)
    requires Faithful(g, r, placed, log)
    ensures var r' := Next(g, limit, r, Read);
            Faithful(g, r', if placed == [] then [] else placed[1..], log)
            && r'.delivered == if placed == [] then r.delivered else r.delivered + [placed[0].bytes]
  {
    hide Chain, Open, Available;
    HoldsFrontier(g, r, placed, log.current);
    var end := EndSpot(r);
    if placed == [] {
      ReadsNothing(g, r.q.chunks, r.from, end);
    } else {
      ReadsFirst(g, r.q.chunks, r.from, placed, end);
      assert Contents(placed) == [placed[0].bytes] + Contents(placed[1..]);
    }
  }

  lemma NextFaithful(g: Geometry, limit: nat, r: Run, e: Event, placed: seq<Placement>, log: Log) returns (placed': seq<Placement>)
    requires Faithful(g, r, placed, log) && Possible(g, r, e)
    ensures Faithful(g, Next(g, limit, r, e), placed', Record(log, e))
  {
    hide Chain, Open, Available, Begin, Append, Commit;
    placed' := placed;
    match e {
      case Start(memory) =>
        BeginHolds(g, limit, r.q, r.from, placed, memory);
      case Add(b, memory) =>
        AppendHolds(g, limit, r.q, r.from, placed, log.current.value, b, memory);
      case End =>
        var bytes := log.current.value;
        CommitHolds(g, r.q, r.from, placed, bytes);
        if bytes != [] {
          placed' := placed + [Placement(r.q.msg.value, bytes)];
          assert Contents(placed') == Contents(placed) + [bytes];
        }
      case Read =>
        ReadHolds(g, limit, r, placed, log);
        placed' := if placed == [] then [] else placed[1..];
      case Confirm =>
    }
  }

  // ------------------------------------------------------------ every run

  lemma {:induction false} RunFaithful(g: Geometry, limit: nat, r: Run, events: seq<Event>, placed: seq<Placement>, log: Log)
    returns (placed': seq<Placement>)
    requires Faithful(g, r, placed, log) && PossibleRun(g, limit, r, events)
    ensures Faithful(g, Outcomes(g, limit, r, events), placed', Recorded(log, events))
    decreases |events|
  {
    hide Faithful, Possible, Next, Record;
    placed' := placed;
    if events != [] {
      placed' := NextFaithful(g, limit, r, events[0], placed, log);
      placed' := RunFaithful(g, limit, Next(g, limit, r, events[0]), events[1..], placed', Record(log, events[0]));
    }
  }

  const NO_MESSAGES := Log([], None)

  /** In every run what the reader has received is a prefix of the finished messages, byte for byte
      and in order; it receives the next one exactly when there is one. */
  lemma ReaderReceivesMessages(g: Geometry, limit: nat, memory: seq<Cell>, events: seq<Event>)
    requires g.Valid() && |memory| == g.D && PossibleRun(g, limit, Fresh(memory), events)
    ensures var r := Outcomes(g, limit, Fresh(memory), events);
            var sent := Recorded(NO_MESSAGES, events).messages;
            && r.delivered <= sent
            && NextMessage(g, r.q.chunks, r.from) == (if r.delivered == sent then None else Some(sent[|r.delivered|]))
  {
    hide Outcomes, Recorded, Next, Holds, NextMessage;
    FreshFaithful(g, memory);
    var placed := RunFaithful(g, limit, Fresh(memory), events, [], NO_MESSAGES);
    NextIsFirstPending(g, Outcomes(g, limit, Fresh(memory), events), placed, Recorded(NO_MESSAGES, events));
  }

  lemma FreshFaithful(g: Geometry, memory: seq<Cell>)
    requires g.Valid() && |memory| == g.D
    ensures Faithful(g, Fresh(memory), [], NO_MESSAGES)
  {
  }

  lemma NextIsFirstPending(g: Geometry, r: Run, placed: seq<Placement>, log: Log)
    requires Faithful(g, r, placed, log)
    ensures NextMessage(g, r.q.chunks, r.from) == (if placed == [] then None else Some(placed[0].bytes))
  {
    hide Chain, Open, NextMessage;
    HoldsFrontier(g, r, placed, log.current);
    if placed == [] {
      ReadsNothing(g, r.q.chunks, r.from, EndSpot(r));
    } else {
      ReadsFirst(g, r.q.chunks, r.from, placed, EndSpot(r));
    }
  }

  /** The builder stands where the next message goes, or inside an unfinished message that has room
      for another byte and crosses into another chunk only from the front of one that it fills. */
  ghost predicate Shape(g: Geometry, q: Queue) {
    && q.chunks != [] && q.lastSize == q.chunks[Last(q)].confirmed <= g.D && q.lastSize % 8 == 0
    && (q.msg.Some? ==>
          && HasHeader(g, q) && q.lastSize + q.position < g.D == |q.chunks[Last(q)].data|
          && var at := q.msg.value;
             if at.c == Last(q) then at.off == q.lastSize
             else at.off == 0 == q.lastSize && forall c :: at.c <= c < Last(q) ==> q.chunks[c].confirmed == g.D)
  }

  /** A message begins when none is open, and goes on or ends when one is. */
  predicate Allowed(g: Geometry, q: Queue, e: Event) {
    match e
    case Start(memory) => q.msg.None? && |memory| == g.D
    case Add(_, memory) => q.msg.Some? && |memory| == g.D
    case End => q.msg.Some?
    case Read => true
    case Confirm => true
  }

  /** The shape holds in every state that a run reaches without an error, so the builder can always
      go on: every call that its protocol allows is possible. */
  lemma QueueShape(g: Geometry, limit: nat, memory: seq<Cell>, events: seq<Event>)
    requires g.Valid() && |memory| == g.D && PossibleRun(g, limit, Fresh(memory), events)
    ensures var r := Outcomes(g, limit, Fresh(memory), events);
            !r.failed ==>
              && Shape(g, r.q)
              && forall e :: Allowed(g, r.q, e) ==> Possible(g, r, e)
  {
    hide Chain, Span, Fits, Reach, Outcomes, Recorded, Next;
    FreshFaithful(g, memory);
    var placed := RunFaithful(g, limit, Fresh(memory), events, [], NO_MESSAGES);
  }

  /** What an append does to the chunks: a new one is opened exactly when the byte fills the last one,
      and the message moves to its front exactly if it does not begin at the front already. */
  lemma AppendMoves(g: Geometry, limit: nat, q: Queue, from: Spot, placed: seq<Placement>, bytes: seq<int>, b: int, memory: seq<Cell>)
    requires Writing(g, q, from, placed, bytes) && |memory| == g.D
    ensures q.lastSize + q.position < g.D
    ensures var o, at := Append(g, limit, q, b, memory), q.msg.value;
            var full := (at.off + g.H + |bytes| + 1) % g.D == 0;
            && (o.Done? ==> |o.q.chunks| == |q.chunks| + if full then 1 else 0)
            && o.q.msg == (if full && at.off > 0 then Some(Spot(|q.chunks|, 0)) else q.msg)
            && (full && at.off > 0 ==> o.Done? && g.H + |bytes| + 1 < g.D)
            && (o.Done? && full ==> o.q.chunks[Last(o.q)].start == if at.off > 0 then 0 else UNDEFINED)
  {
    hide Chain, Span, Fits, Reach;
    WriterOffset(g, q, bytes);
  }

  /** Where the writer stands in its chunk. */
  lemma WriterOffset(g: Geometry, q: Queue, bytes: seq<int>)
    requires Sane(g, q) && q.msg.Some? && Open(g, q, q.msg.value, bytes)
    ensures q.lastSize + q.position == (q.msg.value.off + g.H + |bytes|) % g.D < g.D
    ensures q.lastSize + q.position + 1 == g.D <==> (q.msg.value.off + g.H + |bytes| + 1) % g.D == 0
  {
    hide Span, Fits, Reach;
    ReachOffset(g, q.msg.value.c, q.msg.value.off + g.H, |bytes|);
    NextOffset(q.msg.value.off + g.H + |bytes|, g.D);
  }

  lemma NextOffset(n: nat, d: nat)
    requires d > 1
    ensures n % d + 1 == d <==> (n + 1) % d == 0
  {
    DivMod(n, d);
    var k, r := n / d, n % d;
    if r + 1 == d {
      assert n + 1 == (k + 1) * d by { Distributes(k, -1, d); }
      Quotient(k + 1, 0, d);
    } else {
      Quotient(k, r + 1, d);
    }
  }

  /** How often the unfinished message moves during a run. */
  function Moves(g: Geometry, limit: nat, r: Run, events: seq<Event>): nat
    requires PossibleRun(g, limit, r, events)
    decreases |events|
  {
    if events == [] then 0
    else
      var r' := Next(g, limit, r, events[0]);
      (if r'.q.msg != r.q.msg then 1 else 0) + Moves(g, limit, r', events[1..])
  }

  /** No message begins or ends. */
  predicate WithinMessage(events: seq<Event>) {
    forall i :: 0 <= i < |events| ==> !events[i].Start? && !events[i].End?
  }

  lemma {:induction false} FewMoves(g: Geometry, limit: nat, r: Run, events: seq<Event>, placed: seq<Placement>, log: Log)
    requires Faithful(g, r, placed, log) && PossibleRun(g, limit, r, events) && WithinMessage(events)
    ensures Moves(g, limit, r, events) <= if r.q.msg.Some? && r.q.msg.value.off > 0 then 1 else 0
    decreases |events|
  {
    hide Holds, Record, Append;
    if events != [] {
      var e := events[0];
      if e.Add? {
        AddInMessage(g, r, e, placed, log);
        AppendMoves(g, limit, r.q, r.from, placed, log.current.value, e.b, e.memory);
      }
      var placed' := NextFaithful(g, limit, r, e, placed, log);
      FewMoves(g, limit, Next(g, limit, r, e), events[1..], placed', Record(log, e));
    }
  }

  lemma AddInMessage(g: Geometry, r: Run, e: Event, placed: seq<Placement>, log: Log)
    requires Faithful(g, r, placed, log) && Possible(g, r, e) && e.Add?
    ensures log.current.Some? && Writing(g, r.q, r.from, placed, log.current.value) && |e.memory| == g.D
  {
    hide Chain, Open;
  }

  /** In every run a message moves at most once between its beginning and its end, and not at all
      if it begins at the front of a chunk. */
  lemma MovesAtMostOnce(g: Geometry, limit: nat, memory: seq<Cell>, before: seq<Event>, during: seq<Event>)
    requires g.Valid() && |memory| == g.D && PossibleRun(g, limit, Fresh(memory), before)
    requires PossibleRun(g, limit, Outcomes(g, limit, Fresh(memory), before), during) && WithinMessage(during)
    ensures var r := Outcomes(g, limit, Fresh(memory), before);
            Moves(g, limit, r, during) <= if r.q.msg.Some? && r.q.msg.value.off > 0 then 1 else 0
  {
    hide Outcomes, Recorded, Next, Holds, Moves, PossibleRun;
    FreshFaithful(g, memory);
    var placed := RunFaithful(g, limit, Fresh(memory), before, [], NO_MESSAGES);
    FewMoves(g, limit, Outcomes(g, limit, Fresh(memory), before), during, placed, Recorded(NO_MESSAGES, before));
  }
}
