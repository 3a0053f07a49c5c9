/** When the builder of the output queue reports an error, in terms of the messages alone. */
module QueueLimits {
  import opened Basics
  import opened Arithmetic
  import opened QueueLayout
  import opened QueueSteps
  import opened QueueRuns

  /** The byte that makes the message `n` bytes long fills a chunk, and what lies in the chunks filled
      before that one is more than the write buffer may hold. */
  predicate TooBig(g: Geometry, limit: nat, n: nat)
    requires g.D > 0
  {
    (g.H + n) % g.D == 0 && g.H + n - g.D > limit
  }

  lemma AppendFails(g: Geometry, limit: nat, q: Queue, from: Spot, placed: seq<Placement>, bytes: seq<int>, b: int, memory: seq<Cell>)
    requires Writing(g, q, from, placed, bytes) && |memory| == g.D
    ensures q.lastSize + q.position < g.D
    ensures var o := Append(g, limit, q, b, memory);
            && (o.Failed? <==> TooBig(g, limit, |bytes| + 1))
            && (o.Failed? ==> o.code == 10072 && q.msg.value.off == 0)
  {
    hide Chain, Span, Fits, Reach;
    WriterOffset(g, q, bytes);
    InFront(g, q, bytes);
  }

  /** A message of `D` bytes or more, with its header, begins at the front of a chunk, and `size` is
      what lies in the chunks before the last one. */
  lemma InFront(g: Geometry, q: Queue, bytes: seq<int>)
    requires Sane(g, q) && q.msg.Some? && Open(g, q, q.msg.value, bytes)
    ensures g.H + |bytes| >= g.D ==> q.msg.value.off == 0 && q.lastSize == 0
    ensures q.size > 0 ==> q.msg.value.off == 0 && q.lastSize == 0
    ensures q.msg.value.off == 0 ==> q.size == g.H + |bytes| - (g.H + |bytes|) % g.D
  {
    hide Span, Fits, Reach;
    WriterOffset(g, q, bytes);
  }

  /** A string fails exactly if one of its bytes makes the message too big. */
  lemma {:induction false} AppendAllFails(g: Geometry, limit: nat, q: Queue, from: Spot, placed: seq<Placement>, bytes: seq<int>,
                                          more: seq<int>, memories: seq<seq<Cell>>)
    requires Writing(g, q, from, placed, bytes) && |memories| == |more| && forall i :: 0 <= i < |memories| ==> |memories[i]| == g.D
    ensures AllReady(g, q, memories) && Roomy(g, q)
    ensures AppendAll(g, limit, q, more, memories).Failed? <==>
            exists k :: |bytes| < k <= |bytes| + |more| && TooBig(g, limit, k)
    decreases |more|
  {
    hide Writing, Append, TooBig;
    AppendAllHolds(g, limit, q, from, placed, bytes, more, memories);
    if more != [] {
      var n := |more| - 1;
      AppendAllFails(g, limit, q, from, placed, bytes, more[..n], memories[..n]);
      AppendAllHolds(g, limit, q, from, placed, bytes, more[..n], memories[..n]);
      var o := AppendAll(g, limit, q, more[..n], memories[..n]);
      if o.Done? {
        AppendFails(g, limit, o.q, from, placed, bytes + more[..n], more[n], memories[n]);
      }
    }
  }

  /** No string fails that keeps the message within the limit. */
  lemma AppendAllFits(g: Geometry, limit: nat, q: Queue, from: Spot, placed: seq<Placement>, bytes: seq<int>,
                      more: seq<int>, memories: seq<seq<Cell>>)
    requires Writing(g, q, from, placed, bytes) && |memories| == |more| && forall i :: 0 <= i < |memories| ==> |memories[i]| == g.D
    requires g.H + |bytes| + |more| <= limit + g.D
    ensures AllReady(g, q, memories) && Roomy(g, q) && AppendAll(g, limit, q, more, memories).Done?
  {
    hide Writing, AppendAll;
    AppendAllFails(g, limit, q, from, placed, bytes, more, memories);
  }

  // ------------------------------------------------------------ every run

  /** The call fails, by the messages alone. */
  predicate Fails(g: Geometry, limit: nat, log: Log, e: Event)
    requires g.D > 0
  {
    match e
    case Add(_, _) => log.current.Some? && TooBig(g, limit, |log.current.value| + 1)
    case End => log.current == Some([])
    case _ => false
  }

  predicate AnyFails(g: Geometry, limit: nat, log: Log, events: seq<Event>)
    requires g.D > 0
    decreases |events|
  {
    events != [] && (Fails(g, limit, log, events[0]) || AnyFails(g, limit, Record(log, events[0]), events[1..]))
  }

  lemma NextFails(g: Geometry, limit: nat, r: Run, e: Event, placed: seq<Placement>, log: Log)
    requires Faithful(g, r, placed, log) && Possible(g, r, e) && !r.failed
    ensures g.D > 0 && (Next(g, limit, r, e).failed <==> Fails(g, limit, log, e))
  {
    hide Chain, Open, Available, Begin, Append, Commit, TooBig;
    match e {
      case Start(memory) => BeginHolds(g, limit, r.q, r.from, placed, memory);
      case Add(b, memory) => AppendFails(g, limit, r.q, r.from, placed, log.current.value, b, memory);
      case End => CommitHolds(g, r.q, r.from, placed, log.current.value);
      case Read =>
      case Confirm =>
    }
  }

  /** After an error the builder does nothing more. */
  lemma {:induction false} StaysFailed(g: Geometry, limit: nat, r: Run, events: seq<Event>)
    requires r.failed && PossibleRun(g, limit, r, events)
    ensures Outcomes(g, limit, r, events).failed
    decreases |events|
  {
    if events != [] {
      StaysFailed(g, limit, Next(g, limit, r, events[0]), events[1..]);
    }
  }

  lemma {:induction false} OutcomesFail(g: Geometry, limit: nat, r: Run, events: seq<Event>, placed: seq<Placement>, log: Log)
    requires Faithful(g, r, placed, log) && !r.failed && PossibleRun(g, limit, r, events)
    ensures g.D > 0 && (Outcomes(g, limit, r, events).failed <==> AnyFails(g, limit, log, events))
    decreases |events|
  {
    hide Holds, Next, Possible, Record, Fails;
    NoneFail(g, r, placed, log);
    if events != [] {
      NextFails(g, limit, r, events[0], placed, log);
      var r' := Next(g, limit, r, events[0]);
      if r'.failed {
        StaysFailed(g, limit, r', events[1..]);
      } else {
        var placed' := NextFaithful(g, limit, r, events[0], placed, log);
        OutcomesFail(g, limit, r', events[1..], placed', Record(log, events[0]));
      }
    }
  }

  lemma NoneFail(g: Geometry, r: Run, placed: seq<Placement>, log: Log)
    requires Faithful(g, r, placed, log)
    ensures g.D > 0
  {
    hide Chain, Open;
  }

  /** In every run the builder has reported an error if and only if a message was committed empty, or
      grew by a byte that filled a chunk when the chunks filled before it already held more than the
      write buffer may. */
  lemma WhenRunFails(g: Geometry, limit: nat, memory: seq<Cell>, events: seq<Event>)
    requires g.Valid() && |memory| == g.D && PossibleRun(g, limit, Fresh(memory), events)
    ensures Outcomes(g, limit, Fresh(memory), events).failed <==> AnyFails(g, limit, NO_MESSAGES, events)
  {
    hide Holds, Outcomes, AnyFails, PossibleRun;
    FreshFaithful(g, memory);
    OutcomesFail(g, limit, Fresh(memory), events, [], NO_MESSAGES);
  }

  /** Every message so far stays within the limit, and none is committed empty. */
  predicate Modest(g: Geometry, limit: nat, log: Log, events: seq<Event>)
    decreases |events|
  {
    events != [] ==>
      && (events[0].Add? && log.current.Some? ==> g.H + |log.current.value| + 1 <= limit + g.D)
      && !(events[0].End? && log.current == Some([]))
      && Modest(g, limit, Record(log, events[0]), events[1..])
  }

  lemma {:induction false} ModestNeverFails(g: Geometry, limit: nat, log: Log, events: seq<Event>)
    requires g.Valid() && Modest(g, limit, log, events)
    ensures !AnyFails(g, limit, log, events)
    decreases |events|
  {
    if events != [] {
      ModestNeverFails(g, limit, Record(log, events[0]), events[1..]);
    }
  }

  /** Messages within the limit never fail, over any number of chunks. */
  lemma ModestRunsSucceed(g: Geometry, limit: nat, memory: seq<Cell>, events: seq<Event>)
    requires g.Valid() && |memory| == g.D && PossibleRun(g, limit, Fresh(memory), events) && Modest(g, limit, NO_MESSAGES, events)
    ensures !Outcomes(g, limit, Fresh(memory), events).failed
  {
    WhenRunFails(g, limit, memory, events);
    ModestNeverFails(g, limit, NO_MESSAGES, events);
  }
}
