/** Whole runs of the swap protocol. */
module SwapRuns {
  import opened Basics
  import opened ChunkPool
  import opened SwapProtocol
  import opened SwapInvariant
  import opened SwapFrames
  import opened SwapParserMoves
  import opened SwapManagerMoves
  import opened SwapRefinement

  /** The state after start-up: every chunk is free and there are no transactions. */
  function Start(l: Limits, chunks: seq<Address>): State {
    State(l, Initial(chunks), map[], map[], [], NO_XID, NO_XID, map[], map[], map[], Ready, Idle)
  }

  lemma StartOk(l: Limits, chunks: seq<Address>)
    requires l.Configured() && l.readMin + l.writeMin <= l.min
    requires Distinct(chunks) && |chunks| == l.min
    ensures Inv(Start(l, chunks)) && View(Start(l, chunks)) == map[]
  {
    hide ChunkPool.Invariant;
    InitialKeepsInvariant(l, chunks);
  }

  /** A run: each move is made if it is proper and enabled, and otherwise passes. */
  ghost function Run(s: State, es: seq<Move>): Result
    decreases |es|
  {
    if es == [] then Next(s)
    else if !SwapInvariant.Proper(s, es[0]) then Run(s, es[1..])
    else
      match Step(s, es[0])
      case Next(t) => Run(t, es[1..])
      case Blocked => Run(s, es[1..])
      case Fault(mistake) => Fault(mistake)
  }

  /** The list operations that a run performs. */
  ghost function Performed(s: State, es: seq<Move>): seq<ListOp>
    decreases |es|
  {
    if es == [] then []
    else if !SwapInvariant.Proper(s, es[0]) then Performed(s, es[1..])
    else
      match Step(s, es[0])
      case Next(t) => [OpOf(s, es[0])] + Performed(t, es[1..])
      case Blocked => Performed(s, es[1..])
      case Fault(_) => []
  }

  function ApplyAll(v: Lists, ops: seq<ListOp>): Lists
    decreases |ops|
  {
    if ops == [] then v else ApplyAll(Apply(v, ops[0]), ops[1..])
  }

  lemma {:induction false} RunSound(s: State, es: seq<Move>)
    requires Inv(s)
    ensures Run(s, es).Next? && Inv(Run(s, es).s)
    ensures View(Run(s, es).s) == ApplyAll(View(s), Performed(s, es))
    decreases |es|
  {
    hide Inv, SwapInvariant.Proper, Step, View, Apply, OpOf;
    if es != [] {
      if !SwapInvariant.Proper(s, es[0]) {
        RunSound(s, es[1..]);
      } else {
        MoveSound(s, es[0]);
        var r := Step(s, es[0]);
        if r.Next? {
          RunSound(r.s, es[1..]);
          var ops := Performed(s, es);
          assert ops[0] == OpOf(s, es[0]) && ops[1..] == Performed(r.s, es[1..]);
        } else {
          RunSound(s, es[1..]);
        }
      }
    }
  }

  /** Swap refinement: from start-up, in every interleaving, nothing goes wrong and the contents
      of the transactions are those of plain lists under the operations performed. */
  lemma SwapRefinesLists(l: Limits, chunks: seq<Address>, es: seq<Move>)
    requires l.Configured() && l.readMin + l.writeMin <= l.min
    requires Distinct(chunks) && |chunks| == l.min
    ensures var r := Run(Start(l, chunks), es);
            r.Next? && View(r.s) == ApplyAll(map[], Performed(Start(l, chunks), es))
  {
    hide Inv, View, Run, Performed, ApplyAll;
    StartOk(l, chunks);
    RunSound(Start(l, chunks), es);
  }

  /** The memory manager and the other users of the allocator perform no list operation. */
  lemma ManagerPerformsNothing(s: State, e: Move)
    requires SwapInvariant.Proper(s, e) && Inv(s)
    requires e.Purge? || e.PurgeFile? || e.Choose? || e.Read? || e.Place? || e.Take? || e.Store? || e.Finish?
             || e.DropFile? || e.CutFile? || e.Give? || e.OtherTake? || e.OtherGive?
    ensures Step(s, e).Next? ==> View(Step(s, e).s) == View(s)
  {
    hide Inv, SwapInvariant.Proper, Step, View;
    MoveSound(s, e);
  }

  /** The interval invariant in every state of every run: the chunks swapped out are exactly
      those from `swappedMin` to `swappedMax`; an entry is null only for one of them or, during a
      flush, for one that the flush has passed; the interval is empty or starts at the front
      unless the transaction is being flushed; the file holds its pages; and the last chunk is in
      memory, and is the one written through, whenever the parser is between operations. */
  lemma SwapInterval(l: Limits, chunks: seq<Address>, es: seq<Move>, x: Xid)
    requires l.Configured() && l.readMin + l.writeMin <= l.min
    requires Distinct(chunks) && |chunks| == l.min
    ensures var r := Run(Start(l, chunks), es);
            && r.Next?
            && (Active(r.s, x) ==>
                  var sc := r.s.txs[x];
                  && (forall i: nat :: i < |sc.chunks| && sc.Swapped(i) ==> sc.chunks[i].None?)
                  && (forall i: nat :: i < |sc.chunks| && sc.chunks[i].None? ==>
                        sc.Swapped(i) || (FlushNext(r.s.p, x).Some? && i < FlushNext(r.s.p, x).value))
                  && (sc.swappedMin == -1 <==> sc.swappedMax == -1)
                  && (sc.swappedMin != -1 ==> 0 <= sc.swappedMin <= sc.swappedMax < |sc.chunks|)
                  && (sc.swappedMin > 0 ==> r.s.flushXid == x)
                  && (forall i: nat :: sc.Swapped(i) && !(r.s.m.Detached? && r.s.m.x == x && r.s.m.index == i) ==>
                        x in r.s.files && i < |r.s.files[x]|)
                  && (r.s.p.Ready? && sc.chunks != [] ==>
                        x in r.s.last && sc.chunks[|sc.chunks| - 1] == Some(r.s.last[x])))
  {
    hide ChunksOk, AllTxOk, CommittedOk, Run;
    StartOk(l, chunks);
    RunSound(Start(l, chunks), es);
    var s := Run(Start(l, chunks), es).s;
    if Active(s, x) {
      TxOkOf(s, x);
    }
  }

  /** What the parser sees through its addresses, in every state of every run: between operations
      the last page of a transaction's list, and during a flush the pages of the list in order. */
  lemma ParserSeesTheList(l: Limits, chunks: seq<Address>, es: seq<Move>, x: Xid)
    requires l.Configured() && l.readMin + l.writeMin <= l.min
    requires Distinct(chunks) && |chunks| == l.min
    ensures var r := Run(Start(l, chunks), es);
            && r.Next?
            && (r.s.p.Ready? && Active(r.s, x) && r.s.txs[x].chunks != [] ==>
                  var v := View(r.s)[x];
                  v != [] && x in r.s.last && v[|v| - 1] == Live(Content(r.s.mem, r.s.last[x])))
            && (r.s.p.Flushing? && FlushGet(r.s).Next? ==>
                  && r.s.p.x in View(r.s) && r.s.p.next < |View(r.s)[r.s.p.x]|
                  && r.s.txs[r.s.p.x].chunks[r.s.p.next].Some?
                  && View(r.s)[r.s.p.x][r.s.p.next] == Live(Content(r.s.mem, r.s.txs[r.s.p.x].chunks[r.s.p.next].value)))
  {
    hide Inv, Run, View;
    StartOk(l, chunks);
    RunSound(Start(l, chunks), es);
    var s := Run(Start(l, chunks), es).s;
    LastChunkSeen(s, x);
    FlushChunkSeen(s);
  }

  lemma LastChunkSeen(s: State, x: Xid)
    requires Inv(s)
    ensures s.p.Ready? && Active(s, x) && s.txs[x].chunks != [] ==>
              && x in View(s) && View(s)[x] != [] && x in s.last
              && View(s)[x][|View(s)[x]| - 1] == Live(Content(s.mem, s.last[x]))
  {
    hide ChunksOk, AllTxOk, CommittedOk, ManagerOk;
    if Active(s, x) { TxOkOf(s, x); }
  }

  lemma FlushChunkSeen(s: State)
    requires Inv(s)
    ensures s.p.Flushing? && FlushGet(s).Next? ==>
              && s.p.x in View(s) && s.p.x in s.txs && s.p.next < |View(s)[s.p.x]| && s.p.next < |s.txs[s.p.x].chunks|
              && s.txs[s.p.x].chunks[s.p.next].Some?
              && View(s)[s.p.x][s.p.next] == Live(Content(s.mem, s.txs[s.p.x].chunks[s.p.next].value))
  {
    hide ChunksOk, AllTxOk, CommittedOk, ManagerOk;
    if s.p.Flushing? { TxOkOf(s, s.p.x); }
  }

  /** Conservation with swapping: in every state of every run each chunk of a transaction is in
      exactly one place, and their number is the allocator's count for transactions. */
  lemma ChunksAreConserved(l: Limits, chunks: seq<Address>, es: seq<Move>)
    requires l.Configured() && l.readMin + l.writeMin <= l.min
    requires Distinct(chunks) && |chunks| == l.min
    ensures var r := Run(Start(l, chunks), es);
            && r.Next?
            && Conserved(r.s.sys) && WithinLimits(r.s.limits, r.s.sys) && Covered(r.s.limits, r.s.sys)
            && r.s.sys.pool.used.transactions == |r.s.place|
            && (forall at, at' :: ChunkAt(r.s.txs, r.s.p, r.s.m, at).Some? && at != at' ==>
                  ChunkAt(r.s.txs, r.s.p, r.s.m, at') != ChunkAt(r.s.txs, r.s.p, r.s.m, at))
            && (forall a :: a in r.s.sys.owner && r.s.sys.owner[a] == TRANSACTIONS ==>
                  a in r.s.place && ChunkAt(r.s.txs, r.s.p, r.s.m, r.s.place[a]) == Some(a))
  {
    hide Run, AllTxOk, ParserOk, CommittedOk, ManagerOk, WithinLimits, Covered, ChunkAt;
    StartOk(l, chunks);
    RunSound(Start(l, chunks), es);
    var s := Run(Start(l, chunks), es).s;
    assert |s.place| == |s.place.Keys|;
    forall a | a in s.sys.owner && s.sys.owner[a] == TRANSACTIONS ensures a in s.place {
      assert a in Holdings(s.sys.owner, TRANSACTIONS);
    }
  }
}
