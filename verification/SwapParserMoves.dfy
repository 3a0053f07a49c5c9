/** Every move of the parser thread keeps the invariant. */
module SwapParserMoves {
  import opened Basics
  import opened ChunkPool
  import opened SwapProtocol
  import opened SwapInvariant
  import opened SwapFrames

  ghost predicate Kept(r: Result) {
    !r.Fault? && (r.Next? ==> Inv(r.s))
  }

  /** A chunk in the list of a live transaction is where its place says. */
  lemma ChunkPlaced(s: State, x: Xid, i: nat)
    requires Located(s.txs, s.place, s.p, s.m) && x in s.txs && i < |s.txs[x].chunks|
    requires s.txs[x].chunks[i].Some? && !Stale(s.p, x, i)
    ensures s.txs[x].chunks[i].value in s.place && s.place[s.txs[x].chunks[i].value] == At(x, i)
  {
    assert ChunkAt(s.txs, s.p, s.m, At(x, i)) == s.txs[x].chunks[i];
  }

  lemma HeldByParser(s: State)
    requires Located(s.txs, s.place, s.p, s.m) && ParserChunk(s.p).Some?
    ensures ParserChunk(s.p).value in s.place && s.place[ParserChunk(s.p).value] == WithParser
  {
    assert ChunkAt(s.txs, s.p, s.m, WithParser) == ParserChunk(s.p);
  }

  lemma HeldByManager(s: State)
    requires Located(s.txs, s.place, s.p, s.m) && ManagerChunk(s.m).Some?
    ensures ManagerChunk(s.m).value in s.place && s.place[ManagerChunk(s.m).value] == WithManager
  {
    assert ChunkAt(s.txs, s.p, s.m, WithManager) == ManagerChunk(s.m);
  }

  // ------------------------------------------------------------ init, grow, write

  lemma InitKeeps(s: State, x: Xid)
    requires Inv(s) && s.p.Ready? && x != NO_XID
    ensures Kept(InitTx(s, x))
  {
    hide PoolOk, Accounted, Located, AllTxOk, CommittedOk;
    if x !in s.txs {
      var t := InitTx(s, x).s;
      OneTxChanged(s, t, x);
      NothingMoved(s.txs, s.p, s.m, s.place, t.txs, t.p, t.m);
      CommittedSame(s.txs, s.committed, s.p, x, EMPTY, t.p);
    }
  }

  lemma GrowKeeps(s: State, x: Xid, os: Address)
    requires Inv(s) && s.p.Ready? && Active(s, x) && s.sys.Unused(os)
    ensures Kept(GrowAcquire(s, x, os))
  {
    hide PoolOk, Accounted, Located, AllTxOk, CommittedOk, ChunkPool.Get, Shape;
    AcquireOk(s, false, os, WithParser);
    var r := GrowAcquire(s, x, os);
    if r.Next? {
      var a := Acquired(s, false, os);
      if ManagerChunk(s.m).Some? { HeldByManager(s); }
      TxOkOf(s, x);
      OneTxChanged(s, r.s, x);
      ChunkAdded(s.txs, s.p, s.m, s.place, r.s.p, r.s.m, a, WithParser);
      CommittedSame(s.txs, s.committed, s.p, x, s.txs[x], r.s.p);
      assert s.txs[x := s.txs[x]] == s.txs;
    }
  }

  lemma ShapeAppended(sc: SwapChunk, a: Address)
    requires Shape(sc, None, false)
    ensures Shape(sc.(chunks := sc.chunks + [Some(a)]), None, false)
  {
  }

  lemma AppendMoves(s: State, t: State)
    requires Located(s.txs, s.place, s.p, s.m) && s.p.Growing? && s.p.x in s.txs && ParserChunk(t.p).None? && !t.p.Removing? && t.m == s.m
    requires var x, a := s.p.x, s.p.chunk;
             && x in t.txs && t.txs == s.txs[x := t.txs[x]] && t.txs[x].chunks == s.txs[x].chunks + [Some(a)]
             && t.place == s.place[a := At(x, |s.txs[x].chunks|)]
    ensures Located(t.txs, t.place, t.p, t.m)
  {
    hide Located;
    HeldByParser(s);
    ChunkMoved(s.txs, s.p, s.m, s.place, t.txs, t.p, t.m, s.p.chunk, WithParser, At(s.p.x, |s.txs[s.p.x].chunks|));
  }

  lemma AppendKeeps(s: State)
    requires Inv(s) && s.p.Growing?
    ensures Kept(GrowAppend(s))
  {
    hide PoolOk, Located, AllTxOk, CommittedOk, Shape;
    var x, a := s.p.x, s.p.chunk;
    var sc := s.txs[x];
    var t := GrowAppend(s).s;
    HeldByParser(s);
    TxOkOf(s, x);
    ShapeAppended(sc, a);
    OneTxChanged(s, t, x);
    AppendMoves(s, t);
    CommittedSame(s.txs, s.committed, s.p, x, t.txs[x], t.p);
  }

  lemma WriteKeeps(s: State, x: Xid, page: Page)
    requires Inv(s) && s.p.Ready? && Active(s, x) && s.txs[x].chunks != []
    ensures Kept(WriteLast(s, x, page))
  {
    hide PoolOk, Located, AllTxOk, Accounted, CommittedOk;
    TxOkOf(s, x);
    ChunkPlaced(s, x, |s.txs[x].chunks| - 1);
    if ManagerChunk(s.m).Some? { HeldByManager(s); }
    OneTxChanged(s, WriteLast(s, x, page).s, x);
  }

  // ------------------------------------------------------------ shrink

  lemma ShapePopped(sc: SwapChunk)
    requires Shape(sc, None, false) && sc.chunks != []
    ensures sc.chunks[|sc.chunks| - 1].Some?
    ensures Shape(sc.(chunks := sc.chunks[..|sc.chunks| - 1]), None, true)
  {
  }

  /** The parser takes chunk `i` of `x` out of the list. */
  lemma ParserTakes(s: State, t: State, x: Xid, i: nat)
    requires Located(s.txs, s.place, s.p, s.m) && ParserChunk(s.p).None? && !s.p.Removing? && !t.p.Removing? && t.m == s.m
    requires x in s.txs && i < |s.txs[x].chunks| && s.txs[x].chunks[i].Some? && ParserChunk(t.p) == s.txs[x].chunks[i]
    requires x in t.txs && t.txs == s.txs[x := t.txs[x]] && t.place == s.place[s.txs[x].chunks[i].value := WithParser]
    requires t.txs[x].chunks == s.txs[x].chunks[i := None] || (i == |s.txs[x].chunks| - 1 && t.txs[x].chunks == s.txs[x].chunks[..i])
    ensures Located(t.txs, t.place, t.p, t.m)
  {
    hide Located;
    ChunkPlaced(s, x, i);
    ChunkMoved(s.txs, s.p, s.m, s.place, t.txs, t.p, t.m, s.txs[x].chunks[i].value, At(x, i), WithParser);
  }

  lemma PopKeeps(s: State, x: Xid)
    requires Inv(s) && s.p.Ready? && Active(s, x) && s.txs[x].chunks != []
    ensures Kept(ShrinkPop(s, x))
  {
    hide PoolOk, Located, AllTxOk, CommittedOk, Shape;
    var sc := s.txs[x];
    var n := |sc.chunks|;
    TxOkOf(s, x);
    ShapePopped(sc);
    ChunkPlaced(s, x, n - 1);
    var t := ShrinkPop(s, x).s;
    OneTxChanged(s, t, x);
    ParserTakes(s, t, x, n - 1);
    CommittedSame(s.txs, s.committed, s.p, x, t.txs[x], t.p);
  }

  /** The parser frees the chunk it holds and goes on at `t.p`. */
  lemma ParserDiscards(s: State, t: State)
    requires Inv(s) && ParserChunk(s.p).Some? && Discard(s, ParserChunk(s.p).value).Next?
    requires t == Discard(s, ParserChunk(s.p).value).s.(p := t.p)
    requires ParserChunk(t.p).None? && !t.p.Removing? && !s.p.Removing?
    ensures ChunksOk(t) && CommittedOk(t.txs, t.committed, t.p)
  {
    hide PoolOk, Accounted, Located, AllTxOk, ManagerOk, ParserOk;
    HeldByParser(s);
    DiscardOk(s, ParserChunk(s.p).value);
    ChunkDropped(s.txs, s.p, s.m, s.place, t.p, t.m, ParserChunk(s.p).value);
  }

  lemma PopFreeKeeps(s: State)
    requires Inv(s) && s.p.Popped?
    ensures Kept(ShrinkFree(s))
  {
    hide PoolOk, Accounted, Located, AllTxOk, CommittedOk, Shape, Free;
    HeldByParser(s);
    DiscardOk(s, s.p.chunk);
    var t := ShrinkFree(s).s;
    ParserDiscards(s, t);
    TxOkOf(s, s.p.x);
    OneTxChanged(s, t, s.p.x);
  }

  lemma ShapeResumed(sc: SwapChunk)
    requires Shape(sc, None, true) && sc.chunks != [] && !sc.Swapped(|sc.chunks| - 1)
    ensures sc.chunks[|sc.chunks| - 1].Some? && Shape(sc, None, false)
  {
  }

  /** Going on with the last chunk, which is in memory. */
  lemma ResumeKeeps(s: State)
    requires Inv(s) && (s.p.Shrinking? || s.p.AwaitingLast?)
    requires s.txs[s.p.x].chunks != [] && !s.txs[s.p.x].Swapped(|s.txs[s.p.x].chunks| - 1)
    ensures Kept(ResumeWithLast(s, s.p.x))
  {
    hide PoolOk, Accounted, Located, AllTxOk, CommittedOk, Shape;
    var x := s.p.x;
    TxOkOf(s, x);
    ShapeResumed(s.txs[x]);
    var t := ResumeWithLast(s, x).s;
    OneTxChanged(s, t, x);
    NothingMoved(s.txs, s.p, s.m, s.place, t.txs, t.p, t.m);
    CommittedSame(s.txs, s.committed, s.p, x, s.txs[x], t.p);
    assert s.txs[x := s.txs[x]] == s.txs;
  }

  lemma ShapeEmptied(sc: SwapChunk)
    requires Shape(sc, None, true) && sc.chunks == []
    ensures Shape(sc, None, false)
  {
  }

  lemma LockKeeps(s: State)
    requires Inv(s) && s.p.Shrinking?
    ensures Kept(ShrinkLock(s))
  {
    hide PoolOk, Accounted, Located, AllTxOk, CommittedOk, Shape;
    var x := s.p.x;
    if s.txs[x].chunks != [] && !s.txs[x].Swapped(|s.txs[x].chunks| - 1) {
      ResumeKeeps(s);
    } else {
      var t := ShrinkLock(s).s;
      TxOkOf(s, x);
      if s.txs[x].chunks == [] {
        ShapeEmptied(s.txs[x]);
      }
      OneTxChanged(s, t, x);
      NothingMoved(s.txs, s.p, s.m, s.place, t.txs, t.p, t.m);
      CommittedSame(s.txs, s.committed, s.p, x, s.txs[x], t.p);
      assert s.txs[x := s.txs[x]] == s.txs;
    }
  }

  lemma WakeKeeps(s: State)
    requires Inv(s) && s.p.AwaitingLast?
    ensures Kept(ShrinkWake(s))
  {
    hide ChunksOk, AllTxOk, CommittedOk, ManagerOk;
    if !s.txs[s.p.x].Swapped(|s.txs[s.p.x].chunks| - 1) {
      ResumeKeeps(s);
    }
  }

  // ------------------------------------------------------------ flush

  lemma ShapeFlushBegun(sc: SwapChunk)
    requires Shape(sc, None, false)
    ensures Shape(sc, Some(0), false)
  {
  }

  lemma FlushKeeps(s: State, x: Xid)
    requires Inv(s) && s.p.Ready? && Active(s, x) && !FlushTooEarly(s, x)
    ensures Kept(FlushBegin(s, x))
  {
    hide PoolOk, Accounted, Located, AllTxOk, CommittedOk, Shape;
    var t := FlushBegin(s, x).s;
    TxOkOf(s, x);
    ShapeFlushBegun(s.txs[x]);
    OneTxChanged(s, t, x);
    NothingMoved(s.txs, s.p, s.m, s.place, t.txs, t.p, t.m);
    CommittedSame(s.txs, s.committed, s.p, x, s.txs[x], t.p);
    assert s.txs[x := s.txs[x]] == s.txs;
  }

  lemma ShapeFetched(sc: SwapChunk, next: nat)
    requires Shape(sc, Some(next), false) && next < |sc.chunks| && !sc.Swapped(next)
    ensures sc.chunks[next].Some? && Shape(sc, Some(next + 1), false)
  {
  }

  lemma FetchKeeps(s: State)
    requires Inv(s) && s.p.Flushing? && s.p.next < |s.txs[s.p.x].chunks|
    ensures Kept(FlushGet(s))
  {
    hide PoolOk, Accounted, Located, AllTxOk, CommittedOk, Shape;
    var x := s.p.x;
    if !s.txs[x].Swapped(s.p.next) {
      TxOkOf(s, x);
      ShapeFetched(s.txs[x], s.p.next);
      var t := FlushGet(s).s;
      OneTxChanged(s, t, x);
      NothingMoved(s.txs, s.p, s.m, s.place, t.txs, t.p, t.m);
      CommittedSame(s.txs, s.committed, s.p, x, s.txs[x], t.p);
      assert s.txs[x := s.txs[x]] == s.txs;
    }
  }

  lemma ShapeReleased(sc: SwapChunk, next: nat, k: nat)
    requires Shape(sc, Some(next), false) && k < next
    ensures Shape(sc.(chunks := sc.chunks[k := None]), Some(next), false)
  {
  }

  lemma ReleaseKeeps(s: State, k: nat)
    requires Inv(s) && s.p.Flushing? && k < s.p.next && k < |s.txs[s.p.x].chunks| && s.txs[s.p.x].chunks[k].Some?
    ensures Kept(FlushRelease(s, k))
  {
    hide PoolOk, Located, AllTxOk, CommittedOk, Shape;
    var x := s.p.x;
    TxOkOf(s, x);
    ShapeReleased(s.txs[x], s.p.next, k);
    ChunkPlaced(s, x, k);
    var t := FlushRelease(s, k).s;
    OneTxChanged(s, t, x);
    ParserTakes(s, t, x, k);
    CommittedSame(s.txs, s.committed, s.p, x, t.txs[x], t.p);
  }

  lemma ReleaseFreeKeeps(s: State)
    requires Inv(s) && s.p.Releasing?
    ensures Kept(FlushFree(s))
  {
    hide PoolOk, Accounted, Located, AllTxOk, CommittedOk, Shape, Free;
    HeldByParser(s);
    DiscardOk(s, s.p.chunk);
    var t := FlushFree(s).s;
    ParserDiscards(s, t);
    TxOkOf(s, s.p.x);
    OneTxChanged(s, t, s.p.x);
  }

  // ------------------------------------------------------------ remove

  lemma RemoveKeeps(s: State, x: Xid)
    requires Inv(s) && (s.p.Ready? || (s.p.Flushing? && s.p.x == x)) && Active(s, x) && !RemoveTooEarly(s, x)
    ensures Kept(RemoveBegin(s, x))
  {
    hide PoolOk, Accounted, Located, AllTxOk, CommittedOk, Shape;
    var t := RemoveBegin(s, x).s;
    OneTxChanged(s, t, x);
    NothingMoved(s.txs, s.p, s.m, s.place, t.txs, t.p, t.m);
    CommittedSame(s.txs, s.committed, s.p, x, t.txs[x], t.p);
  }

  lemma RemoveNextKeeps(s: State)
    requires Inv(s) && s.p.Removing?
    ensures Kept(RemoveFree(s))
  {
    hide PoolOk, Accounted, Located, AllTxOk, CommittedOk, Shape, Free;
    var Removing(x, k) := s.p;
    if k < |s.txs[x].chunks| {
      var c := s.txs[x].chunks[k];
      if c.Some? {
        ChunkPlaced(s, x, k);
        DiscardOk(s, c.value);
      }
      var t := RemoveFree(s).s;
      if c.Some? {
        ChunkDropped(s.txs, s.p, s.m, s.place, t.p, t.m, c.value);
      } else {
        NothingMoved(s.txs, s.p, s.m, s.place, t.txs, t.p, t.m);
      }
      OneTxChanged(s, t, x);
      CommittedSame(s.txs, s.committed, s.p, x, s.txs[x], t.p);
      assert s.txs[x := s.txs[x]] == s.txs;
    }
  }

  lemma CommittedMore(txs: map<Xid, SwapChunk>, committed: seq<Xid>, x: Xid, k: nat, sc: SwapChunk)
    requires CommittedOk(txs, committed, Removing(x, k)) && sc.release && sc.chunks == []
    ensures CommittedOk(txs[x := sc], committed + [x], Ready)
  {
  }

  lemma RemoveLastKeeps(s: State)
    requires Inv(s) && s.p.Removing?
    ensures Kept(RemoveEnd(s))
  {
    hide PoolOk, Accounted, Located, AllTxOk, CommittedOk, Shape;
    var Removing(x, k) := s.p;
    if k >= |s.txs[x].chunks| {
      var t := RemoveEnd(s).s;
      OneTxChanged(s, t, x);
      NothingMoved(s.txs, s.p, s.m, s.place, t.txs, t.p, t.m);
      CommittedMore(s.txs, s.committed, x, k, t.txs[x]);
    }
  }

  // ------------------------------------------------------------ the other modules

  lemma OtherTakeKeeps(s: State, memory: Memory, swap: bool, os: Address)
    requires Inv(s) && memory != TRANSACTIONS && s.sys.Unused(os)
    ensures Kept(OtherAcquire(s, memory, swap, os))
  {
    hide PoolOk, Accounted, Located, CommittedOk, ManagerOk, Get;
    OtherAcquireOk(s, memory, swap, os);
  }

  lemma OtherGiveKeeps(s: State, a: Address)
    requires Inv(s) && a in s.sys.owner && s.sys.owner[a] != TRANSACTIONS
    ensures Kept(OtherDiscard(s, a))
  {
    hide PoolOk, Accounted, Located, CommittedOk, ManagerOk, Free;
    OtherDiscardOk(s, a);
  }
}
