/** The two orders of events that the swap protocol does not survive: a flush or a remove of a
    transaction that starts while the memory manager holds a decision about it. */
module SwapConflicts {
  import opened Basics
  import opened ChunkPool
  import opened SwapProtocol
  import opened SwapInvariant
  import opened SwapFrames
  import opened SwapParserMoves
  import opened SwapManagerMoves
  import opened SwapRefinement
  import opened SwapRuns

  /** No continuation goes wrong. */
  ghost predicate SafeAfter(s: State) {
    forall es :: !Run(s, es).Fault?
  }

  lemma InvIsSafe(s: State)
    requires Inv(s)
    ensures SafeAfter(s)
  {
    hide Inv, Run;
    forall es ensures !Run(s, es).Fault? {
      RunSound(s, es);
    }
  }

  lemma RunFirst(s: State, e: Move, es: seq<Move>)
    requires SwapInvariant.Proper(s, e) && Step(s, e).Next?
    ensures Run(s, [e] + es) == Run(Step(s, e).s, es)
  {
    hide Step, SwapInvariant.Proper;
    assert ([e] + es)[1..] == es;
  }

  /** A step that goes wrong. */
  lemma FaultNow(s: State, e: Move)
    requires SwapInvariant.Proper(s, e) && Step(s, e).Fault?
    ensures !SafeAfter(s)
  {
    hide Step, SwapInvariant.Proper;
    assert Run(s, [e]).Fault?;
  }

  /** A step after which something may go wrong. */
  lemma FaultLater(s: State, e: Move)
    requires SwapInvariant.Proper(s, e) && Step(s, e).Next?
    ensures !SafeAfter(Step(s, e).s) ==> !SafeAfter(s)
  {
    hide Step, SwapInvariant.Proper, Run;
    if !SafeAfter(Step(s, e).s) {
      var es :| Run(Step(s, e).s, es).Fault?;
      RunFirst(s, e, es);
      assert Run(s, [e] + es).Fault?;
    }
  }

  // ------------------------------------------------------------ room for one more chunk

  lemma {:induction false} AboveAll(s: set<Address>) returns (os: Address)
    ensures forall a :: a in s ==> a < os
    decreases s
  {
    os := 0;
    if s != {} {
      var a :| a in s;
      var k := AboveAll(s - {a});
      os := if a < k then k else a + 1;
      assert forall b :: b in s ==> b == a || b in s - {a};
    }
  }

  /** The system allocator can always return something other than `a`. */
  lemma SystemMayReturn(sys: System, a: Address)
    ensures exists os :: sys.Unused(os) && os != a
  {
    var all := sys.owner.Keys + (set b | b in sys.pool.free) + {a};
    var k := AboveAll(all);
    assert k !in all;
    assert forall i :: 0 <= i < |sys.pool.free| ==> sys.pool.free[i] in all;
    assert sys.Unused(k);
  }

  lemma DiscardSlack(s: State, a: Address)
    requires Discard(s, a).Next?
    ensures Slack(s.limits, Discard(s, a).s.sys.pool) == Slack(s.limits, s.sys.pool) + 1
  {
    hide Free, Slack;
    FreeSlack(s.limits, s.sys.pool, TRANSACTIONS, a);
  }

  // ------------------------------------------------------------ an un-swap that goes through

  /** What an un-swap needs of its transaction. */
  predicate CanComeBack(s: State, c: Choice) {
    && c.x in s.txs && (s.txs[c.x].swappedMin == c.index || s.txs[c.x].swappedMax == c.index)
    && 0 <= c.index < |s.txs[c.x].chunks|
    && c.x in s.files && c.index < |s.files[c.x]|
  }

  lemma PendingComesBack(s: State)
    requires Inv(s) && PendingUnswap(s.m).Some?
    ensures CanComeBack(s, PendingUnswap(s.m).value)
  {
    hide ChunksOk, AllTxOk, CommittedOk, ParserOk;
    TxOkOf(s, PendingUnswap(s.m).value.x);
  }

  /** The page is read back: nothing changes for the parser. */
  lemma ReadGoesThrough(s: State, os: Address)
    requires PoolOk(s.limits, s.sys) && s.sys.Unused(os) && Slack(s.limits, s.sys.pool) > 0
    requires s.m.Selected? && s.m.unswap.Some? && CanComeBack(s, s.m.unswap.value)
    ensures Get(s.limits, s.sys.pool, TRANSACTIONS, true, os).Granted?
    ensures var r, a := Load(s, os), Acquired(s, true, os);
            && r.Next? && r.s.m == Loaded(s.m.unswap.value.x, s.m.unswap.value.index, a, s.m.swap)
            && r.s.txs == s.txs && r.s.files == s.files && r.s.p == s.p && r.s.place == s.place[a := WithManager]
            && (!SafeAfter(r.s) ==> !SafeAfter(s))
  {
    hide SafeAfter, ChunkPool.Invariant, Get, Slack;
    SlackGrants(s.limits, s.sys, TRANSACTIONS, os);
    FaultLater(s, Read(os));
  }

  /** The chunk read back is stored: only its own transaction changes. */
  lemma PlaceGoesThrough(s: State)
    requires s.m.Loaded? && CanComeBack(s, Choice(s.m.x, s.m.index))
    ensures var r := Install(s);
            && r.Next? && r.s.m == AfterUnswap(s.m.swap) && r.s.p == s.p && r.s.place == s.place[s.m.chunk := At(s.m.x, s.m.index)]
            && (forall x :: x != s.m.x ==> (x in r.s.txs <==> x in s.txs) && (x in s.txs ==> r.s.txs[x] == s.txs[x]))
            && (!SafeAfter(r.s) ==> !SafeAfter(s))
  {
    hide SafeAfter;
    FaultLater(s, Move.Place);
  }

  // ------------------------------------------------------------ a flush that starts too early

  lemma FirstChunkResident(sc: SwapChunk)
    requires Shape(sc, None, false) && sc.swappedMax == -1 && |sc.chunks| > 1
    ensures sc.swappedMin == -1 && sc.chunks[0].Some?
  {
  }

  /** The flush has fetched and released chunk 0. */
  function FirstReleased(s: State, x: Xid): State
    requires x in s.txs && |s.txs[x].chunks| > 0 && s.txs[x].chunks[0].Some?
  {
    var sc := s.txs[x];
    var a := sc.chunks[0].value;
    s.(flushXid := x, txs := s.txs[x := sc.(chunks := sc.chunks[0 := None])],
       place := s.place[a := WithParser], p := Releasing(x, 1, a))
  }

  lemma FirstIsReleased(s: State, x: Xid)
    requires s.p.Ready? && Active(s, x) && |s.txs[x].chunks| > 1
    requires s.txs[x].chunks[0].Some? && s.txs[x].swappedMin == -1 && s.txs[x].swappedMax == -1
    ensures !SafeAfter(FirstReleased(s, x)) ==> !SafeAfter(FlushBegin(s, x).s)
  {
    hide SafeAfter;
    var t := FlushBegin(s, x).s;
    FaultLater(t, Fetch);
    FaultLater(FlushGet(t).s, Release(0));
    assert FlushRelease(FlushGet(t).s, 0).s == FirstReleased(s, x);
  }

  /** The manager, which chose chunk 0, takes a null chunk to write out. */
  lemma NullIsTaken(s: State, x: Xid)
    requires s.m == Selected(None, Some(Choice(x, 0)))
    requires x in s.txs && |s.txs[x].chunks| > 1 && s.txs[x].swappedMax == -1 && s.txs[x].chunks[0].None?
    ensures !SafeAfter(s)
  {
    hide SafeAfter;
    FaultNow(s, Move.Take);
  }

  lemma NullIsTakenAfterPlace(s: State, x: Xid)
    requires s.m.Loaded? && s.m.x != x && s.m.swap == Some(Choice(x, 0)) && CanComeBack(s, Choice(s.m.x, s.m.index))
    requires x in s.txs && |s.txs[x].chunks| > 1 && s.txs[x].swappedMax == -1 && s.txs[x].chunks[0].None?
    ensures !SafeAfter(s)
  {
    hide SafeAfter, Install;
    PlaceGoesThrough(s);
    NullIsTaken(Install(s).s, x);
  }

  /** Chunk 0 goes back to the pool, so that the un-swap that comes first is granted a chunk. */
  lemma NullIsTakenAfterRead(s: State, x: Xid, a: Address)
    requires PoolOk(s.limits, s.sys) && Accounted(s.place, s.sys.owner) && s.p == Releasing(x, 1, a) && a in s.place
    requires s.m.Selected? && s.m.unswap.Some? && s.m.unswap.value.x != x && s.m.swap == Some(Choice(x, 0))
    requires CanComeBack(s, s.m.unswap.value)
    requires x in s.txs && |s.txs[x].chunks| > 1 && s.txs[x].swappedMax == -1 && s.txs[x].chunks[0].None?
    ensures !SafeAfter(s)
  {
    hide SafeAfter, Load, Free, ChunkPool.Invariant, Slack, System.Unused;
    InvariantSlack(s.limits, s.sys);
    DiscardOk(s, a);
    DiscardSlack(s, a);
    FaultLater(s, ReleaseFree);
    var t := FlushFree(s).s;
    SystemMayReturn(t.sys, a);
    var os :| t.sys.Unused(os) && os != a;
    ReadGoesThrough(t, os);
    NullIsTakenAfterPlace(Load(t, os).s, x);
  }

  lemma FlushTooEarlyFails(s: State, x: Xid)
    requires Inv(s) && s.p.Ready? && Active(s, x) && FlushTooEarly(s, x)
    ensures !SafeAfter(FlushBegin(s, x).s)
  {
    hide PoolOk, Located, AllTxOk, CommittedOk, SafeAfter, Shape, FlushBegin;
    TxOkOf(s, x);
    FirstChunkResident(s.txs[x]);
    ChunkPlaced(s, x, 0);
    FirstIsReleased(s, x);
    var t := FirstReleased(s, x);
    var u := PendingUnswap(s.m);
    if u.None? {
      NullIsTaken(t, x);
    } else {
      PendingComesBack(s);
      if s.m.Loaded? {
        NullIsTakenAfterPlace(t, x);
      } else {
        assert t.place.Keys == s.place.Keys;
        NullIsTakenAfterRead(t, x, s.txs[x].chunks[0].value);
      }
    }
  }

  /** A flush may start exactly when the manager is not about to take the first chunk. */
  lemma WhenFlushIsSafe(s: State, x: Xid)
    requires Inv(s) && s.p.Ready? && Active(s, x)
    ensures SafeAfter(FlushBegin(s, x).s) <==> !FlushTooEarly(s, x)
  {
    hide Inv, SafeAfter;
    if FlushTooEarly(s, x) {
      FlushTooEarlyFails(s, x);
    } else {
      FlushKeeps(s, x);
      InvIsSafe(FlushBegin(s, x).s);
    }
  }

  // ------------------------------------------------------------ a remove that starts too early

  lemma RemoveNextChunks(s: State)
    requires ChunksOk(s) && s.p.Removing? && s.p.x in s.txs && s.p.k < |s.txs[s.p.x].chunks|
    ensures var r := RemoveFree(s);
            && r.Next? && ChunksOk(r.s)
            && Slack(s.limits, r.s.sys.pool) == Slack(s.limits, s.sys.pool) + (if s.txs[s.p.x].chunks[s.p.k].Some? then 1 else 0)
            && r.s == s.(sys := r.s.sys, place := r.s.place, p := Removing(s.p.x, s.p.k + 1))
            && r.s.place.Items <= s.place.Items
  {
    hide PoolOk, Accounted, Located, Free, Slack;
    var c := s.txs[s.p.x].chunks[s.p.k];
    if c.Some? {
      ChunkPlaced(s, s.p.x, s.p.k);
      DiscardOk(s, c.value);
      DiscardSlack(s, c.value);
    }
    var t := RemoveFree(s).s;
    if c.Some? {
      ChunkDropped(s.txs, s.p, s.m, s.place, t.p, t.m, c.value);
    } else {
      NothingMoved(s.txs, s.p, s.m, s.place, t.txs, t.p, t.m);
    }
  }

  /** A remove that has freed the first `target` chunks. */
  lemma {:induction false} RemoveUpTo(s: State, target: nat) returns (t: State)
    requires ChunksOk(s) && s.p.Removing? && s.p.x in s.txs && s.p.k <= target <= |s.txs[s.p.x].chunks|
    ensures ChunksOk(t) && t == s.(sys := t.sys, place := t.place, p := Removing(s.p.x, target))
    ensures Slack(s.limits, t.sys.pool) >= Slack(s.limits, s.sys.pool) && t.place.Items <= s.place.Items
    ensures !SafeAfter(t) ==> !SafeAfter(s)
    decreases target - s.p.k
  {
    hide ChunksOk, SafeAfter, RemoveFree, Slack;
    if s.p.k == target {
      t := s;
    } else {
      RemoveNextChunks(s);
      FaultLater(s, RemoveNext);
      t := RemoveUpTo(RemoveFree(s).s, target);
    }
  }

  /** The same past a chunk that is in memory, which leaves room for one more chunk. */
  lemma RemovePast(s: State, i: nat) returns (t: State)
    requires ChunksOk(s) && s.p.Removing? && s.p.x in s.txs && s.p.k <= i < |s.txs[s.p.x].chunks|
    requires s.txs[s.p.x].chunks[i].Some?
    ensures ChunksOk(t) && t == s.(sys := t.sys, place := t.place, p := Removing(s.p.x, i + 1))
    ensures Slack(s.limits, t.sys.pool) >= Slack(s.limits, s.sys.pool) + 1 && t.place.Items <= s.place.Items
    ensures !SafeAfter(t) ==> !SafeAfter(s)
  {
    hide ChunksOk, SafeAfter, RemoveFree, Slack;
    var u := RemoveUpTo(s, i);
    RemoveNextChunks(u);
    FaultLater(u, RemoveNext);
    t := RemoveFree(u).s;
  }

  lemma RemoveBeginChunks(s: State, x: Xid)
    requires Inv(s) && (s.p.Ready? || (s.p.Flushing? && s.p.x == x)) && Active(s, x)
    ensures var r := RemoveBegin(s, x);
            r.Next? && ChunksOk(r.s) && Slack(s.limits, r.s.sys.pool) >= 0
  {
    hide Accounted, Located, AllTxOk, CommittedOk, ManagerOk, ChunkPool.Invariant, Slack;
    var t := RemoveBegin(s, x).s;
    NothingMoved(s.txs, s.p, s.m, s.place, t.txs, t.p, t.m);
    InvariantSlack(s.limits, s.sys);
  }

  /** A chunk that was at a place which now holds none is gone. */
  lemma NoLongerPlaced(t: State, before: map<Address, Place>, a: Address, at: Place)
    requires ChunksOk(t) && t.place.Items <= before.Items && a in before && before[a] == at
    requires ChunkAt(t.txs, t.p, t.m, at).None?
    ensures a !in t.place
  {
    hide PoolOk, Accounted;
    forall b | b in t.place ensures b in before && before[b] == t.place[b] {
      assert (b, t.place[b]) in t.place.Items;
    }
  }

  /** The manager takes the chunk it chose, which the remove has freed. */
  lemma FreedIsTaken(t: State, c: Choice)
    requires t.m == Selected(None, Some(c)) && WouldDetach(t.txs, c) && c.index >= 0
    requires t.txs[c.x].chunks[c.index].Some? && t.txs[c.x].chunks[c.index].value !in t.place
    ensures !SafeAfter(t)
  {
    hide SafeAfter;
    FaultNow(t, Move.Take);
  }

  lemma FreedIsTakenAfterPlace(t: State, c: Choice)
    requires t.m.Loaded? && t.m.x != c.x && t.m.swap == Some(c) && CanComeBack(t, Choice(t.m.x, t.m.index))
    requires WouldDetach(t.txs, c) && c.index >= 0 && t.txs[c.x].chunks[c.index].Some?
    requires t.txs[c.x].chunks[c.index].value !in t.place && t.txs[c.x].chunks[c.index].value != t.m.chunk
    ensures !SafeAfter(t)
  {
    hide SafeAfter, Install;
    PlaceGoesThrough(t);
    FreedIsTaken(Install(t).s, c);
  }

  lemma FreedIsTakenAfterRead(t: State, c: Choice, os: Address)
    requires PoolOk(t.limits, t.sys) && t.sys.Unused(os) && Slack(t.limits, t.sys.pool) > 0
    requires t.m.Selected? && t.m.unswap.Some? && t.m.unswap.value.x != c.x && t.m.swap == Some(c)
    requires CanComeBack(t, t.m.unswap.value)
    requires WouldDetach(t.txs, c) && c.index >= 0 && t.txs[c.x].chunks[c.index].Some?
    requires t.txs[c.x].chunks[c.index].value !in t.place
    requires Get(t.limits, t.sys.pool, TRANSACTIONS, true, os).Granted?
             ==> t.txs[c.x].chunks[c.index].value != Acquired(t, true, os)
    ensures !SafeAfter(t)
  {
    hide SafeAfter, Load, ChunkPool.Invariant, Slack, Get, System.Unused;
    ReadGoesThrough(t, os);
    FreedIsTakenAfterPlace(Load(t, os).s, c);
  }

  /** Another module takes the chunk that the pool would hand out next. */
  lemma TakenAway(t: State, os: Address)
    requires PoolOk(t.limits, t.sys) && t.sys.Unused(os) && Slack(t.limits, t.sys.pool) > 1
    ensures Get(t.limits, t.sys.pool, TRANSACTIONS, true, os).Granted?
    ensures var r, a := OtherAcquire(t, MISC, true, os), Acquired(t, true, os);
            && r.Next? && PoolOk(t.limits, r.s.sys) && r.s == t.(sys := r.s.sys)
            && Slack(t.limits, r.s.sys.pool) > 0 && a in r.s.sys.owner
            && (os != a ==> r.s.sys.Unused(os))
            && (!SafeAfter(r.s) ==> !SafeAfter(t))
  {
    hide SafeAfter, ChunkPool.Invariant, Slack, Get;
    SlackGrants(t.limits, t.sys, MISC, os);
    SameChunk(t.limits, t.sys.pool, MISC, TRANSACTIONS, os);
    GetKeepsInvariant(t.limits, t.sys, MISC, true, os);
    FaultLater(t, OtherTake(MISC, true, os));
    var free := Get(t.limits, t.sys.pool, MISC, true, os).pool.free;
    forall i | 0 <= i < |free| ensures free[i] != os {
      assert free[i] in free;
    }
  }

  /** The manager first brings back a chunk of another transaction; whatever chunk it is granted,
      it can be another one than the chunk that was freed. */
  lemma FreedIsTakenLater(t: State, c: Choice)
    requires PoolOk(t.limits, t.sys) && Slack(t.limits, t.sys.pool) > 1
    requires t.m.Selected? && t.m.unswap.Some? && t.m.unswap.value.x != c.x && t.m.swap == Some(c)
    requires CanComeBack(t, t.m.unswap.value)
    requires WouldDetach(t.txs, c) && c.index >= 0 && t.txs[c.x].chunks[c.index].Some?
    requires t.txs[c.x].chunks[c.index].value !in t.place
    ensures !SafeAfter(t)
  {
    hide SafeAfter, ChunkPool.Invariant, Slack, Get, System.Unused, OtherAcquire;
    var a := t.txs[c.x].chunks[c.index].value;
    SystemMayReturn(t.sys, a);
    var os :| t.sys.Unused(os) && os != a;
    TakenAway(t, os);
    if Acquired(t, true, os) == a {
      var u := OtherAcquire(t, MISC, true, os).s;
      GetKeepsInvariant(u.limits, u.sys, TRANSACTIONS, true, os);
      FreedIsTakenAfterRead(u, c, os);
    } else {
      FreedIsTakenAfterRead(t, c, os);
    }
  }

  /** The last chunk of a transaction with something swapped out, or about to be, is in memory. */
  lemma LastResident(s: State, x: Xid)
    requires Inv(s) && (s.p.Ready? || (s.p.Flushing? && s.p.x == x)) && Active(s, x) && RemoveTooEarly(s, x)
    ensures var n := |s.txs[x].chunks|; n > 0 && s.txs[x].chunks[n - 1].Some?
  {
    hide ChunksOk, AllTxOk, CommittedOk, ParserOk;
    TxOkOf(s, x);
  }

  /** The manager chose a chunk of `x`; the remove frees it; the manager then takes it. */
  lemma RemoveBeforeDetachFails(s: State, x: Xid)
    requires Inv(s) && (s.p.Ready? || (s.p.Flushing? && s.p.x == x)) && Active(s, x)
    requires PendingSwap(s.m).Some? && PendingSwap(s.m).value.x == x && WouldDetach(s.txs, PendingSwap(s.m).value)
    requires PendingUnswap(s.m).Some? ==> PendingUnswap(s.m).value.x != x
    ensures !SafeAfter(RemoveBegin(s, x).s)
  {
    hide Inv, SafeAfter, ChunksOk, Slack, PoolOk;
    var c := PendingSwap(s.m).value;
    ChosenResident(s, x);
    if PendingUnswap(s.m).Some? { PendingComesBack(s); }
    var u := RemoveChosen(s, x, c.index);
    ChosenIsGone(s, x, c.index, u);
    if PendingUnswap(s.m).None? {
      FreedIsTaken(u, c);
    } else if s.m.Loaded? {
      FreedIsTakenAfterPlace(u, c);
    } else {
      FreedIsTakenLater(u, c);
    }
  }

  lemma ChosenResident(s: State, x: Xid)
    requires Inv(s) && (s.p.Ready? || (s.p.Flushing? && s.p.x == x)) && Active(s, x)
    requires PendingSwap(s.m).Some? && PendingSwap(s.m).value.x == x && WouldDetach(s.txs, PendingSwap(s.m).value)
    ensures ChunksOk(s)
    ensures var i := PendingSwap(s.m).value.index; i >= 0 && s.txs[x].chunks[i].Some?
  {
    hide AllTxOk, CommittedOk, ParserOk, ChunksOk, Shape;
    TxOkOf(s, x);
    ShapeDetached(s.txs[x], FlushNext(s.p, x), Retreating(s.p, x), PendingSwap(s.m).value.index);
  }

  /** The chunk chosen and the last one are freed; two more chunks can then be obtained. */
  lemma RemoveChosen(s: State, x: Xid, i: nat) returns (u: State)
    requires Inv(s) && (s.p.Ready? || (s.p.Flushing? && s.p.x == x)) && Active(s, x) && RemoveTooEarly(s, x)
    requires i < |s.txs[x].chunks| - 1 && s.txs[x].chunks[i].Some?
    ensures ChunksOk(u) && Slack(u.limits, u.sys.pool) > 1
    ensures u.p == Removing(x, |s.txs[x].chunks|) && u.m == s.m && u.files == s.files && u.place.Items <= s.place.Items
    ensures u.txs == s.txs[x := s.txs[x].(release := true)]
    ensures !SafeAfter(u) ==> !SafeAfter(RemoveBegin(s, x).s)
  {
    hide Inv, ChunksOk, SafeAfter, Slack, RemoveTooEarly;
    LastResident(s, x);
    RemoveBeginChunks(s, x);
    var t := RemovePast(RemoveBegin(s, x).s, i);
    u := RemovePast(t, |s.txs[x].chunks| - 1);
  }

  lemma ChosenIsGone(s: State, x: Xid, i: nat, u: State)
    requires ChunksOk(s) && Active(s, x) && (s.p.Ready? || s.p.Flushing?)
    requires i < |s.txs[x].chunks| && s.txs[x].chunks[i].Some?
    requires ChunksOk(u) && u.p == Removing(x, |s.txs[x].chunks|) && u.m == s.m && u.place.Items <= s.place.Items
    requires u.txs == s.txs[x := s.txs[x].(release := true)]
    ensures PoolOk(u.limits, u.sys) && s.txs[x].chunks[i].value !in u.place
    ensures s.m.Loaded? ==> s.txs[x].chunks[i].value != s.m.chunk
  {
    hide PoolOk, Accounted;
    ChunkPlaced(s, x, i);
    NoLongerPlaced(u, s.place, s.txs[x].chunks[i].value, At(x, i));
    assert s.m.Loaded? ==> ChunkAt(s.txs, s.p, s.m, WithManager) == Some(s.m.chunk);
  }

  /** The manager has read a page of `x` back; the remove empties the list; the manager then
      stores the chunk out of bounds. */
  lemma StoredOutOfBounds(s: State)
    requires s.m.Loaded? && s.m.x in s.txs && s.txs[s.m.x].chunks == []
    requires s.txs[s.m.x].swappedMin == s.m.index || s.txs[s.m.x].swappedMax == s.m.index
    ensures !SafeAfter(s)
  {
    hide SafeAfter;
    FaultNow(s, Move.Place);
  }

  /** All chunks are freed and the list is emptied; a chunk can then be obtained. */
  lemma RemoveAll(s: State, x: Xid) returns (t: State)
    requires Inv(s) && (s.p.Ready? || (s.p.Flushing? && s.p.x == x)) && Active(s, x) && RemoveTooEarly(s, x)
    ensures PoolOk(t.limits, t.sys) && Slack(t.limits, t.sys.pool) > 0
    ensures t.m == s.m && t.files == s.files && x in t.txs && t.txs[x] == s.txs[x].(chunks := [], release := true)
    ensures !SafeAfter(t) ==> !SafeAfter(RemoveBegin(s, x).s)
  {
    hide Inv, ChunksOk, SafeAfter, Slack, RemoveTooEarly, PoolOk, RemoveEnd;
    LastResident(s, x);
    RemoveBeginChunks(s, x);
    var n := |s.txs[x].chunks|;
    var u := RemovePast(RemoveBegin(s, x).s, n - 1);
    PoolOf(u);
    ListEmptied(u);
    t := RemoveEnd(u).s;
  }

  lemma ListEmptied(s: State)
    requires s.p.Removing? && s.p.x in s.txs && s.p.k == |s.txs[s.p.x].chunks|
    ensures var r := RemoveEnd(s);
            && r.Next? && r.s.limits == s.limits && r.s.sys == s.sys && r.s.m == s.m && r.s.files == s.files
            && s.p.x in r.s.txs && r.s.txs[s.p.x] == s.txs[s.p.x].(chunks := [])
            && (!SafeAfter(r.s) ==> !SafeAfter(s))
  {
    hide SafeAfter;
    FaultLater(s, RemoveLast);
  }

  lemma PoolOf(s: State)
    requires ChunksOk(s)
    ensures PoolOk(s.limits, s.sys)
  {
    hide PoolOk, Accounted, Located;
  }

  lemma RemoveBeforeInstallFails(s: State, x: Xid)
    requires Inv(s) && (s.p.Ready? || (s.p.Flushing? && s.p.x == x)) && Active(s, x)
    requires s.m.Loaded? && s.m.x == x
    ensures !SafeAfter(RemoveBegin(s, x).s)
  {
    hide Inv, SafeAfter, PoolOk, Slack;
    PendingComesBack(s);
    var t := RemoveAll(s, x);
    StoredOutOfBounds(t);
  }

  /** The same when the page is still to be read: the remove itself leaves room for the chunk. */
  lemma RemoveBeforeReadFails(s: State, x: Xid)
    requires Inv(s) && (s.p.Ready? || (s.p.Flushing? && s.p.x == x)) && Active(s, x)
    requires s.m.Selected? && s.m.unswap.Some? && s.m.unswap.value.x == x
    ensures !SafeAfter(RemoveBegin(s, x).s)
  {
    hide Inv, SafeAfter, ChunkPool.Invariant, Slack, Get, System.Unused;
    PendingComesBack(s);
    var t := RemoveAll(s, x);
    SystemMayReturn(t.sys, 0);
    var os :| t.sys.Unused(os) && os != 0;
    SlackGrants(t.limits, t.sys, TRANSACTIONS, os);
    FaultLater(t, Read(os));
    StoredOutOfBounds(Load(t, os).s);
  }

  /** A remove may start exactly when the manager has no decision about the transaction that it
      would still carry out. */
  lemma WhenRemoveIsSafe(s: State, x: Xid)
    requires Inv(s) && (s.p.Ready? || (s.p.Flushing? && s.p.x == x)) && Active(s, x)
    ensures SafeAfter(RemoveBegin(s, x).s) <==> !RemoveTooEarly(s, x)
  {
    hide Inv, SafeAfter;
    if !RemoveTooEarly(s, x) {
      RemoveKeeps(s, x);
      InvIsSafe(RemoveBegin(s, x).s);
    } else if PendingUnswap(s.m).Some? && PendingUnswap(s.m).value.x == x {
      if s.m.Loaded? {
        RemoveBeforeInstallFails(s, x);
      } else {
        RemoveBeforeReadFails(s, x);
      }
    } else {
      RemoveBeforeDetachFails(s, x);
    }
  }

  // ------------------------------------------------------------ the conflicting states are reached

  /** A transaction grows to two chunks and the manager picks the first one. */
  function GrowTwiceAndChoose(os: Address): seq<Move> {
    [Init(1)] + ([Grow(1, os)] + ([Append] + ([Grow(1, os)] + ([Append] + ([Choose(Some(1))] + [])))))
  }

  /** One growth of transaction 1 while chunks are plentiful. */
  function Grown(s: State, os: Address): State {
    var r := GrowAcquire(s, 1, os);
    if r.Next? && r.s.p.Growing? && GrowAppend(r.s).Next? then GrowAppend(r.s).s else s
  }

  lemma GrownBy(s: State, os: Address, es: seq<Move>)
    requires s.p.Ready? && Active(s, 1) && s.sys.Unused(os)
    requires |s.sys.pool.free| > Reserved(s.limits, s.sys.pool.used, false)
    ensures var t := Grown(s, os);
            && t.limits == s.limits && t.m == s.m && t.flushXid == s.flushXid && t.shrinkXid == s.shrinkXid && t.p.Ready?
            && Active(t, 1) && t.txs[1].swappedMax == s.txs[1].swappedMax && |t.txs[1].chunks| == |s.txs[1].chunks| + 1
            && t.sys.Unused(os) && |t.sys.pool.free| == |s.sys.pool.free| - 1
            && t.sys.pool.used == s.sys.pool.used.(transactions := s.sys.pool.used.transactions + 1)
    ensures Run(s, [Grow(1, os)] + ([Append] + es)) == Run(Grown(s, os), es)
  {
    hide Run;
    var u := GrowAcquire(s, 1, os).s;
    assert Acquired(s, false, os) == s.sys.pool.free[|s.sys.pool.free| - 1];
    RunFirst(s, Grow(1, os), [Append] + es);
    RunFirst(u, Append, es);
  }

  lemma BeginTransaction(s: State, es: seq<Move>)
    requires s.p.Ready? && 1 !in s.txs
    ensures Run(s, [Init(1)] + es) == Run(InitTx(s, 1).s, es)
  {
    hide Run;
    RunFirst(s, Init(1), es);
  }

  lemma ChosenFrom(s: State)
    requires s.p.Ready? && Active(s, 1) && s.m.Idle? && s.flushXid == NO_XID && s.shrinkXid == NO_XID
    requires |s.txs[1].chunks| == 2 && s.txs[1].swappedMax == -1
    ensures Run(s, [Choose(Some(1))] + []) == Next(s.(m := Selected(None, Some(Choice(1, 0)))))
  {
    hide Run;
    var t := Select(s, Some(1)).s;
    RunFirst(s, Choose(Some(1)), []);
    RunNothing(t);
  }

  lemma RunNothing(s: State)
    ensures Run(s, []) == Next(s)
  {
  }

  /** Both conditions matter: such a state, in which neither a flush nor a remove may start, is
      reached. */
  lemma TooEarlyIsReachable(l: Limits, chunks: seq<Address>, os: Address)
    requires l.Configured() && l.unswapMin + l.readMin + l.writeMin + 2 <= l.min
    requires Distinct(chunks) && |chunks| == l.min && Initial(chunks).Unused(os)
    ensures var r := Run(Start(l, chunks), GrowTwiceAndChoose(os));
            && r.Next? && r.s.p.Ready? && Active(r.s, 1) && PendingUnswap(r.s.m).None?
            && r.s.m == Selected(None, Some(Choice(1, 0))) && r.s.sys.Unused(os)
            && FlushTooEarly(r.s, 1) && RemoveTooEarly(r.s, 1)
  {
    hide Run, Distinct, Grown;
    var last := [Choose(Some(1))] + [];
    var second := [Grow(1, os)] + ([Append] + last);
    var first := [Grow(1, os)] + ([Append] + second);
    var s0 := Start(l, chunks);
    BeginTransaction(s0, first);
    var s1 := InitTx(s0, 1).s;
    GrownBy(s1, os, second);
    var s2 := Grown(s1, os);
    GrownBy(s2, os, last);
    ChosenFrom(Grown(s2, os));
  }

  lemma {:induction false} RunBoth(s: State, es: seq<Move>, fs: seq<Move>)
    requires Run(s, es).Next?
    ensures Run(s, es + fs) == Run(Run(s, es).s, fs)
    decreases |es|
  {
    hide Step, SwapInvariant.Proper;
    if es == [] {
      assert es + fs == fs;
    } else {
      assert (es + fs)[0] == es[0] && (es + fs)[1..] == es[1..] + fs;
      if SwapInvariant.Proper(s, es[0]) && Step(s, es[0]).Next? {
        RunBoth(Step(s, es[0]).s, es[1..], fs);
      } else {
        RunBoth(s, es[1..], fs);
      }
    }
  }

  lemma StepSound(s: State, e: Move)
    requires Inv(s) && SwapInvariant.Proper(s, e)
    ensures var r := Step(s, e); !r.Fault? && (r.Next? ==> Inv(r.s))
  {
    hide Inv, SwapInvariant.Proper, Step, View, Apply, OpOf;
    MoveSound(s, e);
  }

  /** The manager takes the first chunk, as it chose. */
  lemma FirstTaken(s: State)
    requires Inv(s) && s.p.Ready? && Active(s, 1) && s.m == Selected(None, Some(Choice(1, 0))) && WouldDetach(s.txs, Choice(1, 0))
    ensures SwapInvariant.Proper(s, Move.Take) && Step(s, Move.Take) == Detach(s)
    ensures var r := Detach(s);
            && r.Next? && Inv(r.s) && r.s.p == s.p && r.s.sys == s.sys && r.s.m.Detached? && r.s.m.x == 1 && r.s.m.index == 0
            && Active(r.s, 1) && r.s.txs[1].swappedMin == 0
  {
    hide ChunksOk, AllTxOk, CommittedOk, ParserOk, Shape;
    TxOkOf(s, 1);
    FirstChunkResident(s.txs[1]);
    StepSound(s, Move.Take);
  }

  /** It writes the chunk out and lets go of it. */
  lemma FirstWritten(s: State, es: seq<Move>)
    requires Inv(s) && s.p.Ready? && Active(s, 1) && s.m.Detached? && s.m.index == 0 && s.txs[1].swappedMin == 0
    ensures WriteChunk(s).Next? && WriteChunk(s).s.m.Written? && FinishSwap(WriteChunk(s).s).Next?
    ensures var t := FinishSwap(WriteChunk(s).s).s;
            && Inv(t) && t.p == s.p && t.sys == s.sys && t.m == Returning(s.m.chunk) && t.txs == s.txs
            && Run(s, [Store] + ([Finish] + es)) == Run(t, es)
  {
    hide ChunksOk, AllTxOk, CommittedOk, Run;
    StepSound(s, Store);
    var t := WriteChunk(s).s;
    StepSound(t, Finish);
    RunFirst(s, Store, [Finish] + es);
    RunFirst(t, Finish, es);
  }

  /** The chunk goes back to the pool, so that another one can be obtained. */
  lemma FirstGiven(s: State, os: Address)
    requires Inv(s) && s.p.Ready? && Active(s, 1) && s.m.Returning? && s.txs[1].swappedMin == 0 && s.sys.Unused(os)
    ensures SwapInvariant.Proper(s, Move.Give) && Step(s, Move.Give) == ReturnChunk(s)
    ensures var r := ReturnChunk(s);
            && r.Next? && Inv(r.s) && r.s.p == s.p && r.s.m == Idle && r.s.txs == s.txs
            && Slack(r.s.limits, r.s.sys.pool) > 0 && r.s.sys.Unused(os)
  {
    hide AllTxOk, CommittedOk, ParserOk, ManagerOk, Slack, ChunkPool.Invariant, Located;
    StepSound(s, Move.Give);
    DiscardSlack(s, s.m.chunk);
    InvariantSlack(s.limits, s.sys);
    ReturnedKnown(s);
  }

  lemma ReturnedKnown(s: State)
    requires ChunksOk(s) && s.m.Returning?
    ensures s.m.chunk in s.sys.owner
  {
    hide PoolOk;
    assert ChunkAt(s.txs, s.p, s.m, WithManager) == Some(s.m.chunk);
    assert s.m.chunk in Holdings(s.sys.owner, TRANSACTIONS);
  }

  /** The transaction is flushed, and the manager decides to bring the chunk back. */
  lemma FlushedAndChosen(s: State, es: seq<Move>)
    requires Inv(s) && s.p.Ready? && Active(s, 1) && s.m.Idle? && s.txs[1].swappedMin == 0
    ensures var t := s.(flushXid := 1, p := Flushing(1, 0), m := Selected(Some(Choice(1, 0)), None));
            Inv(t) && Run(s, [Flush(1)] + ([Choose(None)] + es)) == Run(t, es)
  {
    hide ChunksOk, AllTxOk, CommittedOk, ManagerOk, Run;
    StepSound(s, Flush(1));
    var t := FlushBegin(s, 1).s;
    StepSound(t, Choose(None));
    RunFirst(s, Flush(1), [Choose(None)] + es);
    RunFirst(t, Choose(None), es);
  }

  /** The chunk chosen is written out, the transaction is flushed, and the manager decides to
      bring the chunk back. */
  function WriteOutAndFlush(es: seq<Move>): seq<Move> {
    [Move.Take] + ([Store] + ([Finish] + ([Move.Give] + ([Flush(1)] + ([Choose(None)] + es)))))
  }

  lemma ReadBackPending(s: State, os: Address, es: seq<Move>) returns (t: State)
    requires Inv(s) && s.p.Ready? && Active(s, 1) && s.m == Selected(None, Some(Choice(1, 0))) && WouldDetach(s.txs, Choice(1, 0))
    requires s.sys.Unused(os)
    ensures Inv(t) && t.p == Flushing(1, 0) && Active(t, 1) && t.m == Selected(Some(Choice(1, 0)), None)
    ensures t.sys.Unused(os) && Slack(t.limits, t.sys.pool) > 0
    ensures Run(s, WriteOutAndFlush(es)) == Run(t, es)
  {
    hide Inv, Run, System.Unused, Slack, Detach, WriteChunk, FinishSwap, ReturnChunk, SwapInvariant.Proper, Step, WouldDetach;
    var flush := [Flush(1)] + ([Choose(None)] + es);
    FirstTaken(s);
    RunFirst(s, Move.Take, [Store] + ([Finish] + ([Move.Give] + flush)));
    var t1 := Detach(s).s;
    FirstWritten(t1, [Move.Give] + flush);
    var t2 := FinishSwap(WriteChunk(t1).s).s;
    FirstGiven(t2, os);
    RunFirst(t2, Move.Give, flush);
    var t3 := ReturnChunk(t2).s;
    FlushedAndChosen(t3, es);
    t := t3.(flushXid := 1, p := Flushing(1, 0), m := Selected(Some(Choice(1, 0)), None));
  }

  lemma ChunksOf(s: State)
    requires Inv(s)
    ensures ChunksOk(s)
  {
    hide ChunksOk, AllTxOk, ParserOk, CommittedOk, ManagerOk;
  }

  lemma ReadBackDone(t: State, os: Address)
    requires Inv(t) && t.p == Flushing(1, 0) && Active(t, 1) && t.m == Selected(Some(Choice(1, 0)), None)
    requires t.sys.Unused(os) && Slack(t.limits, t.sys.pool) > 0
    ensures var r := Run(t, [Read(os)] + []);
            r.Next? && r.s.p == t.p && Active(r.s, 1) && r.s.m.Loaded? && r.s.m.x == 1
  {
    hide Inv, Run, Slack, System.Unused, Load, SafeAfter, Get, PoolOk;
    ChunksOf(t);
    PoolOf(t);
    PendingComesBack(t);
    ReadGoesThrough(t, os);
    RunFirst(t, Read(os), []);
    RunNothing(Load(t, os).s);
  }

  /** The states in which the manager is about to bring a chunk of the flushed transaction back,
      before and after it has read the page, are reached as well; no remove may start there. */
  lemma ReadBackIsReachable(l: Limits, chunks: seq<Address>, os: Address)
    requires l.Configured() && l.unswapMin + l.readMin + l.writeMin + 2 <= l.min
    requires Distinct(chunks) && |chunks| == l.min && Initial(chunks).Unused(os)
    ensures var r := Run(Start(l, chunks), GrowTwiceAndChoose(os) + WriteOutAndFlush([]));
            && r.Next? && r.s.p == Flushing(1, 0) && Active(r.s, 1)
            && r.s.m == Selected(Some(Choice(1, 0)), None) && RemoveTooEarly(r.s, 1)
    ensures var r := Run(Start(l, chunks), GrowTwiceAndChoose(os) + WriteOutAndFlush([Read(os)] + []));
            && r.Next? && r.s.p == Flushing(1, 0) && Active(r.s, 1)
            && r.s.m.Loaded? && r.s.m.x == 1 && RemoveTooEarly(r.s, 1)
  {
    hide Run, Distinct, Inv, System.Unused, Slack, GrowTwiceAndChoose, WriteOutAndFlush;
    TooEarlyIsReachable(l, chunks, os);
    StartOk(l, chunks);
    RunSound(Start(l, chunks), GrowTwiceAndChoose(os));
    var s := Run(Start(l, chunks), GrowTwiceAndChoose(os)).s;
    RunBoth(Start(l, chunks), GrowTwiceAndChoose(os), WriteOutAndFlush([]));
    var t := ReadBackPending(s, os, []);
    RunNothing(t);
    RunBoth(Start(l, chunks), GrowTwiceAndChoose(os), WriteOutAndFlush([Read(os)] + []));
    var u := ReadBackPending(s, os, [Read(os)] + []);
    ReadBackDone(u, os);
  }
}
