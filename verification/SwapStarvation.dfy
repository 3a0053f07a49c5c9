/** A run after which the parser waits for ever although a chunk can still be obtained: an earlier
    decision of the memory manager uses it up. */
module SwapStarvation {
  import opened Basics
  import opened ChunkPool
  import opened SwapProtocol
  import opened SwapInvariant
  import opened SwapFrames
  import opened SwapRuns
  import opened SwapConflicts
  import opened SwapProgress

  ghost predicate Reaches(s: State, t: State) {
    exists es :: Run(s, es) == Next(t)
  }

  lemma ReachesNow(s: State)
    ensures Reaches(s, s)
  {
    assert Run(s, []) == Next(s);
  }

  lemma ReachesLater(s: State, t: State, u: State)
    requires Reaches(s, t) && Reaches(t, u)
    ensures Reaches(s, u)
  {
    hide Run;
    var es :| Run(s, es) == Next(t);
    var fs :| Run(t, fs) == Next(u);
    RunBoth(s, es, fs);
    assert Run(s, es + fs) == Next(u);
  }

  lemma ReachesStep(s: State, e: Move, u: State)
    requires SwapInvariant.Proper(s, e) && Step(s, e).Next? && Reaches(Step(s, e).s, u)
    ensures Reaches(s, u)
  {
    hide Run, SwapInvariant.Proper, Step;
    var fs :| Run(Step(s, e).s, fs) == Next(u);
    RunFirst(s, e, fs);
    assert Run(s, [e] + fs) == Next(u);
  }

  lemma ReachesSound(s: State, t: State)
    requires Inv(s) && Reaches(s, t)
    ensures Inv(t)
  {
    hide Inv, Run;
    var es :| Run(s, es) == Next(t);
    RunSound(s, es);
  }

  // ------------------------------------------------------------ a full pool

  /** All chunks that may be allocated are, so that every request is served from the stack. */
  ghost predicate Full(s: State, os: Address) {
    Inv(s) && s.limits.min == s.limits.max && s.sys.Unused(os)
  }

  lemma FullServesFromStack(s: State, m: Memory, os: Address)
    requires Full(s, os) && m != READER && m != BUILDER
    ensures var r := Get(s.limits, s.sys.pool, m, true, os);
            && (r.Granted? <==> Slack(s.limits, s.sys.pool) > 0)
            && (r.Granted? ==> && Slack(s.limits, r.pool) == Slack(s.limits, s.sys.pool) - 1
                               && System(r.pool, s.sys.owner[r.chunk := m]).Unused(os))
  {
    hide Accounted, Located, AllTxOk, CommittedOk, ParserOk, ManagerOk, Conserved, Unmet;
    SlackGrants(s.limits, s.sys, m, os);
    var r := Get(s.limits, s.sys.pool, m, true, os);
    if r.Granted? {
      GetCounts(s.limits, s.sys.pool, m, true, os);
      FromStack(s.limits, s.sys.pool, m, os);
      forall i | 0 <= i < |r.pool.free| ensures r.pool.free[i] != os {
        assert r.pool.free[i] in r.pool.free;
      }
    }
  }

  lemma FromStack(l: Limits, p: Pool, m: Memory, os: Address)
    requires p.owned == l.max && Get(l, p, m, true, os).Granted?
    ensures Get(l, p, m, true, os).chunk in p.free
  {
    hide Usage.With, Usage.Of, BelowMinimum, Reserved;
  }

  lemma {:induction false} TakeDown(s: State, os: Address) returns (t: State)
    requires Full(s, os) && Slack(s.limits, s.sys.pool) >= 1
    ensures Full(t, os) && Reaches(s, t) && t == s.(sys := t.sys) && Slack(t.limits, t.sys.pool) == 1
    decreases Slack(s.limits, s.sys.pool)
  {
    hide Inv, Reaches, Slack, Get, System.Unused;
    if Slack(s.limits, s.sys.pool) == 1 {
      t := s;
      ReachesNow(s);
    } else {
      var e := OtherTake(MISC, true, os);
      FullServesFromStack(s, MISC, os);
      StepSound(s, e);
      t := TakeDown(OtherAcquire(s, MISC, true, os).s, os);
      ReachesStep(s, e, t);
    }
  }

  // ------------------------------------------------------------ one transaction

  /** Transaction 1 has `n` chunks, the first `k` of them swapped out, and both threads are idle. */
  ghost predicate Alone(s: State, n: nat, k: nat, os: Address) {
    Full(s, os) && s.p.Ready? && s.m.Idle? && Active(s, 1) && |s.txs[1].chunks| == n && s.txs[1].swappedMax == k - 1
  }

  lemma ChosenNext(s: State, n: nat, k: nat, os: Address)
    requires Alone(s, n, k, os) && k + 1 < n
    ensures SwapInvariant.Proper(s, Choose(Some(1)))
    ensures Step(s, Choose(Some(1))) == Next(s.(m := Selected(None, Some(Choice(1, k)))))
    ensures Full(s.(m := Selected(None, Some(Choice(1, k)))), os)
  {
    hide ChunksOk, AllTxOk, CommittedOk, ManagerOk, System.Unused;
    StepSound(s, Choose(Some(1)));
  }

  lemma TakenNext(s: State, n: nat, k: nat, os: Address)
    requires Full(s, os) && s.p.Ready? && Active(s, 1) && |s.txs[1].chunks| == n && s.txs[1].swappedMax == k - 1 && k + 1 < n
    requires s.m == Selected(None, Some(Choice(1, k)))
    ensures SwapInvariant.Proper(s, Move.Take) && Step(s, Move.Take) == Detach(s)
    ensures var r := Detach(s);
            && r.Next? && Full(r.s, os) && r.s.limits == s.limits && r.s.p == s.p && r.s.sys == s.sys
            && r.s.m.Detached? && r.s.m.x == 1 && r.s.m.index == k
            && Active(r.s, 1) && |r.s.txs[1].chunks| == n && r.s.txs[1].swappedMax == k
  {
    hide ChunksOk, AllTxOk, CommittedOk, ParserOk, ManagerOk, System.Unused;
    StepSound(s, Move.Take);
  }

  lemma StoredNext(s: State, os: Address)
    requires Full(s, os) && s.p.Ready? && s.m.Detached? && s.m.index >= 0
    ensures SwapInvariant.Proper(s, Store) && Step(s, Store) == WriteChunk(s) && WriteChunk(s).Next?
    ensures var t := WriteChunk(s).s;
            && t.m.Written? && SwapInvariant.Proper(t, Finish) && Step(t, Finish) == FinishSwap(t) && FinishSwap(t).Next?
            && var u := FinishSwap(t).s;
               Full(u, os) && u.limits == s.limits && u.p == s.p && u.sys == s.sys && u.m == Returning(s.m.chunk) && u.txs == s.txs
  {
    hide ChunksOk, AllTxOk, CommittedOk, System.Unused;
    StepSound(s, Store);
    StepSound(WriteChunk(s).s, Finish);
    NotShrinking(s);
  }

  lemma NotShrinking(s: State)
    requires Inv(s) && s.p.Ready? && s.m.Detached?
    ensures s.shrinkXid == NO_XID != s.m.x
  {
    hide ChunksOk, AllTxOk, CommittedOk;
  }

  lemma GivenNext(s: State, os: Address)
    requires Full(s, os) && s.p.Ready? && s.m.Returning?
    ensures SwapInvariant.Proper(s, Move.Give) && Step(s, Move.Give) == ReturnChunk(s)
    ensures var r := ReturnChunk(s);
            && r.Next? && Full(r.s, os) && r.s.limits == s.limits && r.s.p == s.p && r.s.m.Idle? && r.s.txs == s.txs
            && Slack(r.s.limits, r.s.sys.pool) == Slack(s.limits, s.sys.pool) + 1
  {
    hide AllTxOk, CommittedOk, ParserOk, ManagerOk, Slack, ChunkPool.Invariant, Located;
    StepSound(s, Move.Give);
    DiscardSlack(s, s.m.chunk);
    ReturnedKnown(s);
  }

  lemma SwapNext(s: State, n: nat, k: nat, os: Address) returns (t: State)
    requires Alone(s, n, k, os) && k + 1 < n
    ensures Alone(t, n, k + 1, os) && Reaches(s, t) && Slack(t.limits, t.sys.pool) == Slack(s.limits, s.sys.pool) + 1
  {
    hide Full, Reaches, Slack, Step, SwapInvariant.Proper, Detach, WriteChunk, FinishSwap, ReturnChunk;
    ChosenNext(s, n, k, os);
    var s1 := s.(m := Selected(None, Some(Choice(1, k))));
    TakenNext(s1, n, k, os);
    var s2 := Detach(s1).s;
    StoredNext(s2, os);
    var s3 := WriteChunk(s2).s;
    var s4 := FinishSwap(s3).s;
    GivenNext(s4, os);
    t := ReturnChunk(s4).s;
    ReachesNow(t);
    ReachesStep(s4, Move.Give, t);
    ReachesStep(s3, Finish, t);
    ReachesStep(s2, Store, t);
    ReachesStep(s1, Move.Take, t);
    ReachesStep(s, Choose(Some(1)), t);
  }

  // ------------------------------------------------------------ the shrink

  lemma Popped1(s: State, n: nat, os: Address)
    requires n >= 2 && Alone(s, n, n - 1, os)
    ensures SwapInvariant.Proper(s, Pop(1)) && Step(s, Pop(1)) == ShrinkPop(s, 1)
    ensures var r := ShrinkPop(s, 1);
            && r.Next? && Full(r.s, os) && r.s.limits == s.limits && r.s.sys == s.sys && r.s.p.Popped? && r.s.p.x == 1 && r.s.m.Idle?
            && Active(r.s, 1) && |r.s.txs[1].chunks| == n - 1 && r.s.txs[1].swappedMax == n - 2
  {
    hide ChunksOk, AllTxOk, CommittedOk, ManagerOk, System.Unused, ParserOk;
    StepSound(s, Pop(1));
  }

  lemma PoppedFreed(s: State, os: Address)
    requires Full(s, os) && s.p.Popped? && s.m.Idle?
    ensures SwapInvariant.Proper(s, PopFree) && Step(s, PopFree) == ShrinkFree(s)
    ensures var r := ShrinkFree(s);
            && r.Next? && Full(r.s, os) && r.s.limits == s.limits && r.s.p == Shrinking(s.p.x) && r.s.m.Idle? && r.s.txs == s.txs
            && Slack(r.s.limits, r.s.sys.pool) == Slack(s.limits, s.sys.pool) + 1
  {
    hide AllTxOk, CommittedOk, ParserOk, ManagerOk, Slack, ChunkPool.Invariant, Located;
    StepSound(s, PopFree);
    DiscardSlack(s, s.p.chunk);
    PoppedKnown(s);
  }

  lemma PoppedKnown(s: State)
    requires ChunksOk(s) && s.p.Popped?
    ensures s.p.chunk in s.sys.owner
  {
    hide PoolOk;
    assert ChunkAt(s.txs, s.p, s.m, WithParser) == Some(s.p.chunk);
    assert s.p.chunk in Holdings(s.sys.owner, TRANSACTIONS);
  }

  /** The parser waits for chunk `n - 1`, and the chunks up to it are swapped out. */
  ghost predicate Shrunk(s: State, n: nat, k: nat, os: Address) {
    Full(s, os) && s.p == AwaitingLast(1) && s.m.Idle? && Active(s, 1) && |s.txs[1].chunks| == n && s.txs[1].swappedMax == k - 1
  }

  lemma LockedNext(s: State, n: nat, os: Address)
    requires Full(s, os) && s.p == Shrinking(1) && s.m.Idle? && Active(s, 1) && |s.txs[1].chunks| == n && s.txs[1].swappedMax == n - 1 && n >= 1
    ensures SwapInvariant.Proper(s, Lock) && Step(s, Lock) == ShrinkLock(s)
    ensures var r := ShrinkLock(s); r.Next? && Shrunk(r.s, n, n, os) && r.s.limits == s.limits && r.s.sys == s.sys && Waits(r.s)
  {
    hide ChunksOk, AllTxOk, CommittedOk, ManagerOk, System.Unused, ParserOk;
    StepSound(s, Lock);
    TxOkOf(s, 1);
  }

  lemma ShrinkToSwapped(s: State, n: nat, os: Address) returns (t: State)
    requires n >= 2 && Alone(s, n, n - 1, os)
    ensures Shrunk(t, n - 1, n - 1, os) && Waits(t) && Reaches(s, t)
    ensures Slack(t.limits, t.sys.pool) == Slack(s.limits, s.sys.pool) + 1
  {
    hide Full, Reaches, Slack, Step, SwapInvariant.Proper, ShrinkPop, ShrinkFree, ShrinkLock, Waits;
    Popped1(s, n, os);
    var s1 := ShrinkPop(s, 1).s;
    PoppedFreed(s1, os);
    var s2 := ShrinkFree(s1).s;
    LockedNext(s2, n - 1, os);
    t := ShrinkLock(s2).s;
    ReachesNow(t);
    ReachesStep(s2, Lock, t);
    ReachesStep(s1, PopFree, t);
    ReachesStep(s, Pop(1), t);
  }

  // ------------------------------------------------------------ the manager, twice

  /** Every choice while the parser is in the shrink is the last chunk swapped out, also when the
      parser does not wait for that one any more. */
  lemma ChosenBack(s: State, n: nat, k: nat, os: Address)
    requires Shrunk(s, n, k, os) && k >= 1
    ensures SwapInvariant.Proper(s, Choose(None))
    ensures Step(s, Choose(None)) == Next(s.(m := Selected(Some(Choice(1, k - 1)), None)))
    ensures Full(s.(m := Selected(Some(Choice(1, k - 1)), None)), os)
  {
    hide ChunksOk, AllTxOk, CommittedOk, ManagerOk, System.Unused;
    StepSound(s, Choose(None));
  }

  lemma ReadBack(s: State, n: nat, k: nat, os: Address)
    requires Full(s, os) && s.p == AwaitingLast(1) && Active(s, 1) && |s.txs[1].chunks| == n && s.txs[1].swappedMax == k - 1
    requires s.m == Selected(Some(Choice(1, k - 1)), None) && k >= 2 && Slack(s.limits, s.sys.pool) >= 1
    ensures SwapInvariant.Proper(s, Read(os)) && Step(s, Read(os)) == Load(s, os)
    ensures var r := Load(s, os);
            && r.Next? && Full(r.s, os) && r.s.limits == s.limits && r.s.p == s.p && r.s.txs == s.txs
            && r.s.m.Loaded? && r.s.m.x == 1 && r.s.m.index == k - 1 && r.s.m.swap.None?
            && Slack(r.s.limits, r.s.sys.pool) == Slack(s.limits, s.sys.pool) - 1
  {
    hide Inv, System.Unused, Slack, Get, SafeAfter, PoolOk;
    FullServesFromStack(s, TRANSACTIONS, os);
    StepSound(s, Read(os));
    PendingComesBack(s);
    ChunksOf(s);
    PoolOf(s);
    ReadGoesThrough(s, os);
  }

  lemma PlacedBack(s: State, n: nat, k: nat, os: Address)
    requires Full(s, os) && s.p == AwaitingLast(1) && Active(s, 1) && |s.txs[1].chunks| == n && s.txs[1].swappedMax == k - 1
    requires s.m.Loaded? && s.m.x == 1 && s.m.index == k - 1 && s.m.swap.None? && k >= 2
    ensures SwapInvariant.Proper(s, Move.Place) && Step(s, Move.Place) == Install(s)
    ensures var r := Install(s); r.Next? && Shrunk(r.s, n, k - 1, os) && r.s.limits == s.limits && r.s.sys == s.sys
  {
    hide ChunksOk, AllTxOk, CommittedOk, ManagerOk, System.Unused, ParserOk;
    StepSound(s, Move.Place);
    TxOkOf(s, 1);
  }

  lemma BringBack(s: State, n: nat, k: nat, os: Address) returns (t: State)
    requires Shrunk(s, n, k, os) && k >= 2 && Slack(s.limits, s.sys.pool) >= 1
    ensures Shrunk(t, n, k - 1, os) && Reaches(s, t) && Slack(t.limits, t.sys.pool) == Slack(s.limits, s.sys.pool) - 1
  {
    hide Full, Reaches, Slack, Step, SwapInvariant.Proper, Load, Install;
    ChosenBack(s, n, k, os);
    var s1 := s.(m := Selected(Some(Choice(1, k - 1)), None));
    ReadBack(s1, n, k, os);
    var s2 := Load(s1, os).s;
    PlacedBack(s2, n, k, os);
    t := Install(s2).s;
    ReachesNow(t);
    ReachesStep(s2, Move.Place, t);
    ReachesStep(s1, Read(os), t);
    ReachesStep(s, Choose(None), t);
  }

  // ------------------------------------------------------------ the flush

  lemma WokenUp(s: State, n: nat, k: nat, os: Address)
    requires Full(s, os) && s.p == AwaitingLast(1) && Active(s, 1) && |s.txs[1].chunks| == n && s.txs[1].swappedMax == k - 1
    requires s.m == Selected(Some(Choice(1, k - 1)), None) && 1 <= k < n
    ensures SwapInvariant.Proper(s, Wake) && Step(s, Wake) == ShrinkWake(s)
    ensures var r := ShrinkWake(s);
            && r.Next? && Full(r.s, os) && r.s.limits == s.limits && r.s.sys == s.sys && r.s.p.Ready? && r.s.m == s.m && r.s.txs == s.txs
  {
    hide ChunksOk, AllTxOk, CommittedOk, ManagerOk, System.Unused, ParserOk;
    StepSound(s, Wake);
  }

  lemma FlushedNext(s: State, n: nat, k: nat, os: Address)
    requires Full(s, os) && s.p.Ready? && Active(s, 1) && |s.txs[1].chunks| == n && s.txs[1].swappedMax == k - 1
    requires s.m == Selected(Some(Choice(1, k - 1)), None) && 2 <= k < n
    ensures SwapInvariant.Proper(s, Flush(1)) && Step(s, Flush(1)) == FlushBegin(s, 1)
    ensures var t := FlushBegin(s, 1).s;
            Full(t, os) && t.limits == s.limits && t.sys == s.sys && Waits(t) && Awaited(t) == Choice(1, 0) && t.m == s.m
  {
    hide ChunksOk, AllTxOk, CommittedOk, ManagerOk, System.Unused, ParserOk;
    StepSound(s, Flush(1));
    TxOkOf(s, 1);
  }

  /** The manager has decided once more; the parser goes on, and waits again, for another chunk. */
  lemma WaitAgain(s: State, n: nat, k: nat, os: Address) returns (t: State)
    requires Shrunk(s, n, k, os) && 2 <= k < n
    ensures Full(t, os) && Reaches(s, t) && t.limits == s.limits && t.sys == s.sys
    ensures Waits(t) && Awaited(t) == Choice(1, 0) && t.m == Selected(Some(Choice(1, k - 1)), None)
  {
    hide Full, Reaches, Step, SwapInvariant.Proper, ShrinkWake, Waits;
    ChosenBack(s, n, k, os);
    var s1 := s.(m := Selected(Some(Choice(1, k - 1)), None));
    WokenUp(s1, n, k, os);
    var s2 := ShrinkWake(s1).s;
    FlushedNext(s2, n, k, os);
    t := FlushBegin(s2, 1).s;
    ReachesNow(t);
    ReachesStep(s2, Flush(1), t);
    ReachesStep(s1, Wake, t);
    ReachesStep(s, Choose(None), t);
  }

  // ------------------------------------------------------------ from the beginning

  lemma GrowMore(s: State, os: Address) returns (t: State)
    requires s.p.Ready? && Active(s, 1) && s.sys.Unused(os) && |s.sys.pool.free| > Reserved(s.limits, s.sys.pool.used, false)
    ensures Reaches(s, t) && t.limits == s.limits && t.m == s.m && t.p.Ready? && Active(t, 1) && t.sys.Unused(os)
    ensures t.txs[1].swappedMax == s.txs[1].swappedMax && |t.txs[1].chunks| == |s.txs[1].chunks| + 1
    ensures |t.sys.pool.free| == |s.sys.pool.free| - 1
    ensures Reserved(t.limits, t.sys.pool.used, false) == Reserved(s.limits, s.sys.pool.used, false)
  {
    hide Run, Grown, System.Unused;
    GrownBy(s, os, []);
    t := Grown(s, os);
    RunNothing(t);
  }

  lemma FourChunks(l: Limits, chunks: seq<Address>, os: Address) returns (t: State)
    requires l.Configured() && l.min == l.max && Distinct(chunks) && |chunks| == l.min && Initial(chunks).Unused(os)
    ensures Reaches(Start(l, chunks), t) && Alone(t, 4, 0, os)
  {
    hide Inv, Reaches, Distinct, System.Unused;
    StartOk(l, chunks);
    var s0 := Start(l, chunks);
    var s1 := InitTx(s0, 1).s;
    var t1 := GrowMore(s1, os);
    var t2 := GrowMore(t1, os);
    var t3 := GrowMore(t2, os);
    t := GrowMore(t3, os);
    ReachesLater(t2, t3, t);
    ReachesLater(t1, t2, t);
    ReachesLater(s1, t1, t);
    ReachesStep(s0, Init(1), t);
    ReachesSound(s0, t);
  }

  /** Room for one chunk is not enough: in every configuration with as many chunks as it starts with
      there is a run after which the parser waits, a chunk can be obtained, and no run of the memory
      manager alone ends the wait. */
  lemma OneChunkIsNotEnough(l: Limits, chunks: seq<Address>)
    requires l.Configured() && l.min == l.max && Distinct(chunks) && |chunks| == l.min
    ensures exists t :: Reaches(Start(l, chunks), t) && Waits(t) && Slack(t.limits, t.sys.pool) == 1 && !Served(t)
  {
    hide Full, Reaches, Distinct, System.Unused, Slack, Served, Waits;
    var s0 := Start(l, chunks);
    SystemMayReturn(Initial(chunks), 0);
    var os :| Initial(chunks).Unused(os) && os != 0;
    var t0 := FourChunks(l, chunks, os);
    SlackOfFull(t0, os);
    var t1 := SwapNext(t0, 4, 0, os);
    var t2 := SwapNext(t1, 4, 1, os);
    var t3 := SwapNext(t2, 4, 2, os);
    var t4 := ShrinkToSwapped(t3, 4, os);
    var t5 := BringBack(t4, 3, 3, os);
    var t6 := WaitAgain(t5, 3, 2, os);
    var t := TakeDown(t6, os);
    ReachesLater(s0, t0, t1);
    ReachesLater(s0, t1, t2);
    ReachesLater(s0, t2, t3);
    ReachesLater(s0, t3, t4);
    ReachesLater(s0, t4, t5);
    ReachesLater(s0, t5, t6);
    ReachesLater(s0, t6, t);
    StillWaits(t6, t, os);
  }

  lemma SlackOfFull(s: State, os: Address)
    requires Full(s, os)
    ensures Slack(s.limits, s.sys.pool) >= 0
  {
    hide Inv, ChunkPool.Invariant, Slack;
    ChunksOf(s);
    PoolOf(s);
    InvariantSlack(s.limits, s.sys);
  }

  lemma StillWaits(s: State, t: State, os: Address)
    requires Full(t, os) && t == s.(sys := t.sys) && Waits(s) && Awaited(s) == Choice(1, 0)
    requires s.m == Selected(Some(Choice(1, 1)), None) && Slack(t.limits, t.sys.pool) == 1
    ensures Waits(t) && !Served(t)
  {
    hide Inv, Served, Slack;
    assert Awaited(t) == Awaited(s);
    WhenWaitEnds(t);
  }
}
