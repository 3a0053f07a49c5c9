/** What a parser that waits for a swapped chunk waits for, and exactly when the memory manager,
    left to itself, brings that chunk back. */
module SwapProgress {
  import opened Basics
  import opened ChunkPool
  import opened SwapProtocol
  import opened SwapInvariant
  import opened SwapFrames
  import opened SwapParserMoves
  import opened SwapManagerMoves
  import opened SwapRefinement
  import opened SwapRuns
  import opened SwapConflicts

  /** The parser waits on a condition variable, in a flush or in a shrink. */
  predicate Waits(s: State) {
    || (s.p.Flushing? && Active(s, s.p.x) && s.p.next < |s.txs[s.p.x].chunks| && FlushGet(s).Blocked?)
    || (s.p.AwaitingLast? && ShrinkWake(s).Blocked?)
  }

  /** The parser is where it could wait and does not have to. */
  predicate GoesOn(s: State) {
    || (s.p.Flushing? && Active(s, s.p.x) && s.p.next < |s.txs[s.p.x].chunks| && FlushGet(s).Next?)
    || (s.p.AwaitingLast? && ShrinkWake(s).Next?)
  }

  /** The chunk that it waits for. */
  function Awaited(s: State): Choice
    requires Waits(s)
  {
    if s.p.Flushing? then Choice(s.p.x, s.p.next) else Choice(s.p.x, |s.txs[s.p.x].chunks| - 1)
  }

  /** The manager chooses the chunk that the parser waits for. */
  lemma AwaitedIsChosen(s: State)
    requires Inv(s) && Waits(s)
    ensures ToUnswap(s) == Some(Awaited(s)) && s.p.x in s.txs && !s.txs[s.p.x].release && s.p.x != NO_XID
    ensures var sc, i := s.txs[s.p.x], Awaited(s).index;
            && 0 <= i < |sc.chunks| && 0 <= sc.swappedMin <= sc.swappedMax < |sc.chunks|
            && (if s.p.Flushing? then i == sc.swappedMin else i == sc.swappedMax)
  {
    hide ChunksOk, AllTxOk, CommittedOk, ManagerOk;
    TxOkOf(s, s.p.x);
  }

  /** In every reachable state. */
  lemma WaitingIsHeard(l: Limits, chunks: seq<Address>, es: seq<Move>)
    requires l.Configured() && l.readMin + l.writeMin <= l.min
    requires Distinct(chunks) && |chunks| == l.min
    ensures var r := Run(Start(l, chunks), es);
            r.Next? && (Waits(r.s) ==> ToUnswap(r.s) == Some(Awaited(r.s)))
  {
    hide Inv, Run, Waits, ToUnswap, Distinct;
    StartOk(l, chunks);
    RunSound(Start(l, chunks), es);
    var s := Run(Start(l, chunks), es).s;
    if Waits(s) { AwaitedIsChosen(s); }
  }

  // ------------------------------------------------------------ runs of the manager alone

  predicate OfManager(e: Move) {
    e.Purge? || e.PurgeFile? || e.Choose? || e.Read? || e.Place? || e.Take? || e.Store? || e.Finish?
    || e.DropFile? || e.CutFile? || e.Give?
  }

  predicate ManagerOnly(es: seq<Move>) {
    forall i :: 0 <= i < |es| ==> OfManager(es[i])
  }

  ghost predicate GoesOnAfter(s: State, es: seq<Move>) {
    Run(s, es).Next? && GoesOn(Run(s, es).s)
  }

  /** The manager alone can end the wait. */
  ghost predicate Served(s: State) {
    exists es :: ManagerOnly(es) && GoesOnAfter(s, es)
  }

  lemma ServedNow(s: State)
    requires GoesOn(s)
    ensures Served(s)
  {
    assert ManagerOnly([]) && GoesOnAfter(s, []);
  }

  lemma ServedLater(s: State, e: Move)
    requires SwapInvariant.Proper(s, e) && Step(s, e).Next? && OfManager(e)
    ensures Served(Step(s, e).s) ==> Served(s)
  {
    hide SwapInvariant.Proper, Step, Run, GoesOn, OfManager;
    if Served(Step(s, e).s) {
      var es :| ManagerOnly(es) && GoesOnAfter(Step(s, e).s, es);
      RunFirst(s, e, es);
      assert ManagerOnly([e] + es) && GoesOnAfter(s, [e] + es);
    }
  }

  lemma NothingFails(s: State, e: Move)
    requires Inv(s) && SwapInvariant.Proper(s, e) && Step(s, e).Next?
    ensures Inv(Step(s, e).s)
  {
    hide Inv, SwapInvariant.Proper, Step;
    StepSound(s, e);
  }

  // ------------------------------------------------------------ when the wait ends

  /** The swap that follows an un-swap of `x` will be carried out and leave a free chunk. */
  predicate Frees(s: State, x: Xid, swap: Option<Choice>) {
    swap.Some? && swap.value.x != x && WouldDetach(s.txs, swap.value)
  }

  /** There is a chunk for the un-swap that the parser waits for: one that can be obtained now and is
      not used by another un-swap first, or one that the manager itself is about to give back. */
  predicate CanServe(s: State)
    requires Waits(s)
  {
    var room := Slack(s.limits, s.sys.pool);
    match s.m
    case Selected(None, swap) => room >= 1 || (swap.Some? && WouldDetach(s.txs, swap.value))
    case Selected(Some(u), swap) => if u == Awaited(s) then room >= 1 else room >= 2 || (room == 1 && Frees(s, u.x, swap))
    case Loaded(x, i, _, swap) => Choice(x, i) == Awaited(s) || room >= 1 || Frees(s, x, swap)
    case Detached(_, _, _) => true
    case Written(_, _, _) => true
    case Returning(_) => true
    case _ => room >= 1
  }

  /** A wait goes on while nothing changes for its transaction. */
  lemma SameWait(s: State, t: State)
    requires Waits(s) && t.p == s.p && s.p.x in t.txs && s.p.x in s.txs && t.txs[s.p.x] == s.txs[s.p.x]
    ensures Waits(t) && Awaited(t) == Awaited(s)
  {
  }

  // ------------------------------------------------------------ it ends

  /** The chunk is stored where the parser waits for it. */
  lemma PlaceServes(s: State)
    requires Inv(s) && Waits(s) && s.m.Loaded? && Choice(s.m.x, s.m.index) == Awaited(s)
    ensures Served(s)
  {
    hide Inv, Served;
    AwaitedIsChosen(s);
    PendingComesBack(s);
    ServedLater(s, Move.Place);
    ServedNow(Install(s).s);
  }

  lemma ReadServes(s: State)
    requires Inv(s) && Waits(s) && s.m.Selected? && s.m.unswap == Some(Awaited(s)) && Slack(s.limits, s.sys.pool) >= 1
    ensures Served(s)
  {
    hide Inv, Served, Waits, Slack, System.Unused, Load, SafeAfter, Get, PoolOk;
    ChunksOf(s);
    PoolOf(s);
    AwaitedIsChosen(s);
    PendingComesBack(s);
    SystemMayReturn(s.sys, 0);
    var os :| s.sys.Unused(os) && os != 0;
    ReadGoesThrough(s, os);
    var t := Load(s, os).s;
    NothingFails(s, Read(os));
    ServedLater(s, Read(os));
    SameWait(s, t);
    PlaceServes(t);
  }

  lemma IdleServes(s: State)
    requires Inv(s) && Waits(s) && s.m.Idle? && Slack(s.limits, s.sys.pool) >= 1
    ensures Served(s)
  {
    hide Inv, Served, Waits, Slack, ToUnswap;
    AwaitedIsChosen(s);
    ChooseNone(s);
    var t := Select(s, None).s;
    NothingFails(s, Choose(None));
    ServedLater(s, Choose(None));
    SameWait(s, t);
    ReadServes(t);
  }

  lemma ChooseNone(s: State)
    requires Inv(s) && Waits(s) && s.m.Idle? && ToUnswap(s).Some?
    ensures SwapInvariant.Proper(s, Choose(None)) && Step(s, Choose(None)) == Select(s, None)
    ensures Select(s, None) == Next(s.(m := Selected(ToUnswap(s), None)))
  {
    hide ChunksOk, AllTxOk, CommittedOk, ManagerOk;
  }

  /** A step back to the idle state that changes nothing but files. */
  lemma QuietServes(s: State)
    requires Inv(s) && Waits(s) && (s.m.Unlinking? || s.m.Discarding? || s.m.Truncating?) && Slack(s.limits, s.sys.pool) >= 1
    ensures Served(s)
  {
    hide ChunksOk, AllTxOk, CommittedOk, ParserOk, Served, Waits, Slack;
    var e := if s.m.Unlinking? then PurgeFile else if s.m.Discarding? then DropFile else CutFile;
    NothingFails(s, e);
    ServedLater(s, e);
    AwaitedIsChosen(s);
    SameWait(s, Step(s, e).s);
    IdleServes(Step(s, e).s);
  }

  lemma ReturningServes(s: State)
    requires Inv(s) && Waits(s) && s.m.Returning?
    ensures Served(s)
  {
    hide AllTxOk, CommittedOk, ParserOk, ManagerOk, Served, Waits, Slack, ChunkPool.Invariant, Located, Free;
    StepSound(s, Move.Give);
    ServedLater(s, Move.Give);
    DiscardSlack(s, s.m.chunk);
    InvariantSlack(s.limits, s.sys);
    AwaitedIsChosen(s);
    SameWait(s, ReturnChunk(s).s);
    IdleServes(ReturnChunk(s).s);
  }

  /** The end of a swap-out gives the chunk back to the pool, or to the shrink that waits for it. */
  lemma WrittenServes(s: State)
    requires Inv(s) && Waits(s) && s.m.Written?
    ensures Served(s)
  {
    hide ChunksOk, AllTxOk, CommittedOk, Served;
    StepSound(s, Finish);
    ServedLater(s, Finish);
    AwaitedIsChosen(s);
    var t := FinishSwap(s).s;
    if s.shrinkXid == s.m.x {
      ServedNow(t);
    } else {
      SameWait(s, t);
      ReturningServes(t);
    }
  }

  lemma DetachedServes(s: State)
    requires Inv(s) && Waits(s) && s.m.Detached?
    ensures Served(s)
  {
    hide ChunksOk, AllTxOk, CommittedOk, ParserOk, Served, Waits;
    StepSound(s, Store);
    ServedLater(s, Store);
    AwaitedIsChosen(s);
    SameWait(s, WriteChunk(s).s);
    WrittenServes(WriteChunk(s).s);
  }

  /** Taking a chunk of the transaction that is flushed takes one behind those that are swapped. */
  lemma TakeKeepsWait(s: State)
    requires Inv(s) && Waits(s) && s.m.Selected? && s.m.unswap.None? && s.m.swap.Some? && WouldDetach(s.txs, s.m.swap.value)
    ensures var r := Detach(s); r.Next? && r.s.m.Detached? && Waits(r.s)
  {
    hide ChunksOk, AllTxOk, CommittedOk, ParserOk, Shape, ToUnswap;
    AwaitedIsChosen(s);
    StepSound(s, Move.Take);
  }

  lemma TakeServes(s: State)
    requires Inv(s) && Waits(s) && s.m.Selected? && s.m.unswap.None? && CanServe(s)
    ensures Served(s)
  {
    hide ChunksOk, AllTxOk, CommittedOk, ParserOk, Served, Waits, Slack, Detach;
    AwaitedIsChosen(s);
    var c := s.m.swap.value;
    if WouldDetach(s.txs, c) {
      TakeKeepsWait(s);
      NothingFails(s, Move.Take);
      ServedLater(s, Move.Take);
      DetachedServes(Detach(s).s);
    } else {
      TakeDoesNothing(s);
      NothingFails(s, Move.Take);
      ServedLater(s, Move.Take);
      SameWait(s, Detach(s).s);
      IdleServes(Detach(s).s);
    }
  }

  lemma TakeDoesNothing(s: State)
    requires Inv(s) && s.m.Selected? && s.m.unswap.None? && s.m.swap.Some? && !WouldDetach(s.txs, s.m.swap.value)
    ensures Detach(s) == Next(s.(m := Idle))
  {
    hide ChunksOk, AllTxOk, CommittedOk, ParserOk;
  }

  /** Storing another chunk than the one that is awaited leaves the wait as it is, and the swap that
      follows is carried out exactly if it is one of another transaction that would be. */
  lemma OtherPlaced(s: State)
    requires Inv(s) && Waits(s) && s.m.Loaded? && Choice(s.m.x, s.m.index) != Awaited(s)
    ensures var r := Install(s);
            && r.Next? && Waits(r.s) && Awaited(r.s) == Awaited(s) && r.s.m == AfterUnswap(s.m.swap)
            && r.s.sys == s.sys && r.s.limits == s.limits
            && (s.m.swap.Some? ==> (WouldDetach(r.s.txs, s.m.swap.value) <==> Frees(s, s.m.x, s.m.swap)))
  {
    hide ChunksOk, AllTxOk, CommittedOk, Shape, ToUnswap;
    AwaitedIsChosen(s);
    PendingComesBack(s);
  }

  lemma LoadedServes(s: State)
    requires Inv(s) && Waits(s) && s.m.Loaded? && CanServe(s)
    ensures Served(s)
  {
    hide Inv, Served, Waits, Slack, Install, WouldDetach, Step;
    if Choice(s.m.x, s.m.index) == Awaited(s) {
      PlaceServes(s);
    } else {
      OtherPlaced(s);
      PlaceStep(s);
      NothingFails(s, Move.Place);
      ServedLater(s, Move.Place);
      var t := Install(s).s;
      if t.m.Idle? {
        IdleServes(t);
      } else {
        TakeServes(t);
      }
    }
  }

  lemma PlaceStep(s: State)
    requires s.m.Loaded?
    ensures SwapInvariant.Proper(s, Move.Place) && Step(s, Move.Place) == Install(s) && OfManager(Move.Place)
  {
  }

  /** A read with room for it. */
  lemma ReadKeepsWait(s: State, os: Address)
    requires Inv(s) && Waits(s) && s.m.Selected? && s.m.unswap.Some? && s.sys.Unused(os) && Slack(s.limits, s.sys.pool) >= 1
    ensures var r, u := Load(s, os), s.m.unswap.value;
            && r.Next? && Waits(r.s) && Awaited(r.s) == Awaited(s) && r.s.txs == s.txs && r.s.limits == s.limits
            && r.s.m.Loaded? && r.s.m.x == u.x && r.s.m.index == u.index && r.s.m.swap == s.m.swap
            && Slack(r.s.limits, r.s.sys.pool) == Slack(s.limits, s.sys.pool) - 1
  {
    hide Inv, Waits, Slack, System.Unused, SafeAfter, Get, ChunkPool.Invariant;
    ChunksOf(s);
    PoolOf(s);
    AwaitedIsChosen(s);
    PendingComesBack(s);
    ReadGoesThrough(s, os);
    SlackGrants(s.limits, s.sys, TRANSACTIONS, os);
    SameWait(s, Load(s, os).s);
  }

  lemma SelectedServes(s: State)
    requires Inv(s) && Waits(s) && s.m.Selected? && s.m.unswap.Some? && CanServe(s)
    ensures Served(s)
  {
    hide Inv, Served, Waits, Slack, System.Unused, Load, WouldDetach;
    if s.m.unswap.value == Awaited(s) {
      ReadServes(s);
    } else {
      SystemMayReturn(s.sys, 0);
      var os :| s.sys.Unused(os) && os != 0;
      ReadKeepsWait(s, os);
      NothingFails(s, Read(os));
      ServedLater(s, Read(os));
      LoadedServes(Load(s, os).s);
    }
  }

  lemma CanServeServes(s: State)
    requires Inv(s) && Waits(s) && CanServe(s)
    ensures Served(s)
  {
    hide Inv, Served, Waits;
    match s.m {
      case Idle => IdleServes(s);
      case Unlinking(_) => QuietServes(s);
      case Selected(unswap, _) => if unswap.Some? { SelectedServes(s); } else { TakeServes(s); }
      case Loaded(_, _, _, _) => LoadedServes(s);
      case Detached(_, _, _) => DetachedServes(s);
      case Written(_, _, _) => WrittenServes(s);
      case Discarding(_) => QuietServes(s);
      case Truncating(_, _) => QuietServes(s);
      case Returning(_) => ReturningServes(s);
    }
  }

  // ------------------------------------------------------------ it does not end

  /** The parser waits and there is no chunk for it. */
  ghost predicate Starved(s: State) {
    Inv(s) && Waits(s) && !CanServe(s)
  }

  lemma ReadStarves(s: State, os: Address)
    requires Starved(s) && s.m.Selected? && s.m.unswap.Some? && s.sys.Unused(os)
    ensures var r := Load(s, os); r.Next? ==> Waits(r.s) && !CanServe(r.s)
  {
    hide Inv, Waits, Slack, System.Unused, WouldDetach, Load;
    if Slack(s.limits, s.sys.pool) >= 1 {
      ReadKeepsWait(s, os);
    } else {
      NoRoom(s, os);
    }
  }

  lemma NoRoom(s: State, os: Address)
    requires Inv(s) && s.m.Selected? && s.m.unswap.Some? && s.sys.Unused(os) && Slack(s.limits, s.sys.pool) <= 0
    ensures !Load(s, os).Next?
  {
    hide Inv, Slack, System.Unused, Get, ChunkPool.Invariant;
    ChunksOf(s);
    PoolOf(s);
    SlackGrants(s.limits, s.sys, TRANSACTIONS, os);
  }

  lemma PlaceStarves(s: State)
    requires Starved(s) && s.m.Loaded?
    ensures var r := Install(s); r.Next? ==> Waits(r.s) && !CanServe(r.s)
  {
    hide Inv, Waits, Slack, WouldDetach, Install;
    OtherPlaced(s);
  }

  lemma TakeStarves(s: State)
    requires Starved(s) && s.m.Selected? && s.m.unswap.None? && s.m.swap.Some?
    ensures var r := Detach(s); r.Next? ==> Waits(r.s) && !CanServe(r.s)
  {
    hide Inv, Waits, Slack, WouldDetach, Detach;
    TakeDoesNothing(s);
    AwaitedIsChosen(s);
    SameWait(s, Detach(s).s);
  }

  lemma ChooseStarves(s: State, choice: Option<Xid>)
    requires Starved(s) && s.m.Idle?
    ensures var r := Select(s, choice); r.Next? ==> Waits(r.s) && !CanServe(r.s)
  {
    hide Inv, Waits, Slack, ToUnswap, MaySwap;
    AwaitedIsChosen(s);
    var r := Select(s, choice);
    if r.Next? { SameWait(s, r.s); }
  }

  lemma PurgeStarves(s: State)
    requires Starved(s) && s.m.Idle?
    ensures var r := Clean(s); r.Next? ==> Waits(r.s) && !CanServe(r.s)
  {
    hide ChunksOk, AllTxOk, ParserOk, ManagerOk, Waits, Slack, ToUnswap;
    AwaitedIsChosen(s);
    var r := Clean(s);
    if r.Next? { SameWait(s, r.s); }
  }

  lemma QuietStarves(s: State, e: Move)
    requires Starved(s) && SwapInvariant.Proper(s, e) && (e.PurgeFile? || e.DropFile? || e.CutFile?)
    ensures var r := Step(s, e); r.Next? ==> Waits(r.s) && !CanServe(r.s)
  {
    hide Inv, Waits, Slack, ToUnswap;
    AwaitedIsChosen(s);
    var r := Step(s, e);
    if r.Next? { SameWait(s, r.s); }
  }

  lemma StarvedStep(s: State, e: Move)
    requires Starved(s) && OfManager(e) && SwapInvariant.Proper(s, e)
    ensures var r := Step(s, e); r.Next? ==> Starved(r.s)
  {
    hide Inv, Waits, Slack, WouldDetach, Load, Install, Detach, Select, Clean, ToUnswap, System.Unused;
    var r := Step(s, e);
    if r.Next? {
      NothingFails(s, e);
      match e {
        case Purge => PurgeStarves(s);
        case Choose(choice) => ChooseStarves(s, choice);
        case Read(os) => ReadStarves(s, os);
        case Place => PlaceStarves(s);
        case Take => TakeStarves(s);
        case PurgeFile => QuietStarves(s, e);
        case DropFile => QuietStarves(s, e);
        case CutFile => QuietStarves(s, e);
        case _ =>
      }
    }
  }

  lemma WaitIsNotOver(s: State)
    requires Waits(s)
    ensures !GoesOn(s)
  {
  }

  lemma {:induction false} StarvedForEver(s: State, es: seq<Move>)
    requires Starved(s) && ManagerOnly(es)
    ensures !GoesOnAfter(s, es)
    decreases |es|
  {
    hide Inv, Waits, CanServe, GoesOn, SwapInvariant.Proper, Step, OfManager;
    if es == [] {
      WaitIsNotOver(s);
    } else {
      assert OfManager(es[0]);
      if SwapInvariant.Proper(s, es[0]) && Step(s, es[0]).Next? {
        StarvedStep(s, es[0]);
        StarvedForEver(Step(s, es[0]).s, es[1..]);
      } else {
        StarvedForEver(s, es[1..]);
      }
    }
  }

  /** A wait of the parser can be ended by the memory manager alone if and only if there is a chunk
      for the un-swap. */
  lemma WhenWaitEnds(s: State)
    requires Inv(s) && Waits(s)
    ensures Served(s) <==> CanServe(s)
  {
    hide Inv, Waits, CanServe, GoesOnAfter;
    if CanServe(s) {
      CanServeServes(s);
    } else {
      forall es | ManagerOnly(es) ensures !GoesOnAfter(s, es) {
        StarvedForEver(s, es);
      }
    }
  }

  /** Two chunks are always enough, and one is if no un-swap of another chunk comes first. */
  lemma RoomIsEnough(s: State)
    requires Inv(s) && Waits(s)
    requires var u := PendingUnswap(s.m);
             Slack(s.limits, s.sys.pool) >= if s.m.Selected? && u.Some? && u.value != Awaited(s) then 2 else 1
    ensures Served(s)
  {
    hide Inv, Waits, Served;
    WhenWaitEnds(s);
  }

  /** The manager may swap a chunk out exactly of those transactions, other than the one that is
      flushed, that have a chunk in memory besides the last one. */
  lemma SwapCandidates(s: State, x: Xid)
    requires Inv(s)
    ensures MaySwap(s, x) <==> Active(s, x) && s.flushXid != x && exists i :: 0 <= i < |s.txs[x].chunks| - 1 && s.txs[x].chunks[i].Some?
  {
    hide ChunksOk, AllTxOk, CommittedOk, ManagerOk;
    if Active(s, x) && s.flushXid != x {
      TxOkOf(s, x);
      var sc := s.txs[x];
      if MaySwap(s, x) {
        assert sc.chunks[|sc.chunks| - 2].Some?;
      }
    }
  }

  /** One round decides both: the chunk to bring back is the one that is chosen whatever is swapped out,
      and the chunk to swap out is the first one of its transaction that is in memory. */
  lemma RoundDecides(s: State, choice: Option<Xid>)
    requires Inv(s) && s.m.Idle?
    ensures var r := Select(s, choice);
            && !r.Fault?
            && (choice.None? ==> if ToUnswap(s).None? then r.Blocked? else r == Next(s.(m := Selected(ToUnswap(s), None))))
            && (choice.Some? && !MaySwap(s, choice.value) ==> r.Blocked?)
            && (choice.Some? && MaySwap(s, choice.value) ==>
                  && r.Next? && r.s.m.Selected? && r.s.m.swap.Some?
                  && r.s == s.(m := Selected(ToUnswap(s), r.s.m.swap)) && r.s.m.swap.value.x == choice.value
                  && var chunks, i := s.txs[choice.value].chunks, r.s.m.swap.value.index;
                     0 <= i < |chunks| - 1 && chunks[i].Some? && forall j :: 0 <= j < i ==> chunks[j].None?)
  {
    hide ChunksOk, AllTxOk, CommittedOk, ManagerOk;
    if choice.Some? && MaySwap(s, choice.value) {
      TxOkOf(s, choice.value);
    }
  }
}
