/** The machine refines plain lists: every move of the parser does to the lists what its
    operation says, and every move of the memory manager leaves them as they are. */
module SwapRefinement {
  import opened Basics
  import opened ChunkPool
  import opened SwapProtocol
  import opened SwapInvariant
  import opened SwapFrames
  import opened SwapParserMoves
  import opened SwapManagerMoves

  // ------------------------------------------------------------ the parser's operations

  lemma InitView(s: State, x: Xid)
    requires Inv(s) && x !in s.txs
    ensures View(InitTx(s, x).s) == View(s)[x := []]
  {
    hide PoolOk, Accounted, AllTxOk, CommittedOk, ManagerOk, Located;
    var t := InitTx(s, x).s;
    assert List(t, x) == [];
    hide List;
    ViewChanged(s, t, x);
  }

  lemma AppendList(s: State)
    requires Inv(s) && s.p.Growing? && GrowAppend(s).Next?
    ensures List(GrowAppend(s).s, s.p.x) == List(s, s.p.x) + [Live(Content(s.mem, s.p.chunk))]
  {
    hide ChunksOk, AllTxOk, CommittedOk, ManagerOk;
    TxOkOf(s, s.p.x);
  }

  lemma AppendView(s: State)
    requires Inv(s) && s.p.Growing? && GrowAppend(s).Next?
    ensures View(GrowAppend(s).s) == Apply(View(s), OpOf(s, Append))
  {
    hide PoolOk, Accounted, AllTxOk, CommittedOk, ManagerOk, Located, List;
    AppendList(s);
    ViewChanged(s, GrowAppend(s).s, s.p.x);
  }

  /** The chunks of one list are all different. */
  lemma ChunksDiffer(s: State, x: Xid, i: nat, j: nat)
    requires Located(s.txs, s.place, s.p, s.m) && x in s.txs && i < j < |s.txs[x].chunks|
    requires !Stale(s.p, x, i) && !Stale(s.p, x, j) && s.txs[x].chunks[i].Some?
    ensures s.txs[x].chunks[i] != s.txs[x].chunks[j]
  {
    ChunkPlaced(s, x, i);
    if s.txs[x].chunks[j].Some? { ChunkPlaced(s, x, j); }
  }

  lemma WriteList(s: State, x: Xid, page: Page)
    requires Inv(s) && s.p.Ready? && Active(s, x) && s.txs[x].chunks != [] && WriteLast(s, x, page).Next?
    ensures List(WriteLast(s, x, page).s, x) == List(s, x)[|s.txs[x].chunks| - 1 := Live(page)]
  {
    hide PoolOk, Accounted, Located, AllTxOk, CommittedOk, ManagerOk;
    var n := |s.txs[x].chunks|;
    TxOkOf(s, x);
    if ManagerChunk(s.m).Some? { HeldByManager(s); }
    ChunkPlaced(s, x, n - 1);
    forall i: nat | i < n - 1 && s.txs[x].chunks[i].Some?
      ensures s.txs[x].chunks[i] != s.txs[x].chunks[n - 1]
    {
      ChunksDiffer(s, x, i, n - 1);
    }
  }

  lemma WriteView(s: State, x: Xid, page: Page)
    requires Inv(s) && s.p.Ready? && Active(s, x) && s.txs[x].chunks != [] && WriteLast(s, x, page).Next?
    ensures View(WriteLast(s, x, page).s) == Apply(View(s), Update(x, page))
  {
    hide PoolOk, Accounted, AllTxOk, CommittedOk, ManagerOk, Located, List, Shape;
    TxOkOf(s, x);
    ChunkPlaced(s, x, |s.txs[x].chunks| - 1);
    if ManagerChunk(s.m).Some? { HeldByManager(s); }
    WriteList(s, x, page);
    ListLength(s, x);
    ViewChanged(s, WriteLast(s, x, page).s, x);
  }

  lemma ListLength(s: State, x: Xid)
    requires x in s.txs
    ensures |List(s, x)| == |s.txs[x].chunks|
  {
  }

  lemma PopList(s: State, x: Xid)
    requires ShrinkPop(s, x).Next?
    ensures List(ShrinkPop(s, x).s, x) == List(s, x)[..|s.txs[x].chunks| - 1]
  {
  }

  lemma PopView(s: State, x: Xid)
    requires Inv(s) && s.p.Ready? && Active(s, x) && ShrinkPop(s, x).Next?
    ensures View(ShrinkPop(s, x).s) == Apply(View(s), DropLast(x))
  {
    hide PoolOk, Accounted, AllTxOk, CommittedOk, ManagerOk, Located, List;
    PopList(s, x);
    ListLength(s, x);
    ViewChanged(s, ShrinkPop(s, x).s, x);
  }

  lemma ReleaseList(s: State, k: nat)
    requires s.p.Flushing? && FlushRelease(s, k).Next? && !s.txs[s.p.x].Swapped(k)
    ensures List(FlushRelease(s, k).s, s.p.x) == List(s, s.p.x)[k := Gone]
  {
  }

  lemma ReleaseView(s: State, k: nat)
    requires Inv(s) && s.p.Flushing? && k < s.p.next && FlushRelease(s, k).Next?
    ensures View(FlushRelease(s, k).s) == Apply(View(s), Clear(s.p.x, k))
  {
    hide PoolOk, Accounted, AllTxOk, CommittedOk, ManagerOk, Located, List;
    TxOkOf(s, s.p.x);
    ReleaseList(s, k);
    ListLength(s, s.p.x);
    ViewChanged(s, FlushRelease(s, k).s, s.p.x);
  }

  lemma RemoveView(s: State, x: Xid)
    requires Inv(s) && Active(s, x)
    ensures View(RemoveBegin(s, x).s) == View(s) - {x}
  {
    hide PoolOk, Accounted, AllTxOk, CommittedOk, ManagerOk, Located;
    ViewChanged(s, RemoveBegin(s, x).s, x);
  }

  // ------------------------------------------------------------ the manager's moves

  /** A list that stays the same although its chunks moved. */
  lemma ViewKeptAt(s: State, t: State, x: Xid)
    requires InMemory(s) && Active(s, x) && Active(t, x)
    requires forall y :: y != x ==> ListSame(s, t, y)
    requires |t.txs[x].chunks| == |s.txs[x].chunks|
    requires forall i: nat :: i < |s.txs[x].chunks| ==>
               SlotOf(t.txs, t.mem, t.files, t.m, x, i) == SlotOf(s.txs, s.mem, s.files, s.m, x, i)
    ensures View(t) == View(s)
  {
    hide InMemory;
    assert List(t, x) == List(s, x);
    ViewChanged(s, t, x);
  }

  lemma PlaceSlots(s: State, i: nat)
    requires Inv(s) && s.m.Loaded? && Install(s).Next? && i < |s.txs[s.m.x].chunks|
    ensures var t := Install(s).s;
            && s.m.x in t.txs && i < |t.txs[s.m.x].chunks|
            && SlotOf(t.txs, t.mem, t.files, t.m, s.m.x, i) == SlotOf(s.txs, s.mem, s.files, s.m, s.m.x, i)
  {
    hide ChunksOk, AllTxOk, CommittedOk, ParserOk;
    TxOkOf(s, s.m.x);
  }

  lemma PlaceView(s: State)
    requires Inv(s) && s.m.Loaded? && Install(s).Next?
    ensures View(Install(s).s) == View(s)
  {
    hide PoolOk, Accounted, AllTxOk, CommittedOk, Located, Install, SlotOf;
    var t := Install(s).s;
    PlaceFrame(s);
    PlaceMemory(s);
    forall i: nat | i < |s.txs[s.m.x].chunks|
      ensures SlotOf(t.txs, t.mem, t.files, t.m, s.m.x, i) == SlotOf(s.txs, s.mem, s.files, s.m, s.m.x, i)
    {
      PlaceSlots(s, i);
    }
    ViewKeptAt(s, t, s.m.x);
  }

  lemma PlaceMemory(s: State)
    requires s.m.Loaded? && Install(s).Next?
    ensures var t := Install(s).s; t.mem == s.mem && (t.m.Idle? || t.m.Selected?)
    ensures forall y, i :: y != s.m.x ==> FilePage(Install(s).s.files, y, i) == FilePage(s.files, y, i)
  {
  }

  lemma TakeView(s: State)
    requires Inv(s) && s.m.Selected? && s.m.unswap.None? && s.m.swap.Some? && Detach(s).Next?
    ensures View(Detach(s).s) == View(s)
  {
    hide PoolOk, Accounted, AllTxOk, CommittedOk, Located;
    var c := s.m.swap.value;
    if WouldDetach(s.txs, c) {
      TxOkOf(s, c.x);
      ViewKeptAt(s, Detach(s).s, c.x);
    } else {
      ViewFramed(s, Detach(s).s);
    }
  }

  lemma StoreView(s: State)
    requires Inv(s) && s.m.Detached? && WriteChunk(s).Next?
    ensures View(WriteChunk(s).s) == View(s)
  {
    hide PoolOk, Accounted, AllTxOk, CommittedOk, Located;
    var x := s.m.x;
    if s.txs[x].release {
      ViewFramed(s, WriteChunk(s).s);
    } else {
      TxOkOf(s, x);
      ViewKeptAt(s, WriteChunk(s).s, x);
    }
  }

  lemma FinishView(s: State)
    requires Inv(s) && s.m.Written? && FinishSwap(s).Next?
    ensures View(FinishSwap(s).s) == View(s)
  {
    hide PoolOk, Accounted, AllTxOk, CommittedOk, Located;
    var x := s.m.x;
    if s.txs[x].release {
      ViewFramed(s, FinishSwap(s).s);
    } else {
      TxOkOf(s, x);
      ViewKeptAt(s, FinishSwap(s).s, x);
    }
  }

  lemma DropFileView(s: State)
    requires Inv(s) && s.m.Discarding? && DiscardFile(s).Next?
    ensures View(DiscardFile(s).s) == View(s)
  {
    hide PoolOk, Accounted, AllTxOk, CommittedOk, Located;
    TxOkOf(s, s.m.x);
    ViewFramed(s, DiscardFile(s).s);
  }

  lemma CutFileView(s: State)
    requires Inv(s) && s.m.Truncating? && TruncateFile(s).Next?
    ensures View(TruncateFile(s).s) == View(s)
  {
    hide PoolOk, Accounted, AllTxOk, CommittedOk, Located;
    TxOkOf(s, s.m.x);
    ViewFramed(s, TruncateFile(s).s);
  }

  lemma PurgeView(s: State)
    requires Inv(s) && s.m.Idle? && Clean(s).Next?
    ensures View(Clean(s).s) == View(s)
  {
    hide PoolOk, Accounted, AllTxOk, ManagerOk, Located;
    ViewFramed(s, Clean(s).s);
  }

  lemma PurgeFileView(s: State)
    requires Inv(s) && s.m.Unlinking?
    ensures View(CleanUnlink(s).s) == View(s)
  {
    hide PoolOk, Accounted, AllTxOk, CommittedOk, Located;
    if s.m.x in s.txs { TxOkOf(s, s.m.x); }
    ViewFramed(s, CleanUnlink(s).s);
  }

  /** Moves that change neither the lists, nor the files, nor the contents of a listed chunk. */
  lemma QuietView(s: State, t: State)
    requires Inv(s) && t.txs == s.txs && t.files == s.files
    requires forall a :: a in s.place ==> Content(t.mem, a) == Content(s.mem, a)
    requires t.m == s.m || !(s.m.Detached? || s.m.Written? || t.m.Detached? || t.m.Written?)
    ensures View(t) == View(s)
  {
    hide PoolOk, Accounted, AllTxOk, CommittedOk, ManagerOk, Located;
    if ManagerChunk(s.m).Some? { HeldByManager(s); }
    ViewFramed(s, t);
  }

  // ------------------------------------------------------------ one move, any move

  /** A move that is made as it should be does not go wrong, keeps the invariant, and does to
      the lists exactly what its operation says. */
  ghost predicate Sound(s: State, e: Move, r: Result) {
    !r.Fault? && (r.Next? ==> Inv(r.s) && View(r.s) == Apply(View(s), OpOf(s, e)))
  }

  lemma ListMoveSound(s: State, e: Move)
    requires Inv(s) && SwapInvariant.Proper(s, e)
    requires e.Init? || e.Append? || e.Write? || e.Pop? || e.Release? || e.Remove?
    ensures Sound(s, e, Step(s, e))
  {
    hide ChunksOk, AllTxOk, CommittedOk, ManagerOk, View;
    match e
    case Init(x) =>
      InitKeeps(s, x);
      if x !in s.txs { InitView(s, x); }
    case Append =>
      AppendKeeps(s);
      AppendView(s);
    case Write(x, page) =>
      WriteKeeps(s, x, page);
      WriteView(s, x, page);
    case Pop(x) =>
      PopKeeps(s, x);
      PopView(s, x);
    case Release(k) =>
      ReleaseKeeps(s, k);
      ReleaseView(s, k);
    case Remove(x) =>
      RemoveKeeps(s, x);
      RemoveView(s, x);
  }

  lemma ShrinkMoveSound(s: State, e: Move)
    requires Inv(s) && SwapInvariant.Proper(s, e) && (e.PopFree? || e.Lock? || e.Wake?)
    ensures Sound(s, e, Step(s, e))
  {
    hide ChunksOk, AllTxOk, CommittedOk, ManagerOk, View, Free;
    var r := Step(s, e);
    match e {
      case PopFree => PopFreeKeeps(s);
      case Lock => LockKeeps(s);
      case Wake => WakeKeeps(s);
    }
    if r.Next? { QuietView(s, r.s); }
  }

  lemma QuietParserMoveSound(s: State, e: Move)
    requires Inv(s) && SwapInvariant.Proper(s, e)
    requires e.Flush? || e.Fetch? || e.ReleaseFree? || e.RemoveNext?
    ensures Sound(s, e, Step(s, e))
  {
    hide ChunksOk, AllTxOk, CommittedOk, ManagerOk, View, Free;
    var r := Step(s, e);
    match e {
      case Flush(x) => FlushKeeps(s, x);
      case Fetch => FetchKeeps(s);
      case ReleaseFree => ReleaseFreeKeeps(s);
      case RemoveNext => RemoveNextKeeps(s);
    }
    if r.Next? { QuietView(s, r.s); }
  }

  lemma AcquireMoveSound(s: State, e: Move)
    requires Inv(s) && SwapInvariant.Proper(s, e) && (e.Grow? || e.Read?)
    ensures Sound(s, e, Step(s, e))
  {
    hide PoolOk, Accounted, Located, AllTxOk, CommittedOk, ManagerOk, View, Get, Free;
    var r := Step(s, e);
    match e {
      case Grow(x, os) =>
        GrowKeeps(s, x, os);
        AcquireOk(s, false, os, WithParser);
        if r.Next? { QuietView(s, r.s); }
      case Read(os) =>
        ReadKeeps(s, os);
        AcquireOk(s, true, os, WithManager);
        if r.Next? { QuietView(s, r.s); }
    }
  }

  lemma MemoryMoveSound(s: State, e: Move)
    requires Inv(s) && SwapInvariant.Proper(s, e)
    requires e.OtherTake? || e.OtherGive? || e.Give?
    ensures Sound(s, e, Step(s, e))
  {
    hide PoolOk, Accounted, Located, AllTxOk, CommittedOk, ManagerOk, View, Get, Free;
    var r := Step(s, e);
    match e {
      case OtherTake(memory, swap, os) =>
        OtherTakeKeeps(s, memory, swap, os);
        if r.Next? { QuietView(s, r.s); }
      case OtherGive(a) =>
        OtherGiveKeeps(s, a);
        if r.Next? { QuietView(s, r.s); }
      case Give =>
        GiveKeeps(s);
        if r.Next? { QuietView(s, r.s); }
    }
  }

  lemma DecisionSound(s: State, e: Move)
    requires Inv(s) && SwapInvariant.Proper(s, e) && (e.RemoveLast? || e.Choose?)
    ensures Sound(s, e, Step(s, e))
  {
    hide PoolOk, Accounted, Located, AllTxOk, CommittedOk, ManagerOk, View;
    var r := Step(s, e);
    match e {
      case Choose(choice) =>
        ChooseKeeps(s, choice);
        if r.Next? { QuietView(s, r.s); }
      case RemoveLast =>
        RemoveLastKeeps(s);
        if r.Next? { ViewFramed(s, r.s); }
    }
  }

  lemma ManagerMoveSound(s: State, e: Move)
    requires Inv(s) && SwapInvariant.Proper(s, e)
    requires e.Purge? || e.PurgeFile? || e.Place? || e.Take? || e.Store? || e.Finish? || e.DropFile? || e.CutFile?
    ensures Sound(s, e, Step(s, e))
  {
    hide ChunksOk, AllTxOk, CommittedOk, ManagerOk, View, Install, Detach, WriteChunk, FinishSwap, DiscardFile, TruncateFile, Clean, CleanUnlink;
    var r := Step(s, e);
    match e {
      case Purge =>
        PurgeKeeps(s);
        if r.Next? { PurgeView(s); }
      case PurgeFile =>
        PurgeFileKeeps(s);
        if r.Next? { PurgeFileView(s); }
      case Place =>
        PlaceKeeps(s);
        if r.Next? { PlaceView(s); }
      case Take =>
        TakeKeeps(s);
        if r.Next? { TakeView(s); }
      case Store =>
        StoreKeeps(s);
        if r.Next? { StoreView(s); }
      case Finish =>
        FinishKeeps(s);
        if r.Next? { FinishView(s); }
      case DropFile =>
        DropFileKeeps(s);
        if r.Next? { DropFileView(s); }
      case CutFile =>
        CutFileKeeps(s);
        if r.Next? { CutFileView(s); }
    }
  }

  lemma MoveSound(s: State, e: Move)
    requires Inv(s) && SwapInvariant.Proper(s, e)
    ensures Sound(s, e, Step(s, e))
  {
    hide Inv, Sound, SwapInvariant.Proper, Step;
    match e
    case Init(_) => ListMoveSound(s, e);
    case Append => ListMoveSound(s, e);
    case Write(_, _) => ListMoveSound(s, e);
    case Pop(_) => ListMoveSound(s, e);
    case Release(_) => ListMoveSound(s, e);
    case Remove(_) => ListMoveSound(s, e);
    case PopFree => ShrinkMoveSound(s, e);
    case Lock => ShrinkMoveSound(s, e);
    case Wake => ShrinkMoveSound(s, e);
    case Flush(_) => QuietParserMoveSound(s, e);
    case Fetch => QuietParserMoveSound(s, e);
    case ReleaseFree => QuietParserMoveSound(s, e);
    case RemoveNext => QuietParserMoveSound(s, e);
    case Grow(_, _) => AcquireMoveSound(s, e);
    case Read(_) => AcquireMoveSound(s, e);
    case Choose(_) => DecisionSound(s, e);
    case RemoveLast => DecisionSound(s, e);
    case Purge => ManagerMoveSound(s, e);
    case PurgeFile => ManagerMoveSound(s, e);
    case Place => ManagerMoveSound(s, e);
    case Take => ManagerMoveSound(s, e);
    case Store => ManagerMoveSound(s, e);
    case Finish => ManagerMoveSound(s, e);
    case DropFile => ManagerMoveSound(s, e);
    case CutFile => ManagerMoveSound(s, e);
    case _ => MemoryMoveSound(s, e);
  }
}
