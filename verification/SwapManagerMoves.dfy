/** Every move of the memory manager keeps the invariant. */
module SwapManagerMoves {
  import opened Basics
  import opened ChunkPool
  import opened SwapProtocol
  import opened SwapInvariant
  import opened SwapFrames
  import opened SwapParserMoves

  // ------------------------------------------------------------ clean-up and selection

  lemma CommittedFewer(txs: map<Xid, SwapChunk>, committed: seq<Xid>, p: Parser)
    requires CommittedOk(txs, committed, p) && committed != []
    ensures var n := |committed| - 1;
            CommittedOk(txs - {committed[n]}, committed[..n], p)
  {
  }

  lemma PurgeKeeps(s: State)
    requires Inv(s) && s.m.Idle?
    ensures Kept(Clean(s))
  {
    hide PoolOk, Accounted, Located, AllTxOk, Shape;
    if s.committed != [] {
      var n := |s.committed| - 1;
      var x := s.committed[n];
      assert x in s.txs && s.txs[x].chunks == [];
      var t := Clean(s).s;
      OneTxChanged(s, t, x);
      NothingMoved(s.txs, s.p, s.m, s.place, t.txs, t.p, t.m);
      CommittedFewer(s.txs, s.committed, s.p);
    }
  }

  lemma PurgeFileKeeps(s: State)
    requires Inv(s) && s.m.Unlinking?
    ensures Kept(CleanUnlink(s))
  {
    hide PoolOk, Accounted, Located, AllTxOk, CommittedOk, Shape;
    var x := s.m.x;
    var t := CleanUnlink(s).s;
    if x in s.txs { TxOkOf(s, x); }
    OneTxChanged(s, t, x);
    NothingMoved(s.txs, s.p, s.m, s.place, t.txs, t.p, t.m);
  }

  lemma ToUnswapPending(s: State)
    requires Inv(s) && ToUnswap(s).Some?
    ensures UnswapPending(s.txs, s.p, ToUnswap(s).value)
    ensures s.flushXid == NO_XID ==> ToUnswap(s).value.index == s.txs[ToUnswap(s).value.x].swappedMax
    ensures s.flushXid != NO_XID ==> ToUnswap(s).value.x == s.flushXid
  {
    hide ChunksOk, AllTxOk, CommittedOk, ManagerOk;
    TxOkOf(s, ToUnswap(s).value.x);
  }

  lemma ToSwapPending(s: State, x: Xid)
    requires Inv(s) && MaySwap(s, x)
    ensures SwapPending(s.txs, s.p, Choice(x, s.txs[x].swappedMax + 1))
  {
    hide ChunksOk, AllTxOk, CommittedOk, ManagerOk;
    TxOkOf(s, x);
  }

  lemma ChooseKeeps(s: State, choice: Option<Xid>)
    requires Inv(s) && s.m.Idle?
    ensures Kept(Select(s, choice))
  {
    hide PoolOk, Accounted, Located, AllTxOk, CommittedOk, Shape;
    var r := Select(s, choice);
    if ToUnswap(s).Some? { ToUnswapPending(s); }
    if r.Next? {
      if choice.Some? { ToSwapPending(s, choice.value); }
      OneTxChanged(s, r.s, NO_XID);
      NothingMoved(s.txs, s.p, s.m, s.place, r.s.txs, r.s.p, r.s.m);
    }
  }

  // ------------------------------------------------------------ bringing a chunk back

  lemma ReadKeeps(s: State, os: Address)
    requires Inv(s) && s.m.Selected? && s.m.unswap.Some? && s.sys.Unused(os)
    ensures Kept(Load(s, os))
  {
    hide PoolOk, Accounted, Located, AllTxOk, CommittedOk, Shape, Get;
    AcquireOk(s, true, os, WithManager);
    TxOkOf(s, s.m.unswap.value.x);
    ShapeHasFile(s);
    var r := Load(s, os);
    if r.Next? {
      if s.p.Growing? { HeldByParser(s); }
      OneTxChanged(s, r.s, NO_XID);
      ChunkAdded(s.txs, s.p, s.m, s.place, r.s.p, r.s.m, Acquired(s, true, os), WithManager);
    }
  }

  lemma ShapeHasFile(s: State)
    requires AllTxOk(s) && s.m.Selected? && s.m.unswap.Some? && UnswapPending(s.txs, s.p, s.m.unswap.value)
    ensures var Choice(x, i) := s.m.unswap.value;
            x in s.files && 0 <= i < |s.files[x]| && i < |s.txs[x].chunks|
  {
    TxOkOf(s, s.m.unswap.value.x);
  }

  lemma ShapeInstalledFirst(sc: SwapChunk, flush: Option<nat>, retreating: bool, a: Address)
    requires Shape(sc, flush, retreating) && sc.swappedMin >= 0
    requires sc.swappedMin < sc.swappedMax ==> flush.Some?
    ensures var i := sc.swappedMin;
            var one := sc.swappedMin == sc.swappedMax;
            Shape(sc.(chunks := sc.chunks[i := Some(a)], swappedMin := if one then -1 else i + 1,
                      swappedMax := if one then -1 else sc.swappedMax), flush, retreating)
  {
  }

  lemma ShapeInstalledLast(sc: SwapChunk, flush: Option<nat>, retreating: bool, a: Address)
    requires Shape(sc, flush, retreating) && 0 <= sc.swappedMin < sc.swappedMax
    ensures Shape(sc.(chunks := sc.chunks[sc.swappedMax := Some(a)], swappedMax := sc.swappedMax - 1), flush, retreating)
  {
  }

  lemma PlaceKeepsTx(s: State)
    requires Inv(s) && s.m.Loaded?
    ensures var r := Install(s);
            && r.Next? && s.m.x in r.s.txs
            && TxOk(r.s.txs[s.m.x], s.m.x, r.s.p, r.s.last, r.s.files, r.s.m)
  {
    hide ChunksOk, AllTxOk, CommittedOk, Shape;
    var Loaded(x, i, a, swap) := s.m;
    var sc := s.txs[x];
    TxOkOf(s, x);
    SwappedSomewhere(sc, FlushNext(s.p, x), Retreating(s.p, x));
    if sc.swappedMin == i {
      ShapeInstalledFirst(sc, FlushNext(s.p, x), Retreating(s.p, x), a);
    } else {
      ShapeInstalledLast(sc, FlushNext(s.p, x), Retreating(s.p, x), a);
    }
    LastSlotKept(sc, FlushNext(s.p, x), Retreating(s.p, x), i, a);
  }

  lemma SwappedSomewhere(sc: SwapChunk, flush: Option<nat>, retreating: bool)
    requires Shape(sc, flush, retreating) && (sc.swappedMax >= 0 || sc.swappedMin >= 0)
    ensures 0 <= sc.swappedMin <= sc.swappedMax < |sc.chunks|
    ensures sc.chunks[sc.swappedMin].None? && sc.chunks[sc.swappedMax].None?
  {
  }

  lemma LastSlotKept(sc: SwapChunk, flush: Option<nat>, retreating: bool, i: nat, a: Address)
    requires Shape(sc, flush, retreating) && sc.swappedMin <= i <= sc.swappedMax
    ensures !retreating ==> i < |sc.chunks| - 1
  {
  }

  lemma PlaceMoves(s: State)
    requires Located(s.txs, s.place, s.p, s.m) && s.m.Loaded? && Install(s).Next?
    requires s.txs[s.m.x].chunks[s.m.index].None? && !(s.p.Removing? && s.p.x == s.m.x)
    ensures var t := Install(s).s; Located(t.txs, t.place, t.p, t.m)
  {
    hide Located;
    var Loaded(x, i, a, swap) := s.m;
    var t := Install(s).s;
    HeldByManager(s);
    ChunkMoved(s.txs, s.p, s.m, s.place, t.txs, t.p, t.m, a, WithManager, At(x, i));
  }

  lemma PlaceKeepsManager(s: State)
    requires Inv(s) && s.m.Loaded? && Install(s).Next?
    ensures var t := Install(s).s; ManagerOk(t.txs, t.files, t.mem, t.p, t.m)
  {
    hide ChunksOk, AllTxOk, CommittedOk, ParserOk;
  }

  /** What an install leaves alone. */
  lemma PlaceFrame(s: State)
    requires s.m.Loaded? && Install(s).Next?
    ensures var t := Install(s).s;
            && SameExcept(s, t, s.m.x) && s.m.x in t.txs && s.m.x in s.txs
            && t.txs == s.txs[s.m.x := t.txs[s.m.x]] && t.txs[s.m.x].release == s.txs[s.m.x].release
            && |t.txs[s.m.x].chunks| == |s.txs[s.m.x].chunks|
            && t == s.(txs := t.txs, files := t.files, place := s.place[s.m.chunk := At(s.m.x, s.m.index)], m := t.m)
  {
  }

  lemma PlaceKeeps(s: State)
    requires Inv(s) && s.m.Loaded?
    ensures Kept(Install(s))
  {
    hide PoolOk, Located, AllTxOk, CommittedOk, Shape, Install;
    var x := s.m.x;
    PlaceKeepsTx(s);
    PlaceKeepsManager(s);
    PlaceFrame(s);
    var t := Install(s).s;
    TxOkOf(s, x);
    SwappedSomewhere(s.txs[x], FlushNext(s.p, x), Retreating(s.p, x));
    HeldByManager(s);
    PlaceMoves(s);
    OneTxChanged(s, t, x);
    CommittedSame(s.txs, s.committed, s.p, x, t.txs[x], t.p);
  }

  // ------------------------------------------------------------ swapping a chunk out

  lemma ShapeDetached(sc: SwapChunk, flush: Option<nat>, retreating: bool, i: nat)
    requires Shape(sc, flush, retreating) && sc.swappedMin <= 0 && i < |sc.chunks| - 1 && sc.swappedMax == i - 1
    requires flush.Some? ==> i >= 1
    ensures sc.chunks[i].Some?
    ensures Shape(sc.(chunks := sc.chunks[i := None], swappedMax := i,
                      swappedMin := if sc.swappedMin == -1 then i else sc.swappedMin), flush, retreating)
  {
  }

  /** What a detach changes, and that it leaves the rest alone. */
  lemma TakeFrame(s: State)
    requires s.m.Selected? && s.m.unswap.None? && s.m.swap.Some? && WouldDetach(s.txs, s.m.swap.value) && Detach(s).Next?
    ensures var t := Detach(s).s;
            var Choice(x, i) := s.m.swap.value;
            && 0 <= i < |s.txs[x].chunks| && s.txs[x].chunks[i].Some?
            && SameExcept(s, t, x) && x in t.txs && t.txs == s.txs[x := t.txs[x]]
            && t.txs[x].release == s.txs[x].release && t.txs[x].chunks == s.txs[x].chunks[i := None] && t.txs[x].swappedMax == i
            && t == s.(txs := t.txs, place := s.place[s.txs[x].chunks[i].value := WithManager], m := Detached(x, i, s.txs[x].chunks[i].value))
  {
  }

  lemma TakeKeepsTx(s: State)
    requires Inv(s) && s.m.Selected? && s.m.unswap.None? && s.m.swap.Some? && WouldDetach(s.txs, s.m.swap.value)
    ensures var Choice(x, i) := s.m.swap.value;
            var r := Detach(s);
            && r.Next? && x in r.s.txs && TxOk(r.s.txs[x], x, r.s.p, r.s.last, r.s.files, r.s.m)
            && x in s.txs && !s.txs[x].release && 0 <= i < |s.txs[x].chunks| && s.txs[x].chunks[i].Some?
            && s.txs[x].chunks[i].value in s.place
  {
    hide PoolOk, Accounted, Located, AllTxOk, CommittedOk, Shape;
    var Choice(x, i) := s.m.swap.value;
    TxOkOf(s, x);
    ShapeDetached(s.txs[x], FlushNext(s.p, x), Retreating(s.p, x), i);
    ChunkPlaced(s, x, i);
  }

  lemma TakeMoves(s: State, x: Xid, i: nat, a: Address, t: State)
    requires Located(s.txs, s.place, s.p, s.m) && s.m.Selected? && x in s.txs && i < |s.txs[x].chunks| && s.txs[x].chunks[i] == Some(a)
    requires !Stale(s.p, x, i)
    requires x in t.txs && t.txs == s.txs[x := t.txs[x]] && t.txs[x].chunks == s.txs[x].chunks[i := None]
    requires t.p == s.p && t.m == Detached(x, i, a) && t.place == s.place[a := WithManager]
    ensures Located(t.txs, t.place, t.p, t.m)
  {
    hide Located;
    ChunkPlaced(s, x, i);
    ChunkMoved(s.txs, s.p, s.m, s.place, t.txs, t.p, t.m, a, At(x, i), WithManager);
  }

  lemma TakeCarriedOut(s: State)
    requires Inv(s) && s.m.Selected? && s.m.unswap.None? && s.m.swap.Some? && WouldDetach(s.txs, s.m.swap.value)
    ensures Kept(Detach(s))
  {
    hide PoolOk, Located, AllTxOk, CommittedOk, TxOk, Detach, WouldDetach, SameExcept;
    var Choice(x, i) := s.m.swap.value;
    TakeKeepsTx(s);
    TakeFrame(s);
    var t := Detach(s).s;
    TakeMoves(s, x, i, s.txs[x].chunks[i].value, t);
    OneTxChanged(s, t, x);
    CommittedSame(s.txs, s.committed, s.p, x, t.txs[x], t.p);
  }

  lemma TakeKeeps(s: State)
    requires Inv(s) && s.m.Selected? && s.m.unswap.None? && s.m.swap.Some?
    ensures Kept(Detach(s))
  {
    hide PoolOk, Accounted, Located, AllTxOk, CommittedOk, Shape;
    if WouldDetach(s.txs, s.m.swap.value) {
      TakeCarriedOut(s);
    } else {
      var t := Detach(s).s;
      OneTxChanged(s, t, NO_XID);
      NothingMoved(s.txs, s.p, s.m, s.place, t.txs, t.p, t.m);
    }
  }

  lemma StoreKeeps(s: State)
    requires Inv(s) && s.m.Detached?
    ensures Kept(WriteChunk(s))
  {
    hide PoolOk, Accounted, Located, AllTxOk, CommittedOk, Shape;
    var x := s.m.x;
    TxOkOf(s, x);
    var t := WriteChunk(s).s;
    OneTxChanged(s, t, x);
    NothingMoved(s.txs, s.p, s.m, s.place, t.txs, t.p, t.m);
  }

  /** A chunk given back to a transaction that waits to shrink. */
  lemma ShapeGivenBack(sc: SwapChunk, a: Address)
    requires Shape(sc, None, true) && sc.swappedMax >= 0
    ensures sc.swappedMin == 0
    ensures var i := sc.swappedMax;
            Shape(sc.(chunks := sc.chunks[i := Some(a)], swappedMin := if i == 0 then -1 else sc.swappedMin,
                      swappedMax := if i == 0 then -1 else i - 1), None, true)
  {
  }

  /** What giving the chunk back changes. */
  lemma FinishFrame(s: State)
    requires s.m.Written? && s.shrinkXid == s.m.x && FinishSwap(s).Next?
    ensures var t := FinishSwap(s).s;
            var Written(x, i, a) := s.m;
            && x in s.txs && 0 <= i < |s.txs[x].chunks|
            && SameExcept(s, t, x) && x in t.txs && t.txs == s.txs[x := t.txs[x]]
            && t.txs[x].release == s.txs[x].release && t.txs[x].chunks == s.txs[x].chunks[i := Some(a)]
            && (t.m.Discarding? || t.m.Truncating?)
            && t == s.(txs := t.txs, place := s.place[a := At(x, i)], m := t.m)
  {
  }

  lemma FinishKeepsTx(s: State)
    requires Inv(s) && s.m.Written? && s.shrinkXid == s.m.x
    ensures var r := FinishSwap(s);
            && r.Next? && s.m.x in r.s.txs && TxOk(r.s.txs[s.m.x], s.m.x, r.s.p, r.s.last, r.s.files, r.s.m)
            && ManagerOk(r.s.txs, r.s.files, r.s.mem, r.s.p, r.s.m)
  {
    hide ChunksOk, AllTxOk, CommittedOk, Shape;
    var Written(x, i, a) := s.m;
    TxOkOf(s, x);
    ShapeGivenBack(s.txs[x], a);
    SwappedInRange(s.txs[x]);
  }

  lemma FinishMoves(s: State, t: State)
    requires Located(s.txs, s.place, s.p, s.m) && s.m.Written? && (t.m.Discarding? || t.m.Truncating?) && t.p == s.p && !s.p.Removing?
    requires var Written(x, i, a) := s.m;
             && x in s.txs && 0 <= i < |s.txs[x].chunks| && s.txs[x].chunks[i].None?
             && x in t.txs && t.txs == s.txs[x := t.txs[x]] && t.txs[x].chunks == s.txs[x].chunks[i := Some(a)]
             && t.place == s.place[a := At(x, i)]
    ensures Located(t.txs, t.place, t.p, t.m)
  {
    hide Located;
    HeldByManager(s);
    ChunkMoved(s.txs, s.p, s.m, s.place, t.txs, t.p, t.m, s.m.chunk, WithManager, At(s.m.x, s.m.index));
  }

  lemma FinishGivesBack(s: State)
    requires Inv(s) && s.m.Written? && s.shrinkXid == s.m.x
    ensures Kept(FinishSwap(s))
  {
    hide PoolOk, Located, AllTxOk, CommittedOk, Shape, FinishSwap, SameExcept;
    FinishKeepsTx(s);
    FinishFrame(s);
    var x, t := s.m.x, FinishSwap(s).s;
    TxOkOf(s, x);
    SwappedInRange(s.txs[x]);
    HeldByManager(s);
    FinishMoves(s, t);
    OneTxChanged(s, t, x);
    CommittedSame(s.txs, s.committed, s.p, x, t.txs[x], t.p);
  }

  lemma FinishKeeps(s: State)
    requires Inv(s) && s.m.Written?
    ensures Kept(FinishSwap(s))
  {
    hide PoolOk, Accounted, Located, AllTxOk, CommittedOk, Shape;
    if s.shrinkXid == s.m.x {
      FinishGivesBack(s);
    } else {
      var t := FinishSwap(s).s;
      OneTxChanged(s, t, NO_XID);
      NothingMoved(s.txs, s.p, s.m, s.place, t.txs, t.p, t.m);
    }
  }

  lemma SwappedInRange(sc: SwapChunk)
    requires Shape(sc, None, true) && sc.swappedMax >= 0
    ensures sc.swappedMax < |sc.chunks| && sc.chunks[sc.swappedMax].None?
  {
  }

  lemma DropFileKeeps(s: State)
    requires Inv(s) && s.m.Discarding?
    ensures Kept(DiscardFile(s))
  {
    hide PoolOk, Accounted, Located, AllTxOk, CommittedOk, Shape;
    var x := s.m.x;
    TxOkOf(s, x);
    var t := DiscardFile(s).s;
    OneTxChanged(s, t, x);
    NothingMoved(s.txs, s.p, s.m, s.place, t.txs, t.p, t.m);
  }

  lemma CutFileKeeps(s: State)
    requires Inv(s) && s.m.Truncating?
    ensures Kept(TruncateFile(s))
  {
    hide PoolOk, Accounted, Located, AllTxOk, CommittedOk, Shape;
    var x := s.m.x;
    TxOkOf(s, x);
    var t := TruncateFile(s).s;
    OneTxChanged(s, t, x);
    NothingMoved(s.txs, s.p, s.m, s.place, t.txs, t.p, t.m);
  }

  lemma GiveKeeps(s: State)
    requires Inv(s) && s.m.Returning?
    ensures Kept(ReturnChunk(s))
  {
    hide PoolOk, Accounted, Located, AllTxOk, CommittedOk, Shape, Free;
    HeldByManager(s);
    DiscardOk(s, s.m.chunk);
    var t := ReturnChunk(s).s;
    OneTxChanged(s, t, NO_XID);
    ChunkDropped(s.txs, s.p, s.m, s.place, t.p, t.m, s.m.chunk);
  }
}
