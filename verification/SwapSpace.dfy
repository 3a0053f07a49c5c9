/** The shared variables of the swap protocol as an object, with the critical sections of
    `MemoryManager` and `Ctx` that change them in place. */
module SwapSpace {
  import opened Basics
  import opened ChunkPool
  import opened SwapProtocol
  import opened SwapInvariant

  /** What a critical section leaves behind. `fault` says what goes wrong in the original, which
      raises an error for it or does not notice it; the model stops there, and only the use of a
      chunk that was already freed cannot be seen from the shared variables. */
  ghost predicate Ends(before: State, r: Result, fault: Option<Mistake>, after: State) {
    match r
    case Next(s) => fault.None? && after == s
    case Blocked => fault.None? && after == before
    case Fault(k) => fault == Some(k) && (k != FreedChunk ==> after == before)
  }

  class Space {
    var swapChunks: map<Xid, SwapChunk>
    var commitedXids: seq<Xid>
    var swappedFlushXid: Xid
    var swappedShrinkXid: Xid
    var swapFiles: map<Xid, seq<Page>>
    /** Everything else: the allocator, the memory, and where each thread is. */
    ghost var rest: State

    ghost function Now(): State
      reads this
    {
      rest.(txs := swapChunks, committed := commitedXids, flushXid := swappedFlushXid,
            shrinkXid := swappedShrinkXid, files := swapFiles)
    }

    /** `MemoryManager::getChunkToSwap`: some transaction with a chunk that may be swapped out;
        none only if there is none, or nothing has to be swapped. */
    method GetChunkToSwap(nothingToSwap: bool) returns (choice: Option<Choice>)
      ensures choice.Some? ==> !nothingToSwap && MaySwap(Now(), choice.value.x)
                               && choice.value.index == swapChunks[choice.value.x].swappedMax + 1
      ensures choice.None? ==> nothingToSwap || forall x :: !MaySwap(Now(), x)
    {
      if nothingToSwap {
        return None;
      }
      var left := swapChunks.Keys;
      while left != {}
        invariant left <= swapChunks.Keys
        invariant forall x :: x in swapChunks && x !in left ==> !MaySwap(Now(), x)
      {
        var x :| x in left;
        left := left - {x};
        var sc := swapChunks[x];
        if swappedFlushXid == x || sc.release || |sc.chunks| <= 1 {
          continue;
        }
        if sc.swappedMax < |sc.chunks| - 2 {
          return Some(Choice(x, sc.swappedMax + 1));
        }
      }
      choice := None;
    }

    /** `MemoryManager::cleanOldTransactions`, run to its end: the removed transactions and their
        swap files are forgotten, and no others. */
    method CleanOldTransactions()
      modifies this
      ensures commitedXids == [] && rest == old(rest)
      ensures swappedFlushXid == old(swappedFlushXid) && swappedShrinkXid == old(swappedShrinkXid)
      ensures forall x :: x in swapChunks <==> x in old(swapChunks) && x !in old(commitedXids)
      ensures forall x :: x in swapChunks ==> swapChunks[x] == old(swapChunks)[x]
      ensures forall x :: x in swapFiles <==> x in old(swapFiles) && !(x in old(commitedXids) && x in old(swapChunks))
      ensures forall x :: x in swapFiles ==> swapFiles[x] == old(swapFiles)[x]
    {
      ghost var gone: set<Xid> := {};
      while commitedXids != []
        invariant rest == old(rest) && swappedFlushXid == old(swappedFlushXid) && swappedShrinkXid == old(swappedShrinkXid)
        invariant forall x :: x in old(commitedXids) <==> x in commitedXids || x in gone
        invariant swapChunks == old(swapChunks) - gone && swapFiles == old(swapFiles) - (gone * old(swapChunks).Keys)
        decreases |commitedXids|
      {
        var n := |commitedXids| - 1;
        var xid := commitedXids[n];
        assert commitedXids == commitedXids[..n] + [xid];
        commitedXids := commitedXids[..n];
        gone := gone + {xid};
        if xid in swapChunks {
          swapChunks := swapChunks - {xid};
          swapFiles := swapFiles - {xid};
        }
      }
    }

    /** The first critical section of `MemoryManager::swap`. */
    method SwapDetach(xid: Xid, index: int) returns (tc: Option<Address>, ghost fault: Option<Mistake>)
      requires Now().m == Selected(None, Some(Choice(xid, index)))
      modifies this
      ensures Ends(old(Now()), old(Detach(Now())), fault, Now())
      ensures fault.None? ==> (tc.Some? <==> old(WouldDetach(swapChunks, Choice(xid, index))))
      ensures fault.None? && tc.Some? ==> Now().m == Detached(xid, index, tc.value)
    {
      ghost var done := Detach(Now());
      tc, fault := None, if done.Fault? then Some(done.mistake) else None;
      if xid !in swapChunks {
        return;
      }
      var sc := swapChunks[xid];
      if |sc.chunks| <= 1 || index >= |sc.chunks| - 1 || sc.swappedMax != index - 1 {
        rest := rest.(m := Idle);
        return;
      }
      if index < 0 || sc.chunks[index].None? {
        return;
      }
      tc := sc.chunks[index];
      sc := sc.(swappedMax := index);
      if sc.swappedMin == -1 {
        sc := sc.(swappedMin := sc.swappedMax);
      }
      sc := sc.(chunks := sc.chunks[index := None]);
      swapChunks := swapChunks[xid := sc];
      rest := rest.(place := rest.place[tc.value := WithManager], m := Detached(xid, index, tc.value));
    }

    /** The second critical section of `MemoryManager::swap`, with the file operation after it
        still to come: delete the file, cut it to `truncateSize` pages, or free the chunk. */
    method SwapFinish(xid: Xid, index: int, tc: Address)
      returns (remove: bool, truncateSize: nat, ghost fault: Option<Mistake>)
      requires Now().m == Written(xid, index, tc)
      modifies this
      ensures Ends(old(Now()), old(FinishSwap(Now())), fault, Now())
      ensures fault.None? ==>
                Now().m == if remove then Discarding(xid)
                           else if truncateSize > 0 then Truncating(xid, truncateSize)
                           else Returning(tc)
    {
      ghost var done := FinishSwap(Now());
      remove, truncateSize, fault := false, 0, if done.Fault? then Some(done.mistake) else None;
      if swappedShrinkXid == xid {
        if xid !in swapChunks {
          return;
        }
        var sc := swapChunks[xid];
        if !(0 <= index < |sc.chunks|) || sc.swappedMax < 0 {
          return;
        }
        sc := sc.(chunks := sc.chunks[index := Some(tc)]);
        if sc.swappedMax == 0 {
          sc := sc.(swappedMin := -1, swappedMax := -1);
          remove := true;
        } else {
          sc := sc.(swappedMax := sc.swappedMax - 1);
          truncateSize := sc.swappedMax + 1;
        }
        swapChunks := swapChunks[xid := sc];
      }
      rest := rest.(place := done.s.place, m := done.s.m);
    }

    /** The critical section of `MemoryManager::unswap`. In a state that satisfies the invariant
        the branch that deletes the file is never taken. */
    method UnswapInstall(xid: Xid, index: int, tc: Address) returns (ghost fault: Option<Mistake>)
      requires Now().m.Loaded? && Now().m.x == xid && Now().m.index == index && Now().m.chunk == tc
      modifies this
      ensures Ends(old(Now()), old(Install(Now())), fault, Now())
    {
      ghost var done := Install(Now());
      fault := if done.Fault? then Some(done.mistake) else None;
      if xid !in swapChunks {
        return;
      }
      var sc := swapChunks[xid];
      if (sc.swappedMin != index && sc.swappedMax != index) || !(0 <= index < |sc.chunks|) {
        return;
      }
      if sc.swappedMin == index {
        sc := sc.(chunks := sc.chunks[sc.swappedMin := Some(tc)]);
        if sc.swappedMin == sc.swappedMax {
          sc := sc.(swappedMin := -1, swappedMax := -1);
        } else {
          sc := sc.(swappedMin := sc.swappedMin + 1);
        }
      } else {
        if xid !in swapFiles {
          return;
        }
        sc := sc.(chunks := sc.chunks[sc.swappedMax := Some(tc)]);
        sc := sc.(swappedMax := sc.swappedMax - 1);
        swapFiles := swapFiles[xid := Truncated(swapFiles[xid], sc.swappedMax + 1)];
      }
      swapChunks := swapChunks[xid := sc];
      rest := rest.(place := done.s.place, m := done.s.m);
    }

    /** The first critical section of `Ctx::swappedMemoryShrink`. */
    method ShrinkFirst(xid: Xid) returns (tc: Option<Address>, ghost fault: Option<Mistake>)
      modifies this
      ensures Ends(old(Now()), old(ShrinkPop(Now(), xid)), fault, Now())
      ensures fault.None? <==> tc.Some?
      ensures tc.Some? ==> Now().p == Popped(xid, tc.value)
    {
      ghost var done := ShrinkPop(Now(), xid);
      tc, fault := None, if done.Fault? then Some(done.mistake) else None;
      if xid !in swapChunks {
        return;
      }
      var sc := swapChunks[xid];
      var n := |sc.chunks|;
      if n == 0 || sc.chunks[n - 1].None? {
        return;
      }
      tc := sc.chunks[n - 1];
      swapChunks := swapChunks[xid := sc.(chunks := sc.chunks[..n - 1])];
      rest := rest.(place := done.s.place, last := done.s.last, p := done.s.p);
    }

    /** The second critical section of `Ctx::swappedMemoryShrink` up to the point where it waits
        (`waits`) or returns the new last chunk, if there is one. */
    method ShrinkSecond(xid: Xid) returns (waits: bool, tc: Option<Address>, ghost fault: Option<Mistake>)
      requires Now().p == Shrinking(xid)
      modifies this
      ensures Ends(old(Now()), old(ShrinkLock(Now())), fault, Now())
      ensures fault.None? ==> (waits <==> Now().p == AwaitingLast(xid))
      ensures fault.None? && !waits && swapChunks[xid].chunks != [] ==>
                tc == swapChunks[xid].chunks[|swapChunks[xid].chunks| - 1] && tc.Some?
    {
      ghost var done := ShrinkLock(Now());
      waits, tc, fault := false, None, if done.Fault? then Some(done.mistake) else None;
      if xid !in swapChunks {
        return;
      }
      var sc := swapChunks[xid];
      if |sc.chunks| > 0 {
        var index := |sc.chunks| - 1;
        if index < sc.swappedMin || index > sc.swappedMax {
          tc := sc.chunks[index];
          if tc.None? {
            return;
          }
          swappedShrinkXid := NO_XID;
        } else {
          swappedShrinkXid := xid;
          waits := true;
        }
      }
      rest := rest.(last := done.s.last, p := done.s.p);
    }
  }
}
