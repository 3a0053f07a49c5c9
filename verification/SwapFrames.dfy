/** Small facts about the parts of the invariant: what a change in one place does to each. */
module SwapFrames {
  import opened Basics
  import opened ChunkPool
  import opened SwapProtocol
  import opened SwapInvariant

  // ------------------------------------------------------------ where chunks are

  /** Everything else stays where it was. */
  ghost predicate OnlyMoved(txs: map<Xid, SwapChunk>, p: Parser, m: Manager,
                            txs': map<Xid, SwapChunk>, p': Parser, m': Manager, places: set<Place>) {
    forall at :: at !in places ==> ChunkAt(txs', p', m', at) == ChunkAt(txs, p, m, at)
  }

  lemma ChunkMoved(txs: map<Xid, SwapChunk>, p: Parser, m: Manager, place: map<Address, Place>,
                   txs': map<Xid, SwapChunk>, p': Parser, m': Manager, a: Address, from: Place, to: Place)
    requires Located(txs, place, p, m) && a in place && place[a] == from && from != to
    requires ChunkAt(txs, p, m, to).None?
    requires ChunkAt(txs', p', m', from).None? && ChunkAt(txs', p', m', to) == Some(a)
    requires OnlyMoved(txs, p, m, txs', p', m', {from, to})
    ensures Located(txs', place[a := to], p', m')
  {
    hide ChunkAt;
  }

  lemma ChunkAdded(txs: map<Xid, SwapChunk>, p: Parser, m: Manager, place: map<Address, Place>,
                   p': Parser, m': Manager, a: Address, to: Place)
    requires Located(txs, place, p, m) && a !in place
    requires ChunkAt(txs, p, m, to).None? && ChunkAt(txs, p', m', to) == Some(a)
    requires OnlyMoved(txs, p, m, txs, p', m', {to})
    ensures Located(txs, place[a := to], p', m')
  {
    hide ChunkAt;
  }

  lemma ChunkDropped(txs: map<Xid, SwapChunk>, p: Parser, m: Manager, place: map<Address, Place>,
                     p': Parser, m': Manager, a: Address)
    requires Located(txs, place, p, m) && a in place
    requires ChunkAt(txs, p', m', place[a]).None?
    requires OnlyMoved(txs, p, m, txs, p', m', {place[a]})
    ensures Located(txs, place - {a}, p', m')
  {
    hide ChunkAt;
  }

  lemma NothingMoved(txs: map<Xid, SwapChunk>, p: Parser, m: Manager, place: map<Address, Place>,
                     txs': map<Xid, SwapChunk>, p': Parser, m': Manager)
    requires Located(txs, place, p, m)
    requires OnlyMoved(txs, p, m, txs', p', m', {})
    ensures Located(txs', place, p', m')
  {
    hide ChunkAt;
  }

  // ------------------------------------------------------------ the allocator

  lemma AcquireOk(s: State, swap: bool, os: Address, holder: Place)
    requires PoolOk(s.limits, s.sys) && Accounted(s.place, s.sys.owner) && s.sys.Unused(os)
    ensures var r := Acquire(s, swap, os, holder);
            && !r.Fault?
            && (r.Next? ==> && Acquired(s, swap, os) !in s.place
                            && PoolOk(s.limits, r.s.sys) && Accounted(r.s.place, r.s.sys.owner))
  {
    hide ChunkPool.Invariant, ChunkPool.Get;
    GetKeepsInvariant(s.limits, s.sys, TRANSACTIONS, swap, os);
  }

  lemma DiscardOk(s: State, a: Address)
    requires PoolOk(s.limits, s.sys) && Accounted(s.place, s.sys.owner) && a in s.place
    ensures var r := Discard(s, a);
            r.Next? && PoolOk(s.limits, r.s.sys) && Accounted(r.s.place, r.s.sys.owner)
  {
    hide ChunkPool.Invariant, ChunkPool.Free;
    FreeKeepsInvariant(s.limits, s.sys, a);
  }

  lemma OtherAcquireOk(s: State, memory: Memory, swap: bool, os: Address)
    requires PoolOk(s.limits, s.sys) && Accounted(s.place, s.sys.owner) && s.sys.Unused(os) && memory != TRANSACTIONS
    ensures var r := OtherAcquire(s, memory, swap, os);
            && !r.Fault?
            && (r.Next? ==> PoolOk(s.limits, r.s.sys) && Accounted(r.s.place, r.s.sys.owner))
  {
    hide ChunkPool.Invariant, ChunkPool.Get;
    GetKeepsInvariant(s.limits, s.sys, memory, swap, os);
  }

  lemma OtherDiscardOk(s: State, a: Address)
    requires PoolOk(s.limits, s.sys) && Accounted(s.place, s.sys.owner)
    requires a in s.sys.owner && s.sys.owner[a] != TRANSACTIONS
    ensures var r := OtherDiscard(s, a);
            r.Next? && PoolOk(s.limits, r.s.sys) && Accounted(r.s.place, r.s.sys.owner)
  {
    hide ChunkPool.Invariant, ChunkPool.Free;
    FreeKeepsInvariant(s.limits, s.sys, a);
  }

  // ------------------------------------------------------------ transactions

  /** Nothing that concerns transaction `y` differs between `s` and `t`. */
  ghost predicate SameFor(s: State, t: State, y: Xid) {
    && (y in t.txs <==> y in s.txs) && (y in s.txs ==> t.txs[y] == s.txs[y])
    && FlushNext(t.p, y) == FlushNext(s.p, y) && Retreating(t.p, y) == Retreating(s.p, y)
    && (y in t.last <==> y in s.last) && (y in s.last ==> t.last[y] == s.last[y])
    && (y in t.files <==> y in s.files) && (y in s.files ==> t.files[y] == s.files[y])
    && (t.m.Detached? && t.m.x == y <==> s.m.Detached? && s.m.x == y)
  }

  ghost predicate SameExcept(s: State, t: State, x: Xid) {
    forall y :: y != x ==> SameFor(s, t, y)
  }

  lemma TxOkOf(s: State, x: Xid)
    requires AllTxOk(s) && x in s.txs
    ensures TxOk(s.txs[x], x, s.p, s.last, s.files, s.m)
  {
  }

  lemma OneTxChanged(s: State, t: State, x: Xid)
    requires AllTxOk(s) && SameExcept(s, t, x)
    requires x in t.txs ==> TxOk(t.txs[x], x, t.p, t.last, t.files, t.m)
    ensures AllTxOk(t)
  {
    hide Shape;
    forall y | y in t.txs
      ensures TxOk(t.txs[y], y, t.p, t.last, t.files, t.m)
    {
      if y != x {
        assert SameFor(s, t, y);
        TxOkOf(s, y);
      }
    }
  }

  /** A transaction that is not being removed is not yet committed. */
  lemma CommittedSame(txs: map<Xid, SwapChunk>, committed: seq<Xid>, p: Parser, x: Xid, sc: SwapChunk, p': Parser)
    requires CommittedOk(txs, committed, p)
    requires x in txs ==> !txs[x].release || (p.Removing? && p.x == x)
    requires p' == p || (p'.Removing? ==> p'.x == x)
    ensures CommittedOk(txs[x := sc], committed, p')
  {
  }

  // ------------------------------------------------------------ lists

  ghost predicate InMemory(s: State) {
    Located(s.txs, s.place, s.p, s.m) && ParserOk(s.txs, s.flushXid, s.shrinkXid, s.p)
  }

  /** The chunks that lie in the list of `y` keep their contents. */
  ghost predicate SamePages(s: State, t: State, y: Xid) {
    forall a :: a in s.place && s.place[a].At? && s.place[a].x == y ==> Content(t.mem, a) == Content(s.mem, a)
  }

  /** The chunk of `y` that is being written to the file, if any, is the same one. */
  ghost predicate SameFlight(s: State, t: State, y: Xid) {
    && (forall i :: InFlight(t.m, y, i) == InFlight(s.m, y, i))
    && (forall i :: InFlight(s.m, y, i) ==> Content(t.mem, t.m.chunk) == Content(s.mem, s.m.chunk))
  }

  ghost predicate ListSame(s: State, t: State, y: Xid) {
    && (Active(t, y) <==> Active(s, y))
    && (Active(s, y) ==>
          && t.txs[y] == s.txs[y] && SamePages(s, t, y) && SameFlight(s, t, y)
          && (forall i :: s.txs[y].Swapped(i) ==> FilePage(t.files, y, i) == FilePage(s.files, y, i)))
  }

  lemma ListFramed(s: State, t: State, y: Xid)
    requires InMemory(s) && Active(s, y) && ListSame(s, t, y)
    ensures Active(t, y) && List(t, y) == List(s, y)
  {
    forall i: nat | i < |s.txs[y].chunks|
      ensures SlotOf(t.txs, t.mem, t.files, t.m, y, i) == SlotOf(s.txs, s.mem, s.files, s.m, y, i)
    {
      if !s.txs[y].Swapped(i) && s.txs[y].chunks[i].Some? {
        assert ChunkAt(s.txs, s.p, s.m, At(y, i)) == s.txs[y].chunks[i];
      }
    }
  }

  /** When every transaction keeps its list, so does the view. */
  lemma ViewFramed(s: State, t: State)
    requires InMemory(s) && forall y :: ListSame(s, t, y)
    ensures View(t) == View(s)
  {
    hide InMemory, List;
    forall y | Active(s, y)
      ensures Active(t, y) && List(t, y) == List(s, y)
    {
      assert ListSame(s, t, y);
      ListFramed(s, t, y);
    }
    forall y | Active(t, y) ensures Active(s, y) {
      assert ListSame(s, t, y);
    }
  }

  /** When every transaction but `x` keeps its list, the view changes at `x` only. */
  lemma ViewChanged(s: State, t: State, x: Xid)
    requires InMemory(s) && forall y :: y != x ==> ListSame(s, t, y)
    ensures Active(t, x) ==> View(t) == View(s)[x := List(t, x)]
    ensures !Active(t, x) ==> View(t) == View(s) - {x}
  {
    hide InMemory, List;
    forall y | y != x && Active(s, y)
      ensures Active(t, y) && List(t, y) == List(s, y)
    {
      assert ListSame(s, t, y);
      ListFramed(s, t, y);
    }
    forall y | y != x && Active(t, y) ensures Active(s, y) {
      assert ListSame(s, t, y);
    }
  }
}
