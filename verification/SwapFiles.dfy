/** What the swap files and the remembered last chunks hold beyond what is needed: nothing but a page
    that was left over. */
module SwapFiles {
  import opened Basics
  import opened ChunkPool
  import opened SwapProtocol
  import opened SwapInvariant
  import opened SwapFrames
  import opened SwapRefinement
  import opened SwapRuns
  import opened SwapConflicts

  /** How many pages the file of a transaction has while the manager is where it is. Bringing the only
      swapped chunk back leaves its page behind. */
  predicate Fitting(pages: nat, max: int, m: Manager, x: Xid) {
    match m
    case Unlinking(y) => y == x || pages <= 1 || pages <= max + 1
    case Detached(y, _, _) => if y == x then pages <= 1 || pages <= max else pages <= 1 || pages <= max + 1
    case Written(y, _, _) => if y == x then pages == max + 1 else pages <= 1 || pages <= max + 1
    case Discarding(y) => pages <= 1 || pages <= max + 1
    case Truncating(y, n) => if y == x then pages == n + 1 && max == n - 1 else pages <= 1 || pages <= max + 1
    case _ => pages <= 1 || pages <= max + 1
  }

  /** Every file belongs to a transaction, or is about to be deleted, and is no longer than it has to be;
      during a flush, which reads the pages from the front, it keeps its length. */
  ghost predicate FilesTidy(s: State) {
    forall x :: x in s.files ==>
      && (x in s.txs || s.m == Unlinking(x))
      && (Active(s, x) && s.flushXid != x ==> Fitting(|s.files[x]|, s.txs[x].swappedMax, s.m, x))
  }

  /** A last chunk is remembered only for a transaction that has one. */
  ghost predicate LastTidy(s: State) {
    forall x :: x in s.last ==> Active(s, x) && s.txs[x].chunks != []
  }

  ghost predicate Tidy(s: State) {
    FilesTidy(s) && LastTidy(s)
  }

  // ------------------------------------------------------------ the parser

  predicate OfParser(e: Move) {
    e.Init? || e.Grow? || e.Append? || e.Write? || e.Pop? || e.PopFree? || e.Lock? || e.Wake? || e.Flush? || e.Fetch?
    || e.Release? || e.ReleaseFree? || e.Remove? || e.RemoveNext? || e.RemoveLast? || e.OtherTake? || e.OtherGive?
  }

  /** No step of the parser touches a file or the swapped interval. */
  ghost predicate ParserFrame(s: State, t: State) {
    && t.files == s.files && t.m == s.m
    && (forall x :: x in s.txs ==> x in t.txs && t.txs[x].swappedMax == s.txs[x].swappedMax)
    && (forall x :: x in s.txs && Active(t, x) && t.flushXid != x ==> Active(s, x) && s.flushXid != x)
  }

  lemma ParserKeepsFiles(s: State, t: State)
    requires FilesTidy(s) && ParserFrame(s, t)
    ensures FilesTidy(t)
  {
  }

  ghost predicate Framed(s: State, r: Result) {
    r.Next? ==> ParserFrame(s, r.s) && (LastTidy(s) ==> LastTidy(r.s))
  }

  lemma InitFrame(s: State, x: Xid)
    requires Inv(s) && s.p.Ready? && x != NO_XID
    ensures Framed(s, InitTx(s, x))
  {
    hide Inv;
  }

  lemma GrowFrame(s: State, x: Xid, os: Address)
    ensures Framed(s, GrowAcquire(s, x, os))
  {
    hide Get;
  }

  lemma AppendFrame(s: State)
    requires Inv(s) && s.p.Growing?
    ensures Framed(s, GrowAppend(s))
  {
    hide ChunksOk, AllTxOk, CommittedOk, ManagerOk;
  }

  lemma WriteFrame(s: State, x: Xid, page: Page)
    ensures Framed(s, WriteLast(s, x, page))
  {
  }

  lemma OtherFrame(s: State, memory: Memory, swap: bool, os: Address)
    ensures Framed(s, OtherAcquire(s, memory, swap, os))
  {
    hide Get;
  }

  lemma OtherGivenFrame(s: State, a: Address)
    requires a in s.sys.owner
    ensures Framed(s, OtherDiscard(s, a))
  {
    hide Free;
  }

  lemma PopFrame(s: State, x: Xid)
    requires Inv(s) && s.p.Ready? && Active(s, x)
    ensures Framed(s, ShrinkPop(s, x))
  {
    hide Inv;
  }

  lemma FreedFrame(s: State)
    ensures s.p.Popped? ==> Framed(s, ShrinkFree(s))
    ensures s.p.Releasing? ==> Framed(s, FlushFree(s))
  {
    hide Free;
  }

  /** A step that changes no transaction and remembers only a last chunk that there is. */
  lemma QuietFrame(s: State, t: State)
    requires t.files == s.files && t.m == s.m && t.txs == s.txs && t.flushXid == s.flushXid
    requires forall x :: x in t.last ==> x in s.last || (Active(s, x) && s.txs[x].chunks != [])
    ensures Framed(s, Next(t))
  {
  }

  lemma LockFrame(s: State)
    requires Inv(s) && s.p.Shrinking?
    ensures Framed(s, ShrinkLock(s))
  {
    hide ChunksOk, AllTxOk, CommittedOk, ManagerOk, ParserFrame, LastTidy;
    var r := ShrinkLock(s);
    if r.Next? { QuietFrame(s, r.s); }
  }

  lemma WakeFrame(s: State)
    requires Inv(s) && s.p.AwaitingLast?
    ensures Framed(s, ShrinkWake(s))
  {
    hide ChunksOk, AllTxOk, CommittedOk, ManagerOk, ParserFrame, LastTidy;
    var r := ShrinkWake(s);
    if r.Next? { QuietFrame(s, r.s); }
  }

  lemma FlushFrame(s: State, x: Xid)
    requires Inv(s) && s.p.Ready?
    ensures Framed(s, FlushBegin(s, x))
  {
    hide ChunksOk, AllTxOk, CommittedOk, ManagerOk;
  }

  lemma FetchFrame(s: State)
    requires s.p.Flushing?
    ensures Framed(s, FlushGet(s))
  {
  }

  lemma ReleaseFrame(s: State, k: nat)
    requires s.p.Flushing?
    ensures Framed(s, FlushRelease(s, k))
  {
  }

  lemma RemoveFrame(s: State, x: Xid)
    requires Inv(s) && (s.p.Ready? || (s.p.Flushing? && s.p.x == x)) && Active(s, x)
    ensures Framed(s, RemoveBegin(s, x))
  {
    hide ChunksOk, AllTxOk, CommittedOk, ManagerOk;
  }

  lemma RemovingFrame(s: State)
    requires Inv(s) && s.p.Removing?
    ensures Framed(s, RemoveFree(s)) && Framed(s, RemoveEnd(s))
  {
    hide ChunksOk, AllTxOk, CommittedOk, ManagerOk, Free;
  }

  // ------------------------------------------------------------ the memory manager

  lemma PurgeTidy(s: State)
    requires Inv(s) && Tidy(s) && s.m.Idle? && Clean(s).Next?
    ensures Tidy(Clean(s).s)
  {
    hide ChunksOk, AllTxOk, ParserOk, ManagerOk;
  }

  lemma UnlinkTidy(s: State)
    requires Inv(s) && Tidy(s) && s.m.Unlinking?
    ensures Tidy(CleanUnlink(s).s)
  {
    hide Inv;
  }

  lemma ChooseTidy(s: State, choice: Option<Xid>)
    requires Tidy(s) && s.m.Idle? && Select(s, choice).Next?
    ensures Tidy(Select(s, choice).s)
  {
    hide ToUnswap, MaySwap;
  }

  lemma ReadTidy(s: State, os: Address)
    requires Tidy(s) && s.m.Selected? && s.m.unswap.Some? && Load(s, os).Next?
    ensures Tidy(Load(s, os).s)
  {
    hide Get;
  }

  lemma PlaceTidy(s: State)
    requires Inv(s) && Tidy(s) && s.m.Loaded? && Install(s).Next?
    ensures Tidy(Install(s).s)
  {
    hide ChunksOk, AllTxOk, CommittedOk, FilesTidy, LastTidy, Shape, ManagerOk, ParserOk;
    PlaceTidyFiles(s);
    PlaceTidyLast(s);
  }

  /** The manager ends a swap-in: for every other transaction nothing changes. */
  lemma OneFileTidy(s: State, t: State, x: Xid)
    requires FilesTidy(s) && s.m.Loaded? && (t.m.Idle? || t.m.Selected?) && t.flushXid == s.flushXid
    requires forall y :: y != x ==> (y in t.files <==> y in s.files) && (y in s.files ==> t.files[y] == s.files[y])
    requires forall y :: y != x ==> (y in t.txs <==> y in s.txs) && (y in s.txs ==> t.txs[y] == s.txs[y])
    requires x in t.txs && (x in t.files && Active(t, x) && t.flushXid != x ==> Fitting(|t.files[x]|, t.txs[x].swappedMax, t.m, x))
    ensures FilesTidy(t)
  {
  }

  lemma FittingOf(s: State, x: Xid)
    requires FilesTidy(s)
    ensures x in s.files && Active(s, x) && s.flushXid != x ==> Fitting(|s.files[x]|, s.txs[x].swappedMax, s.m, x)
  {
  }

  lemma PlacedFits(s: State)
    requires Inv(s) && s.m.Loaded? && Install(s).Next?
    requires var x := s.m.x; x in s.files && Active(s, x) && s.flushXid != x ==> Fitting(|s.files[x]|, s.txs[x].swappedMax, s.m, x)
    ensures var t, x := Install(s).s, s.m.x;
            && x in t.txs && (t.m.Idle? || t.m.Selected?) && t.flushXid == s.flushXid
            && (x in t.files && Active(t, x) && t.flushXid != x ==> Fitting(|t.files[x]|, t.txs[x].swappedMax, t.m, x))
  {
    hide ChunksOk, AllTxOk, CommittedOk;
    TxOkOf(s, s.m.x);
  }

  lemma PlaceTidyFiles(s: State)
    requires Inv(s) && FilesTidy(s) && s.m.Loaded? && Install(s).Next?
    ensures FilesTidy(Install(s).s)
  {
    hide Inv, FilesTidy, Fitting;
    FittingOf(s, s.m.x);
    PlacedFits(s);
    OneFileTidy(s, Install(s).s, s.m.x);
  }

  lemma PlaceTidyLast(s: State)
    requires LastTidy(s) && s.m.Loaded? && Install(s).Next?
    ensures LastTidy(Install(s).s)
  {
  }

  lemma TakeTidy(s: State)
    requires Inv(s) && Tidy(s) && s.m.Selected? && s.m.unswap.None? && s.m.swap.Some? && Detach(s).Next?
    ensures Tidy(Detach(s).s)
  {
    hide ChunksOk, AllTxOk, CommittedOk, ParserOk;
  }

  lemma StoreTidy(s: State)
    requires Inv(s) && Tidy(s) && s.m.Detached?
    ensures WriteChunk(s).Next? ==> Tidy(WriteChunk(s).s)
  {
    hide ChunksOk, AllTxOk, CommittedOk, ParserOk, Shape;
    TxOkOf(s, s.m.x);
  }

  lemma FinishTidy(s: State)
    requires Inv(s) && Tidy(s) && s.m.Written? && FinishSwap(s).Next?
    ensures Tidy(FinishSwap(s).s)
  {
    hide ChunksOk, AllTxOk, CommittedOk, ParserOk, FilesTidy, LastTidy;
    FinishTidyFiles(s);
    FinishTidyLast(s);
  }

  lemma FinishTidyFiles(s: State)
    requires Inv(s) && FilesTidy(s) && s.m.Written? && FinishSwap(s).Next?
    ensures FilesTidy(FinishSwap(s).s)
  {
    hide ChunksOk, AllTxOk, CommittedOk;
  }

  lemma FinishTidyLast(s: State)
    requires LastTidy(s) && s.m.Written? && FinishSwap(s).Next?
    ensures LastTidy(FinishSwap(s).s)
  {
  }

  lemma DropTidy(s: State)
    requires Inv(s) && Tidy(s) && s.m.Discarding? && DiscardFile(s).Next?
    ensures Tidy(DiscardFile(s).s)
  {
    hide Inv;
  }

  lemma CutTidy(s: State)
    requires Inv(s) && Tidy(s) && s.m.Truncating? && TruncateFile(s).Next?
    ensures Tidy(TruncateFile(s).s)
  {
    hide Inv;
  }

  lemma GiveTidy(s: State)
    requires Inv(s) && Tidy(s) && s.m.Returning? && ReturnChunk(s).Next?
    ensures Tidy(ReturnChunk(s).s)
  {
    hide Inv, Free;
  }

  // ------------------------------------------------------------ every run

  lemma StepTidy(s: State, e: Move)
    requires Inv(s) && Tidy(s) && SwapInvariant.Proper(s, e) && Step(s, e).Next?
    ensures Tidy(Step(s, e).s)
  {
    if OfParser(e) {
      ParserTidy(s, e);
    } else {
      ManagerTidy(s, e);
    }
  }

  lemma MoveFrame(s: State, e: Move)
    requires Inv(s) && SwapInvariant.Proper(s, e) && OfParser(e)
    ensures Framed(s, Step(s, e))
  {
    hide Inv, Framed, InitTx, GrowAcquire, GrowAppend, WriteLast, ShrinkPop, ShrinkFree, ShrinkLock, ShrinkWake, FlushBegin, FlushGet,
         FlushRelease, FlushFree, RemoveBegin, RemoveFree, RemoveEnd, System.Unused, OtherAcquire, OtherDiscard;
    match e {
      case Init(x) => InitFrame(s, x);
      case Grow(x, os) => GrowFrame(s, x, os);
      case Append => AppendFrame(s);
      case Write(x, page) => WriteFrame(s, x, page);
      case Pop(x) => PopFrame(s, x);
      case PopFree => FreedFrame(s);
      case Lock => LockFrame(s);
      case Wake => WakeFrame(s);
      case Flush(x) => FlushFrame(s, x);
      case Fetch => FetchFrame(s);
      case Release(k) => ReleaseFrame(s, k);
      case ReleaseFree => FreedFrame(s);
      case Remove(x) => RemoveFrame(s, x);
      case RemoveNext => RemovingFrame(s);
      case RemoveLast => RemovingFrame(s);
      case OtherTake(memory, swap, os) => OtherFrame(s, memory, swap, os);
      case OtherGive(a) => OtherGivenFrame(s, a);
    }
  }

  lemma ParserTidy(s: State, e: Move)
    requires Inv(s) && Tidy(s) && SwapInvariant.Proper(s, e) && Step(s, e).Next? && OfParser(e)
    ensures Tidy(Step(s, e).s)
  {
    hide Inv, FilesTidy, LastTidy, ParserFrame, SwapInvariant.Proper, Step, OfParser;
    MoveFrame(s, e);
    ParserKeepsFiles(s, Step(s, e).s);
  }

  lemma ManagerTidy(s: State, e: Move)
    requires Inv(s) && Tidy(s) && SwapInvariant.Proper(s, e) && Step(s, e).Next? && !OfParser(e)
    ensures Tidy(Step(s, e).s)
  {
    hide Inv, Tidy, Clean, Select, Load, Install, Detach, WriteChunk, FinishSwap, System.Unused, DiscardFile, TruncateFile, ReturnChunk;
    match e {
      case Purge => PurgeTidy(s);
      case PurgeFile => UnlinkTidy(s);
      case Choose(choice) => ChooseTidy(s, choice);
      case Read(os) => ReadTidy(s, os);
      case Place => PlaceTidy(s);
      case Take => TakeTidy(s);
      case Store => StoreTidy(s);
      case Finish => FinishTidy(s);
      case DropFile => DropTidy(s);
      case CutFile => CutTidy(s);
      case Give => GiveTidy(s);
    }
  }

  lemma {:induction false} RunTidy(s: State, es: seq<Move>)
    requires Inv(s) && Tidy(s)
    ensures Run(s, es).Next? && Tidy(Run(s, es).s)
    decreases |es|
  {
    hide Inv, Tidy, SwapInvariant.Proper, Step;
    if es != [] {
      if SwapInvariant.Proper(s, es[0]) {
        StepSound(s, es[0]);
        if Step(s, es[0]).Next? {
          StepTidy(s, es[0]);
          RunTidy(Step(s, es[0]).s, es[1..]);
        } else {
          RunTidy(s, es[1..]);
        }
      } else {
        RunTidy(s, es[1..]);
      }
    }
  }

  /** In every reachable state in which the manager is between two rounds, there are files only of
      transactions, and the file of one that is not being flushed has exactly the pages that are swapped
      out, or nothing is swapped out and it has one page at most; and a last chunk is remembered exactly
      for the transactions that have one, when the parser is between operations. */
  lemma FilesAreTidy(l: Limits, chunks: seq<Address>, es: seq<Move>, x: Xid)
    requires l.Configured() && l.readMin + l.writeMin <= l.min
    requires Distinct(chunks) && |chunks| == l.min
    ensures var r := Run(Start(l, chunks), es);
            && r.Next?
            && (r.s.m.Idle? && x in r.s.files ==> x in r.s.txs)
            && (r.s.m.Idle? && Active(r.s, x) && r.s.flushXid != x ==>
                  if r.s.txs[x].swappedMax >= 0 then x in r.s.files && |r.s.files[x]| == r.s.txs[x].swappedMax + 1
                  else x in r.s.files ==> |r.s.files[x]| <= 1)
            && (r.s.p.Ready? ==> (x in r.s.last <==> Active(r.s, x) && r.s.txs[x].chunks != []))
  {
    hide ChunksOk, AllTxOk, CommittedOk, Run, Distinct;
    StartOk(l, chunks);
    var s0 := Start(l, chunks);
    assert Tidy(s0);
    RunTidy(s0, es);
    RunSound(s0, es);
    var s := Run(s0, es).s;
    if Active(s, x) {
      TxOkOf(s, x);
    }
  }

  /** A chunk that was written out in vain leaves no file behind when it was the only one. */
  lemma DropLeavesNothing(s: State)
    requires Inv(s) && s.m.Discarding?
    ensures DiscardFile(s).Next? && DiscardFile(s).s.files.Keys == s.files.Keys - {s.m.x}
  {
    hide ChunksOk, AllTxOk, CommittedOk, ParserOk;
  }
}
