/** The runs of the swap protocol, the invariant that all their states have, and the plain
    lists of pages that the machine stands for. */
module SwapInvariant {
  import opened Basics
  import opened ChunkPool
  import opened SwapProtocol

  // ------------------------------------------------------------ events

  datatype Move =
    // parser
    | Init(x: Xid) | Grow(x: Xid, os: Address) | Append | Write(x: Xid, page: Page)
    | Pop(x: Xid) | PopFree | Lock | Wake
    | Flush(x: Xid) | Fetch | Release(k: nat) | ReleaseFree
    | Remove(x: Xid) | RemoveNext | RemoveLast
    // memory manager
    | Purge | PurgeFile | Choose(choice: Option<Xid>)
    | Read(os: Address) | Place
    | Take | Store | Finish | DropFile | CutFile | Give
    // every other user of the allocator
    | OtherTake(memory: Memory, swap: bool, os: Address) | OtherGive(a: Address)

  function PendingSwap(m: Manager): Option<Choice> {
    if m.Selected? || m.Loaded? then m.swap else None
  }

  function PendingUnswap(m: Manager): Option<Choice> {
    if m.Selected? then m.unswap else if m.Loaded? then Some(Choice(m.x, m.index)) else None
  }

  /** A pending decision to swap out that the manager would still carry out. */
  predicate WouldDetach(txs: map<Xid, SwapChunk>, c: Choice) {
    && c.x in txs && |txs[c.x].chunks| > 1
    && c.index < |txs[c.x].chunks| - 1 && txs[c.x].swappedMax == c.index - 1
  }

  /** The manager has chosen the first chunk of `x` to swap out and has not yet detached it. */
  predicate FlushTooEarly(s: State, x: Xid) {
    var c := PendingSwap(s.m);
    c.Some? && c.value == Choice(x, 0) && WouldDetach(s.txs, c.value)
  }

  /** The manager has a decision about `x` that it would still carry out. */
  predicate RemoveTooEarly(s: State, x: Xid) {
    var c, u := PendingSwap(s.m), PendingUnswap(s.m);
    || (c.Some? && c.value.x == x && WouldDetach(s.txs, c.value))
    || (u.Some? && u.value.x == x)
  }

  predicate Active(s: State, x: Xid) {
    x in s.txs && !s.txs[x].release
  }

  /** When a thread makes a move: where its program counter is, what its caller guarantees, and,
      for a flush and a remove, that the manager has no conflicting decision pending. */
  ghost predicate Proper(s: State, e: Move) {
    match e
    case Init(x) => s.p.Ready? && x != NO_XID
    case Grow(x, os) => s.p.Ready? && Active(s, x) && s.sys.Unused(os)
    case Append => s.p.Growing?
    case Write(x, _) => s.p.Ready? && Active(s, x) && s.txs[x].chunks != []
    case Pop(x) => s.p.Ready? && Active(s, x) && s.txs[x].chunks != []
    case PopFree => s.p.Popped?
    case Lock => s.p.Shrinking?
    case Wake => s.p.AwaitingLast?
    case Flush(x) => s.p.Ready? && Active(s, x) && !FlushTooEarly(s, x)
    case Fetch => s.p.Flushing? && Active(s, s.p.x) && s.p.next < |s.txs[s.p.x].chunks|
    case Release(k) =>
      s.p.Flushing? && k < s.p.next && Active(s, s.p.x) && k < |s.txs[s.p.x].chunks| && s.txs[s.p.x].chunks[k].Some?
    case ReleaseFree => s.p.Releasing?
    case Remove(x) => (s.p.Ready? || (s.p.Flushing? && s.p.x == x)) && Active(s, x) && !RemoveTooEarly(s, x)
    case RemoveNext => s.p.Removing?
    case RemoveLast => s.p.Removing?
    case Purge => s.m.Idle?
    case PurgeFile => s.m.Unlinking?
    case Choose(_) => s.m.Idle?
    case Read(os) => s.m.Selected? && s.m.unswap.Some? && s.sys.Unused(os)
    case Place => s.m.Loaded?
    case Take => s.m.Selected? && s.m.unswap.None? && s.m.swap.Some?
    case Store => s.m.Detached?
    case Finish => s.m.Written?
    case DropFile => s.m.Discarding?
    case CutFile => s.m.Truncating?
    case Give => s.m.Returning?
    case OtherTake(memory, _, os) => memory != TRANSACTIONS && s.sys.Unused(os)
    case OtherGive(a) => a in s.sys.owner && s.sys.owner[a] != TRANSACTIONS
  }

  function OtherAcquire(s: State, memory: Memory, swap: bool, os: Address): Result {
    match Get(s.limits, s.sys.pool, memory, swap, os)
    case Granted(pool, a) => Next(s.(sys := System(pool, s.sys.owner[a := memory])))
    case MustWait => Blocked
    case Underflow => Fault(PoolMistake)
  }

  function OtherDiscard(s: State, a: Address): Result
    requires a in s.sys.owner
  {
    match Free(s.limits, s.sys.pool, s.sys.owner[a], a)
    case Freed(pool) => Next(s.(sys := System(pool, s.sys.owner - {a})))
    case UnknownBlock => Fault(PoolMistake)
  }

  ghost function Step(s: State, e: Move): Result
    requires Proper(s, e)
  {
    match e
    case Init(x) => InitTx(s, x)
    case Grow(x, os) => GrowAcquire(s, x, os)
    case Append => GrowAppend(s)
    case Write(x, page) => WriteLast(s, x, page)
    case Pop(x) => ShrinkPop(s, x)
    case PopFree => ShrinkFree(s)
    case Lock => ShrinkLock(s)
    case Wake => ShrinkWake(s)
    case Flush(x) => FlushBegin(s, x)
    case Fetch => FlushGet(s)
    case Release(k) => FlushRelease(s, k)
    case ReleaseFree => FlushFree(s)
    case Remove(x) => RemoveBegin(s, x)
    case RemoveNext => RemoveFree(s)
    case RemoveLast => RemoveEnd(s)
    case Purge => Clean(s)
    case PurgeFile => CleanUnlink(s)
    case Choose(choice) => Select(s, choice)
    case Read(os) => Load(s, os)
    case Place => Install(s)
    case Take => Detach(s)
    case Store => WriteChunk(s)
    case Finish => FinishSwap(s)
    case DropFile => DiscardFile(s)
    case CutFile => TruncateFile(s)
    case Give => ReturnChunk(s)
    case OtherTake(memory, swap, os) => OtherAcquire(s, memory, swap, os)
    case OtherGive(a) => OtherDiscard(s, a)
  }

  // ------------------------------------------------------------ the invariant

  function FlushNext(p: Parser, x: Xid): Option<nat> {
    if (p.Flushing? || p.Releasing?) && p.x == x then Some(p.next) else None
  }

  predicate Retreating(p: Parser, x: Xid) {
    (p.Popped? || p.Shrinking? || p.AwaitingLast?) && p.x == x
  }

  predicate Stale(p: Parser, x: Xid, i: int) {
    p.Removing? && p.x == x && i < p.k
  }

  function ParserChunk(p: Parser): Option<Address> {
    if p.Growing? || p.Popped? || p.Releasing? then Some(p.chunk) else None
  }

  function ManagerChunk(m: Manager): Option<Address> {
    if m.Loaded? || m.Detached? || m.Written? || m.Returning? then Some(m.chunk) else None
  }

  /** The swapped interval is empty or starts at the front, except that a flush brings chunks
      back from the front; the last chunk is in memory unless the transaction is shrinking; and
      the entries that are null are exactly those of swapped and of released chunks. */
  ghost predicate Shape(sc: SwapChunk, flush: Option<nat>, retreating: bool) {
    && ((sc.swappedMin == -1 && sc.swappedMax == -1) || 0 <= sc.swappedMin <= sc.swappedMax < |sc.chunks|)
    && (sc.swappedMin > 0 ==> flush.Some?)
    && (!retreating ==> sc.swappedMax == -1 || sc.swappedMax <= |sc.chunks| - 2)
    && (flush.Some? ==> flush.value <= |sc.chunks| && (sc.swappedMax == -1 || flush.value <= sc.swappedMin))
    && (forall i :: 0 <= i < |sc.chunks| && sc.Swapped(i) ==> sc.chunks[i].None?)
    && (forall i :: 0 <= i < |sc.chunks| && !sc.Swapped(i) && !(flush.Some? && i < flush.value) ==> sc.chunks[i].Some?)
  }

  /** Every swapped page is in the file, except one that is still being written. */
  predicate Backed(sc: SwapChunk, x: Xid, files: map<Xid, seq<Page>>, m: Manager) {
    if m.Detached? && m.x == x then
      sc.swappedMax > 0 ==> x in files && |files[x]| >= sc.swappedMax
    else
      sc.swappedMax >= 0 ==> x in files && |files[x]| > sc.swappedMax
  }

  /** The address through which a transaction writes is its last chunk. */
  predicate LastKnown(sc: SwapChunk, x: Xid, last: map<Xid, Address>, p: Parser) {
    !Retreating(p, x) && FlushNext(p, x).None? && sc.chunks != [] ==>
      x in last && sc.chunks[|sc.chunks| - 1] == Some(last[x])
  }

  ghost predicate TxOk(sc: SwapChunk, x: Xid, p: Parser, last: map<Xid, Address>, files: map<Xid, seq<Page>>, m: Manager) {
    sc.release || (Shape(sc, FlushNext(p, x), Retreating(p, x)) && LastKnown(sc, x, last, p) && Backed(sc, x, files, m))
  }

  ghost predicate AllTxOk(s: State) {
    forall x :: x in s.txs ==> TxOk(s.txs[x], x, s.p, s.last, s.files, s.m)
  }

  /** The parser's program counter agrees with the shared variables. */
  ghost predicate ParserOk(txs: map<Xid, SwapChunk>, flushXid: Xid, shrinkXid: Xid, p: Parser) {
    && NO_XID !in txs
    && flushXid == (if p.Flushing? || p.Releasing? then p.x else NO_XID)
    && shrinkXid == (if p.AwaitingLast? then p.x else NO_XID)
    && match p
       case Ready => true
       case Removing(x, k) => x in txs && txs[x].release && k <= |txs[x].chunks|
       case AwaitingLast(x) => x in txs && !txs[x].release && txs[x].chunks != []
       case _ => p.x in txs && !txs[p.x].release
  }

  ghost predicate CommittedOk(txs: map<Xid, SwapChunk>, committed: seq<Xid>, p: Parser) {
    && Distinct(committed)
    && forall i :: 0 <= i < |committed| ==>
         committed[i] in txs && txs[committed[i]].release && txs[committed[i]].chunks == []
         && !(p.Removing? && p.x == committed[i])
  }

  ghost predicate SwapPending(txs: map<Xid, SwapChunk>, p: Parser, c: Choice) {
    && c.x in txs && c.index >= 0 && txs[c.x].swappedMin <= 0
    && (txs[c.x].release ==> !WouldDetach(txs, c))
    && (FlushNext(p, c.x).Some? && WouldDetach(txs, c) ==> c.index >= 1)
  }

  ghost predicate UnswapPending(txs: map<Xid, SwapChunk>, p: Parser, c: Choice) {
    && c.x in txs && !txs[c.x].release && c.index >= 0
    && (c.index == txs[c.x].swappedMax || (c.index == txs[c.x].swappedMin && FlushNext(p, c.x).Some?))
  }

  /** What the manager knows at each of its program points. */
  ghost predicate ManagerOk(txs: map<Xid, SwapChunk>, files: map<Xid, seq<Page>>, mem: map<Address, Page>,
                            p: Parser, m: Manager) {
    && (PendingSwap(m).Some? ==> SwapPending(txs, p, PendingSwap(m).value))
    && (PendingUnswap(m).Some? ==> UnswapPending(txs, p, PendingUnswap(m).value))
    && (PendingSwap(m).Some? && PendingUnswap(m).Some? && PendingSwap(m).value.x == PendingUnswap(m).value.x ==>
          && PendingUnswap(m).value.index == txs[PendingUnswap(m).value.x].swappedMax
          && PendingSwap(m).value.index == PendingUnswap(m).value.index + 1)
    && match m
       case Idle => true
       case Unlinking(x) => x in txs ==> txs[x].swappedMin == -1 && txs[x].swappedMax == -1
       case Selected(unswap, swap) => unswap.Some? || swap.Some?
       case Loaded(x, i, a, _) => Content(mem, a) == FilePage(files, x, i)
       case Detached(x, i, _) => x in txs && i >= 0 && (!txs[x].release ==> txs[x].swappedMax == i)
       case Written(x, i, a) =>
         && x in txs && i >= 0 && (!txs[x].release ==> txs[x].swappedMax == i)
         && x in files && i < |files[x]| && files[x][i] == Content(mem, a)
       case Discarding(x) => x in txs && x in files && (!txs[x].release ==> txs[x].swappedMin == -1 && txs[x].swappedMax == -1)
       case Truncating(x, n) => x in txs && x in files && n <= |files[x]| && (!txs[x].release ==> txs[x].swappedMax < n)
       case Returning(_) => true
  }

  /** The chunk that is at a place. Entries that a remove has already freed do not count. */
  function ChunkAt(txs: map<Xid, SwapChunk>, p: Parser, m: Manager, at: Place): Option<Address> {
    match at
    case At(x, i) => if x in txs && i < |txs[x].chunks| && !Stale(p, x, i) then txs[x].chunks[i] else None
    case WithParser => ParserChunk(p)
    case WithManager => ManagerChunk(m)
  }

  /** No chunk is in two places: every chunk has one place, and it is really there. */
  ghost predicate Located(txs: map<Xid, SwapChunk>, place: map<Address, Place>, p: Parser, m: Manager) {
    && (forall a :: a in place ==> ChunkAt(txs, p, m, place[a]) == Some(a))
    && (forall at :: ChunkAt(txs, p, m, at).Some? ==>
          ChunkAt(txs, p, m, at).value in place && place[ChunkAt(txs, p, m, at).value] == at)
  }

  ghost predicate PoolOk(l: Limits, sys: System) {
    l.Configured() && l.readMin + l.writeMin <= l.min && ChunkPool.Invariant(l, sys)
  }

  /** The chunks of transactions are exactly those the allocator handed out for them. */
  ghost predicate Accounted(place: map<Address, Place>, owner: map<Address, Memory>) {
    place.Keys == Holdings(owner, TRANSACTIONS)
  }

  ghost predicate ChunksOk(s: State) {
    && PoolOk(s.limits, s.sys)
    && Accounted(s.place, s.sys.owner)
    && Located(s.txs, s.place, s.p, s.m)
  }

  /** A chunk that is about to be appended has a cleared header. */
  predicate Cleared(mem: map<Address, Page>, p: Parser) {
    p.Growing? ==> Content(mem, p.chunk).elements == 0 && Content(mem, p.chunk).size == 0
  }

  ghost predicate Inv(s: State) {
    && ChunksOk(s)
    && Cleared(s.mem, s.p)
    && AllTxOk(s)
    && ParserOk(s.txs, s.flushXid, s.shrinkXid, s.p)
    && CommittedOk(s.txs, s.committed, s.p)
    && ManagerOk(s.txs, s.files, s.mem, s.p, s.m)
  }

  // ------------------------------------------------------------ the lists behind the machine

  datatype Slot = Live(page: Page) | Gone

  predicate InFlight(m: Manager, x: Xid, i: int) {
    (m.Detached? || m.Written?) && m.x == x && m.index == i
  }

  /** The page that position `i` of `x` stands for, wherever it is now. */
  function SlotOf(txs: map<Xid, SwapChunk>, mem: map<Address, Page>, files: map<Xid, seq<Page>>, m: Manager,
                  x: Xid, i: nat): Slot
    requires x in txs && i < |txs[x].chunks|
  {
    if txs[x].Swapped(i) then
      if InFlight(m, x, i) then Live(Content(mem, m.chunk)) else Live(FilePage(files, x, i))
    else
      match txs[x].chunks[i]
      case Some(a) => Live(Content(mem, a))
      case None => Gone
  }

  function List(s: State, x: Xid): seq<Slot>
    requires x in s.txs
  {
    seq(|s.txs[x].chunks|, i requires 0 <= i < |s.txs[x].chunks| => SlotOf(s.txs, s.mem, s.files, s.m, x, i))
  }

  type Lists = map<Xid, seq<Slot>>

  /** The contents of every live transaction as a plain list. */
  function View(s: State): Lists {
    map x | x in s.txs && !s.txs[x].release :: List(s, x)
  }

  /** What a client of plain lists would do. */
  datatype ListOp =
    | Skip
    | Create(x: Xid)
    | Push(x: Xid, slot: Slot)
    | Update(x: Xid, page: Page)
    | DropLast(x: Xid)
    | Clear(x: Xid, k: nat)
    | Delete(x: Xid)

  function Apply(v: Lists, op: ListOp): Lists {
    match op
    case Skip => v
    case Create(x) => v[x := []]
    case Push(x, slot) => if x in v then v[x := v[x] + [slot]] else v
    case Update(x, page) => if x in v && v[x] != [] then v[x := v[x][|v[x]| - 1 := Live(page)]] else v
    case DropLast(x) => if x in v && v[x] != [] then v[x := v[x][..|v[x]| - 1]] else v
    case Clear(x, k) => if x in v && k < |v[x]| then v[x := v[x][k := Gone]] else v
    case Delete(x) => v - {x}
  }

  /** The list operation a move performs; every move of the memory manager performs none. */
  function OpOf(s: State, e: Move): ListOp {
    match e
    case Init(x) => if x in s.txs then Skip else Create(x)
    case Append => if s.p.Growing? then Push(s.p.x, Live(Page(0, 0, Content(s.mem, s.p.chunk).buffer))) else Skip
    case Write(x, page) => Update(x, page)
    case Pop(x) => DropLast(x)
    case Release(k) => if s.p.Flushing? then Clear(s.p.x, k) else Skip
    case Remove(x) => Delete(x)
    case _ => Skip
  }
}
