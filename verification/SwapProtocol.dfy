/** The swapping of transaction memory as a state machine. Two threads share it: the parser,
    which owns every transaction, and the memory manager, which moves chunks to and from one
    swap file per transaction. Every step is one critical section of `Ctx` or `MemoryManager`,
    one call of the chunk allocator, or one file operation; a wait on a condition variable is a
    step that is not yet enabled. */
module SwapProtocol {
  import opened Basics
  import opened ChunkPool

  type Xid = nat

  const NO_XID: Xid := 0

  /** The contents of one chunk: the header cleared by a grow, and the rest. */
  datatype Page = Page(elements: nat, size: nat, buffer: seq<int>)

  const BLANK := Page(0, 0, [])

  /** A transaction's chunks; those from `swappedMin` to `swappedMax` are in the swap file. */
  datatype SwapChunk = SwapChunk(chunks: seq<Option<Address>>, swappedMin: int, swappedMax: int, release: bool) {

    predicate Swapped(i: int) {
      swappedMin <= i <= swappedMax
    }
  }

  const EMPTY := SwapChunk([], -1, -1, false)

  /** Where a chunk held for transactions is. */
  datatype Place = At(x: Xid, i: nat) | WithParser | WithManager

  /** Where the parser thread is between its critical sections. */
  datatype Parser =
    | Ready
    | Growing(x: Xid, chunk: Address)             // has a chunk, not yet appended
    | Popped(x: Xid, chunk: Address)              // took the last chunk off, not yet freed
    | Shrinking(x: Xid)                           // freed it, not yet back under the lock
    | AwaitingLast(x: Xid)                        // waits for the new last chunk
    | Flushing(x: Xid, next: nat)                 // reads the chunks in order
    | Releasing(x: Xid, next: nat, chunk: Address)
    | Removing(x: Xid, k: nat)                    // frees the chunks one by one

  /** A chunk the memory manager has decided to move. */
  datatype Choice = Choice(x: Xid, index: int)

  /** Where the memory manager is between its critical sections and file operations. */
  datatype Manager =
    | Idle
    | Unlinking(x: Xid)
    | Selected(unswap: Option<Choice>, swap: Option<Choice>)
    | Loaded(x: Xid, index: int, chunk: Address, swap: Option<Choice>)
    | Detached(x: Xid, index: int, chunk: Address)
    | Written(x: Xid, index: int, chunk: Address)
    | Discarding(x: Xid)
    | Truncating(x: Xid, pages: nat)
    | Returning(chunk: Address)

  datatype State = State(
    limits: Limits,
    sys: System,
    mem: map<Address, Page>,
    txs: map<Xid, SwapChunk>,
    committed: seq<Xid>,
    flushXid: Xid,
    shrinkXid: Xid,
    files: map<Xid, seq<Page>>,
    last: map<Xid, Address>,     // the address each transaction writes through
    place: map<Address, Place>,  // where each chunk of a transaction is
    p: Parser,
    m: Manager)

  /** What the code would do instead of a proper step. */
  datatype Mistake =
    | NotFound      // errors 50070
    | BadFile       // errors 50072
    | NullChunk     // a null chunk is used
    | FreedChunk    // a chunk that was already freed is used
    | OutOfRange    // a chunk list is indexed out of bounds
    | PoolMistake   // the allocator underflows or rejects a block

  datatype Result = Next(s: State) | Blocked | Fault(mistake: Mistake)

  function Content(mem: map<Address, Page>, a: Address): Page {
    if a in mem then mem[a] else BLANK
  }

  function FilePage(files: map<Xid, seq<Page>>, x: Xid, i: int): Page {
    if x in files && 0 <= i < |files[x]| then files[x][i] else BLANK
  }

  /** `pwrite` of page `i`; a gap is filled with blank pages. */
  function WritePage(file: seq<Page>, i: nat, page: Page): (r: seq<Page>)
    ensures |r| == if i < |file| then |file| else i + 1
    ensures r[i] == page && forall j :: 0 <= j < |file| && j != i ==> r[j] == file[j]
  {
    if i < |file| then file[i := page]
    else file + seq(i - |file|, _ => BLANK) + [page]
  }

  // ------------------------------------------------------------ the allocator, for transactions

  /** The parser or the manager obtains a chunk and holds it itself for now. */
  function Acquire(s: State, swap: bool, os: Address, holder: Place): Result {
    match Get(s.limits, s.sys.pool, TRANSACTIONS, swap, os)
    case Granted(pool, a) =>
      Next(s.(sys := System(pool, s.sys.owner[a := TRANSACTIONS]), place := s.place[a := holder]))
    case MustWait => Blocked
    case Underflow => Fault(PoolMistake)
  }

  function Acquired(s: State, swap: bool, os: Address): Address
    requires Get(s.limits, s.sys.pool, TRANSACTIONS, swap, os).Granted?
  {
    Get(s.limits, s.sys.pool, TRANSACTIONS, swap, os).chunk
  }

  function Discard(s: State, a: Address): Result {
    if a !in s.place then Fault(FreedChunk)
    else
      match Free(s.limits, s.sys.pool, TRANSACTIONS, a)
      case Freed(pool) => Next(s.(sys := System(pool, s.sys.owner - {a}), place := s.place - {a}))
      case UnknownBlock => Fault(PoolMistake)
  }

  // ------------------------------------------------------------ the parser thread

  function InitTx(s: State, x: Xid): Result {
    if x in s.txs then Blocked else Next(s.(txs := s.txs[x := EMPTY]))
  }

  function GrowAcquire(s: State, x: Xid, os: Address): Result {
    if x !in s.txs then Fault(NotFound)
    else
      var r := Acquire(s, false, os, WithParser);
      if !r.Next? then r
      else
        var a := Acquired(s, false, os);
        Next(r.s.(p := Growing(x, a), mem := s.mem[a := Content(s.mem, a).(elements := 0, size := 0)]))
  }

  function GrowAppend(s: State): Result
    requires s.p.Growing?
  {
    var x, a := s.p.x, s.p.chunk;
    if x !in s.txs then Fault(NotFound)
    else
      var sc := s.txs[x];
      Next(s.(txs := s.txs[x := sc.(chunks := sc.chunks + [Some(a)])],
              place := s.place[a := At(x, |sc.chunks|)], last := s.last[x := a], p := Ready))
  }

  /** The transaction appends a record to its last chunk. */
  function WriteLast(s: State, x: Xid, page: Page): Result {
    if x !in s.last then Fault(NullChunk)
    else if s.last[x] !in s.place then Fault(FreedChunk)
    else Next(s.(mem := s.mem[s.last[x] := page]))
  }

  function ShrinkPop(s: State, x: Xid): Result {
    if x !in s.txs then Fault(NotFound)
    else
      var sc := s.txs[x];
      var n := |sc.chunks|;
      if n == 0 then Fault(OutOfRange)
      else if sc.chunks[n - 1].None? then Fault(NullChunk)
      else
        var a := sc.chunks[n - 1].value;
        Next(s.(txs := s.txs[x := sc.(chunks := sc.chunks[..n - 1])],
                place := s.place[a := WithParser], last := s.last - {x}, p := Popped(x, a)))
  }

  function ShrinkFree(s: State): Result
    requires s.p.Popped?
  {
    var r := Discard(s, s.p.chunk);
    if r.Next? then Next(r.s.(p := Shrinking(s.p.x))) else r
  }

  /** The new last chunk is used if it is in memory. */
  function ResumeWithLast(s: State, x: Xid): Result
    requires x in s.txs && s.txs[x].chunks != []
  {
    var sc := s.txs[x];
    var n := |sc.chunks|;
    if sc.chunks[n - 1].None? then Fault(NullChunk)
    else Next(s.(shrinkXid := NO_XID, last := s.last[x := sc.chunks[n - 1].value], p := Ready))
  }

  function ShrinkLock(s: State): Result
    requires s.p.Shrinking?
  {
    var x := s.p.x;
    if x !in s.txs then Fault(NotFound)
    else if s.txs[x].chunks == [] then Next(s.(p := Ready))
    else if s.txs[x].Swapped(|s.txs[x].chunks| - 1) then Next(s.(shrinkXid := x, p := AwaitingLast(x)))
    else ResumeWithLast(s, x)
  }

  function ShrinkWake(s: State): Result
    requires s.p.AwaitingLast?
  {
    var x := s.p.x;
    if x !in s.txs then Fault(NotFound)
    else if s.txs[x].chunks == [] then Fault(OutOfRange)
    else if s.txs[x].Swapped(|s.txs[x].chunks| - 1) then Blocked
    else ResumeWithLast(s, x)
  }

  function FlushBegin(s: State, x: Xid): Result {
    Next(s.(flushXid := x, p := Flushing(x, 0)))
  }

  /** The next chunk, in order, is read; it is not swapped out. */
  function FlushGet(s: State): Result
    requires s.p.Flushing?
  {
    var x, i := s.p.x, s.p.next;
    if x !in s.txs then Fault(NotFound)
    else if s.txs[x].Swapped(i) then Blocked
    else if i >= |s.txs[x].chunks| then Fault(OutOfRange)
    else if s.txs[x].chunks[i].None? then Fault(NullChunk)
    else Next(s.(p := Flushing(x, i + 1)))
  }

  function FlushRelease(s: State, k: nat): Result
    requires s.p.Flushing?
  {
    var x := s.p.x;
    if x !in s.txs then Fault(NotFound)
    else
      var sc := s.txs[x];
      if k >= |sc.chunks| then Fault(OutOfRange)
      else if sc.chunks[k].None? then Fault(NullChunk)
      else
        var a := sc.chunks[k].value;
        Next(s.(txs := s.txs[x := sc.(chunks := sc.chunks[k := None])],
                place := s.place[a := WithParser], p := Releasing(x, s.p.next, a)))
  }

  function FlushFree(s: State): Result
    requires s.p.Releasing?
  {
    var r := Discard(s, s.p.chunk);
    if r.Next? then Next(r.s.(p := Flushing(s.p.x, s.p.next))) else r
  }

  function RemoveBegin(s: State, x: Xid): Result {
    if x !in s.txs then Fault(NotFound)
    else Next(s.(txs := s.txs[x := s.txs[x].(release := true)], flushXid := NO_XID,
                 last := s.last - {x}, p := Removing(x, 0)))
  }

  /** Frees chunk `k` if there is one; its entry stays in the list. */
  function RemoveFree(s: State): Result
    requires s.p.Removing?
  {
    var x, k := s.p.x, s.p.k;
    if x !in s.txs then Fault(NotFound)
    else if k >= |s.txs[x].chunks| then Blocked
    else
      var r := if s.txs[x].chunks[k].Some? then Discard(s, s.txs[x].chunks[k].value) else Next(s);
      if r.Next? then Next(r.s.(p := Removing(x, k + 1))) else r
  }

  function RemoveEnd(s: State): Result
    requires s.p.Removing?
  {
    var x := s.p.x;
    if x !in s.txs then Fault(NotFound)
    else if s.p.k < |s.txs[x].chunks| then Blocked
    else Next(s.(txs := s.txs[x := s.txs[x].(chunks := [])], committed := s.committed + [x], p := Ready))
  }

  // ------------------------------------------------------------ the memory manager thread

  function Clean(s: State): Result {
    if s.committed == [] then Blocked
    else
      var n := |s.committed| - 1;
      var x := s.committed[n];
      if x in s.txs then Next(s.(committed := s.committed[..n], txs := s.txs - {x}, m := Unlinking(x)))
      else Next(s.(committed := s.committed[..n]))
  }

  function CleanUnlink(s: State): Result
    requires s.m.Unlinking?
  {
    Next(s.(files := s.files - {s.m.x}, m := Idle))
  }

  /** The chunk to bring back: the first one for a flush, the last one for a shrink. */
  function ToUnswap(s: State): Option<Choice> {
    if s.flushXid != NO_XID && s.flushXid in s.txs && s.txs[s.flushXid].swappedMin > -1 then
      Some(Choice(s.flushXid, s.txs[s.flushXid].swappedMin))
    else if s.shrinkXid != NO_XID && s.shrinkXid in s.txs && s.txs[s.shrinkXid].swappedMax != -1 then
      Some(Choice(s.shrinkXid, s.txs[s.shrinkXid].swappedMax))
    else None
  }

  predicate MaySwap(s: State, x: Xid) {
    && x in s.txs && s.flushXid != x && !s.txs[x].release && |s.txs[x].chunks| > 1
    && s.txs[x].swappedMax < |s.txs[x].chunks| - 2
  }

  /** Both decisions of one round; `choice` is the transaction the search meets first, if the
      memory in use is above the swap threshold and there is one. */
  function Select(s: State, choice: Option<Xid>): Result {
    if s.flushXid != NO_XID && s.flushXid !in s.txs then Fault(NotFound)
    else if ToUnswap(s).None? && s.shrinkXid != NO_XID && s.shrinkXid !in s.txs then Fault(NotFound)
    else if choice.Some? && !MaySwap(s, choice.value) then Blocked
    else
      var swap := if choice.Some? then Some(Choice(choice.value, s.txs[choice.value].swappedMax + 1)) else None;
      if ToUnswap(s).None? && swap.None? then Blocked
      else Next(s.(m := Selected(ToUnswap(s), swap)))
  }

  function Load(s: State, os: Address): Result
    requires s.m.Selected? && s.m.unswap.Some?
  {
    var Choice(x, i) := s.m.unswap.value;
    var r := Acquire(s, true, os, WithManager);
    if !r.Next? then r
    else if x !in s.files || i < 0 || |s.files[x]| < i + 1 then Fault(BadFile)
    else
      var a := Acquired(s, true, os);
      Next(r.s.(mem := s.mem[a := s.files[x][i]], m := Loaded(x, i, a, s.m.swap)))
  }

  function AfterUnswap(swap: Option<Choice>): Manager {
    if swap.None? then Idle else Selected(None, swap)
  }

  function Install(s: State): Result
    requires s.m.Loaded?
  {
    var Loaded(x, i, a, swap) := s.m;
    if x !in s.txs then Fault(NotFound)
    else
      var sc := s.txs[x];
      if sc.swappedMin != i && sc.swappedMax != i then Fault(BadFile)
      else if !(0 <= i < |sc.chunks|) then Fault(OutOfRange)
      else
        var chunks := sc.chunks[i := Some(a)];
        var t := s.(place := s.place[a := At(x, i)], m := AfterUnswap(swap));
        if sc.swappedMin == i then
          var min, max := if sc.swappedMin == sc.swappedMax then -1 else i + 1,
                          if sc.swappedMin == sc.swappedMax then -1 else sc.swappedMax;
          Next(t.(txs := s.txs[x := sc.(chunks := chunks, swappedMin := min, swappedMax := max)]))
        else if x !in s.files then Fault(BadFile)
        else
          // The case swappedMin == swappedMax, which deletes the file, was taken above.
          Next(t.(txs := s.txs[x := sc.(chunks := chunks, swappedMax := i - 1)],
                  files := s.files[x := Truncated(s.files[x], i)]))
  }

  function Truncated(file: seq<Page>, pages: nat): seq<Page> {
    if pages <= |file| then file[..pages] else file + seq(pages - |file|, _ => BLANK)
  }

  function Detach(s: State): Result
    requires s.m.Selected? && s.m.unswap.None? && s.m.swap.Some?
  {
    var Choice(x, i) := s.m.swap.value;
    if x !in s.txs then Fault(NotFound)
    else
      var sc := s.txs[x];
      if |sc.chunks| <= 1 || i >= |sc.chunks| - 1 || sc.swappedMax != i - 1 then Next(s.(m := Idle))
      else if i < 0 then Fault(OutOfRange)
      else if sc.chunks[i].None? then Fault(NullChunk)
      else
        var a := sc.chunks[i].value;
        if a !in s.place then Fault(FreedChunk)
        else
          Next(s.(txs := s.txs[x := sc.(chunks := sc.chunks[i := None], swappedMax := i,
                                        swappedMin := if sc.swappedMin == -1 then i else sc.swappedMin)],
                  place := s.place[a := WithManager], m := Detached(x, i, a)))
  }

  function WriteChunk(s: State): Result
    requires s.m.Detached?
  {
    var Detached(x, i, a) := s.m;
    if i < 0 then Fault(BadFile)
    else
      var file := if x in s.files then s.files[x] else [];
      Next(s.(files := s.files[x := WritePage(file, i, Content(s.mem, a))], m := Written(x, i, a)))
  }

  /** The chunk is given back to its transaction if that one is waiting to shrink. */
  function FinishSwap(s: State): Result
    requires s.m.Written?
  {
    var Written(x, i, a) := s.m;
    if s.shrinkXid != x then Next(s.(m := Returning(a)))
    else if x !in s.txs then Fault(NotFound)
    else
      var sc := s.txs[x];
      if !(0 <= i < |sc.chunks|) then Fault(OutOfRange)
      else
        var back := sc.(chunks := sc.chunks[i := Some(a)]);
        var t := s.(place := s.place[a := At(x, i)]);
        if sc.swappedMax == 0 then
          Next(t.(txs := s.txs[x := back.(swappedMin := -1, swappedMax := -1)], m := Discarding(x)))
        else if sc.swappedMax < 0 then Fault(OutOfRange)
        else
          Next(t.(txs := s.txs[x := back.(swappedMax := sc.swappedMax - 1)],
                  m := Truncating(x, sc.swappedMax)))
  }

  function DiscardFile(s: State): Result
    requires s.m.Discarding?
  {
    if s.m.x !in s.files then Fault(BadFile) else Next(s.(files := s.files - {s.m.x}, m := Idle))
  }

  function TruncateFile(s: State): Result
    requires s.m.Truncating?
  {
    if s.m.x !in s.files then Fault(BadFile)
    else Next(s.(files := s.files[s.m.x := Truncated(s.files[s.m.x], s.m.pages)], m := Idle))
  }

  function ReturnChunk(s: State): Result
    requires s.m.Returning?
  {
    var r := Discard(s, s.m.chunk);
    if r.Next? then Next(r.s.(m := Idle)) else r
  }
}
