/** The pool of fixed-size memory chunks kept by `Ctx`: a stack of free chunks, a count of
    chunks owned by the process, a count per module, and the reservations that keep some free
    chunks back for the reader, the builder and the un-swapping of transactions. */
module ChunkPool {
  import opened Basics

  /** A chunk is named by its address. */
  type Address = nat

  datatype Memory = BUILDER | MISC | PARSER | READER | TRANSACTIONS | WRITER

  /** The limits read from the configuration, in chunks. */
  datatype Limits = Limits(min: nat, max: nat, readMin: nat, unswapMin: nat, writeMax: nat, writeMin: nat) {

    /** What the configuration checks guarantee. The sum of the two reservations is compared
        with `max` only, so `readMin + writeMin <= min` is not part of this. */
    predicate Configured() {
      min <= max && writeMin <= writeMax && unswapMin + readMin + writeMin + 4 <= max
    }
  }

  /** Chunks handed out, per module. */
  datatype Usage = Usage(builder: nat, misc: nat, parser: nat, reader: nat, transactions: nat, writer: nat) {

    function Of(m: Memory): nat {
      match m
      case BUILDER => builder
      case MISC => misc
      case PARSER => parser
      case READER => reader
      case TRANSACTIONS => transactions
      case WRITER => writer
    }

    function With(m: Memory, n: nat): (u: Usage)
    {
      match m
      case BUILDER => this.(builder := n)
      case MISC => this.(misc := n)
      case PARSER => this.(parser := n)
      case READER => this.(reader := n)
      case TRANSACTIONS => this.(transactions := n)
      case WRITER => this.(writer := n)
    }

    function Total(): nat {
      builder + misc + parser + reader + transactions + writer
    }
  }

  datatype Pool = Pool(free: seq<Address>, owned: nat, used: Usage)

  const NOTHING_USED := Usage(0, 0, 0, 0, 0, 0)

  function Shortfall(required: nat, present: nat): nat {
    if present < required then required - present else 0
  }

  /** Chunks promised to the reader and the builder but not yet handed to them. */
  function Unmet(l: Limits, u: Usage): nat {
    Shortfall(l.readMin, u.reader) + Shortfall(l.writeMin, u.builder)
  }

  function Reserved(l: Limits, u: Usage, swap: bool): nat {
    Unmet(l, u) + if swap then 0 else l.unswapMin
  }

  /** A module whose reservation is not yet met is served without looking at the free count. */
  predicate BelowMinimum(l: Limits, u: Usage, m: Memory) {
    || (m == READER && u.reader < l.readMin)
    || (m == BUILDER && u.builder < l.writeMin)
  }

  datatype Grant = Unchecked | FromFree | FromSystem | Wait

  /** One pass of the waiting loop of a request. */
  function Decide(l: Limits, p: Pool, m: Memory, swap: bool): Grant {
    if BelowMinimum(l, p.used, m) then Unchecked
    else if m == BUILDER && p.used.builder >= l.writeMax then Wait
    else if |p.free| > Reserved(l, p.used, swap) then FromFree
    else if p.owned < l.max then FromSystem
    else Wait
  }

  datatype GetResult =
    | Granted(pool: Pool, chunk: Address)
    | MustWait
    | Underflow  // the free count would drop below zero

  /** The stack with the chunk from the system, if the request needs one; `os` is its address. */
  function Offered(l: Limits, p: Pool, m: Memory, swap: bool, os: Address): Pool {
    if Decide(l, p, m, swap).FromSystem? then p.(free := p.free + [os], owned := p.owned + 1) else p
  }

  /** The top of the stack is handed out. */
  function Popped(p: Pool, m: Memory): Pool
    requires p.free != []
  {
    p.(free := p.free[..|p.free| - 1], used := p.used.With(m, p.used.Of(m) + 1))
  }

  /** A request; `os` is the address the system allocator would return. */
  function Get(l: Limits, p: Pool, m: Memory, swap: bool, os: Address): GetResult {
    if Decide(l, p, m, swap).Wait? then MustWait
    else
      var grown := Offered(l, p, m, swap, os);
      if grown.free == [] then Underflow else Granted(Popped(grown, m), grown.free[|grown.free| - 1])
  }

  datatype FreeResult = Freed(pool: Pool) | UnknownBlock

  /** Return of a chunk: it is kept while fewer than `min` chunks are free, and otherwise goes
      back to the system. */
  function Free(l: Limits, p: Pool, m: Memory, chunk: Address): FreeResult {
    if |p.free| == p.owned || p.owned == 0 || p.used.Of(m) == 0 then UnknownBlock
    else
      var used := p.used.With(m, p.used.Of(m) - 1);
      if |p.free| >= l.min then Freed(p.(owned := p.owned - 1, used := used))
      else Freed(p.(free := p.free + [chunk], used := used))
  }

  /** The pool together with the holder of every chunk handed out. */
  datatype System = System(pool: Pool, owner: map<Address, Memory>) {

    /** `a` is neither handed out nor on the stack: what the system allocator may return. */
    ghost predicate Unused(a: Address) {
      a !in owner && forall i :: 0 <= i < |pool.free| ==> pool.free[i] != a
    }
  }

  ghost predicate Distinct<T>(s: seq<T>) {
    forall i, j :: 0 <= i < j < |s| ==> s[i] != s[j]
  }

  ghost function Holdings(owner: map<Address, Memory>, m: Memory): set<Address> {
    set a | a in owner && owner[a] == m
  }

  /** Conservation: every chunk the process owns is free or held by exactly one module, and the
      counters say how many there are of each. */
  ghost predicate Conserved(s: System) {
    && s.pool.owned == |s.pool.free| + s.pool.used.Total()
    && Counted(s.owner, s.pool.used)
    && Distinct(s.pool.free)
    && forall i :: 0 <= i < |s.pool.free| ==> s.pool.free[i] !in s.owner
  }

  ghost predicate WithinLimits(l: Limits, s: System) {
    && l.min <= s.pool.owned <= l.max
    && |s.pool.free| <= l.min
    && s.pool.used.builder <= l.writeMax
  }

  /** The unmet reservations are covered by free chunks. */
  ghost predicate Covered(l: Limits, s: System) {
    Unmet(l, s.pool.used) <= |s.pool.free|
  }

  ghost predicate Invariant(l: Limits, s: System) {
    Conserved(s) && WithinLimits(l, s) && Covered(l, s)
  }

  ghost predicate Counted(owner: map<Address, Memory>, u: Usage) {
    && u.builder == |Holdings(owner, BUILDER)|
    && u.misc == |Holdings(owner, MISC)|
    && u.parser == |Holdings(owner, PARSER)|
    && u.reader == |Holdings(owner, READER)|
    && u.transactions == |Holdings(owner, TRANSACTIONS)|
    && u.writer == |Holdings(owner, WRITER)|
  }

  lemma HoldingsAdd(owner: map<Address, Memory>, a: Address, m: Memory, k: Memory)
    requires a !in owner
    ensures |Holdings(owner[a := m], k)| == |Holdings(owner, k)| + if k == m then 1 else 0
  {
    assert Holdings(owner[a := m], k) == Holdings(owner, k) + if k == m then {a} else {};
  }

  lemma HoldingsRemove(owner: map<Address, Memory>, a: Address, k: Memory)
    requires a in owner
    ensures |Holdings(owner - {a}, k)| == |Holdings(owner, k)| - if k == owner[a] then 1 else 0
  {
    assert Holdings(owner - {a}, k) == Holdings(owner, k) - if k == owner[a] then {a} else {};
    assert k == owner[a] ==> a in Holdings(owner, k);
  }

  lemma CountedAdd(owner: map<Address, Memory>, u: Usage, a: Address, m: Memory)
    requires a !in owner && Counted(owner, u)
    ensures Counted(owner[a := m], u.With(m, u.Of(m) + 1))
  {
    HoldingsAdd(owner, a, m, BUILDER);
    HoldingsAdd(owner, a, m, MISC);
    HoldingsAdd(owner, a, m, PARSER);
    HoldingsAdd(owner, a, m, READER);
    HoldingsAdd(owner, a, m, TRANSACTIONS);
    HoldingsAdd(owner, a, m, WRITER);
  }

  lemma CountedRemove(owner: map<Address, Memory>, u: Usage, a: Address)
    requires a in owner && Counted(owner, u)
    ensures u.Of(owner[a]) > 0 && Counted(owner - {a}, u.With(owner[a], u.Of(owner[a]) - 1))
  {
    assert a in Holdings(owner, owner[a]);
    HoldingsRemove(owner, a, BUILDER);
    HoldingsRemove(owner, a, MISC);
    HoldingsRemove(owner, a, PARSER);
    HoldingsRemove(owner, a, READER);
    HoldingsRemove(owner, a, TRANSACTIONS);
    HoldingsRemove(owner, a, WRITER);
  }

  /** What changing one counter does to the quantities the limits are about. */
  lemma WithChanges(u: Usage, m: Memory, n: nat)
    ensures var v := u.With(m, n);
            && v.Total() == u.Total() - u.Of(m) + n
            && u.Of(m) <= u.Total()
            && v.builder == (if m == BUILDER then n else u.builder)
            && v.reader == (if m == READER then n else u.reader)
            && (m == BUILDER ==> u.Of(m) == u.builder)
            && (m == READER ==> u.Of(m) == u.reader)
  {
  }

  lemma NothingHeld(m: Memory)
    ensures |Holdings(map[], m)| == 0
  {
    assert Holdings(map[], m) == {};
  }

  lemma NothingCounted()
    ensures Counted(map[], NOTHING_USED)
  {
    NothingHeld(BUILDER);
    NothingHeld(MISC);
    NothingHeld(PARSER);
    NothingHeld(READER);
    NothingHeld(TRANSACTIONS);
    NothingHeld(WRITER);
  }

  lemma InitialConserved(chunks: seq<Address>)
    requires Distinct(chunks)
    ensures Conserved(Initial(chunks))
  {
    NothingCounted();
    hide Counted;
  }

  lemma InitialKeepsInvariant(l: Limits, chunks: seq<Address>)
    requires l.Configured() && l.readMin + l.writeMin <= l.min
    requires Distinct(chunks) && |chunks| == l.min
    ensures Invariant(l, Initial(chunks))
  {
    hide Conserved, Distinct;
    InitialConserved(chunks);
  }

  /** A request in numbers. */
  lemma GetCounts(l: Limits, p: Pool, m: Memory, swap: bool, os: Address)
    ensures var d, r := Decide(l, p, m, swap), Get(l, p, m, swap, os);
            var more := if d.FromSystem? then 1 else 0;
            && (r.MustWait? <==> d.Wait?)
            && (r.Underflow? <==> !d.Wait? && !d.FromSystem? && |p.free| == 0)
            && (r.Granted? ==>
                  && r.pool.owned == p.owned + more && |r.pool.free| == |p.free| + more - 1
                  && r.pool.used.reader == p.used.reader + (if m == READER then 1 else 0)
                  && r.pool.used.builder == p.used.builder + (if m == BUILDER then 1 else 0)
                  && (r.chunk == os || r.chunk in p.free)
                  && forall a :: a in r.pool.free ==> a in p.free)
  {
    hide Decide, Usage.With, Usage.Of;
    WithChanges(p.used, m, p.used.Of(m) + 1);
  }

  lemma GetKeepsLimits(l: Limits, s: System, m: Memory, swap: bool, os: Address)
    requires l.Configured() && WithinLimits(l, s) && Covered(l, s)
    ensures var r := Get(l, s.pool, m, swap, os);
            && !r.Underflow?
            && (BelowMinimum(l, s.pool.used, m) ==> r.Granted?)
            && (r.Granted? ==> forall owner :: WithinLimits(l, System(r.pool, owner)) && Covered(l, System(r.pool, owner)))
  {
    hide Get;
    GetCounts(l, s.pool, m, swap, os);
  }

  lemma GetConserves(l: Limits, s: System, m: Memory, swap: bool, os: Address)
    requires Conserved(s) && s.Unused(os) && Get(l, s.pool, m, swap, os).Granted?
    ensures var r := Get(l, s.pool, m, swap, os);
            r.chunk !in s.owner && Conserved(System(r.pool, s.owner[r.chunk := m]))
  {
    hide Counted, Decide, Usage.With, Usage.Of, Usage.Total;
    WithChanges(s.pool.used, m, s.pool.used.Of(m) + 1);
    var r := Get(l, s.pool, m, swap, os);
    assert Decide(l, s.pool, m, swap).FromSystem? ==> r.pool.free == s.pool.free && r.chunk == os;
    CountedAdd(s.owner, s.pool.used, r.chunk, m);
  }

  /** A request keeps the invariant, never underflows, and hands out a chunk nobody else holds;
      a module below its minimum is served at once. */
  lemma GetKeepsInvariant(l: Limits, s: System, m: Memory, swap: bool, os: Address)
    requires l.Configured() && Invariant(l, s) && s.Unused(os)
    ensures !Get(l, s.pool, m, swap, os).Underflow?
    ensures BelowMinimum(l, s.pool.used, m) ==> Get(l, s.pool, m, swap, os).Granted?
    ensures var r := Get(l, s.pool, m, swap, os);
            r.Granted? ==> r.chunk !in s.owner && Invariant(l, System(r.pool, s.owner[r.chunk := m]))
  {
    hide Conserved, WithinLimits, Covered, Get;
    GetKeepsLimits(l, s, m, swap, os);
    if Get(l, s.pool, m, swap, os).Granted? {
      GetConserves(l, s, m, swap, os);
    }
  }

  lemma FreeKeepsLimits(l: Limits, s: System, m: Memory, a: Address)
    requires l.readMin + l.writeMin <= l.min && WithinLimits(l, s) && Covered(l, s)
    requires s.pool.owned == |s.pool.free| + s.pool.used.Total() && s.pool.used.Of(m) > 0
    ensures var r := Free(l, s.pool, m, a);
            r.Freed? && forall owner :: WithinLimits(l, System(r.pool, owner)) && Covered(l, System(r.pool, owner))
  {
    hide Usage.With, Usage.Of, Usage.Total;
    WithChanges(s.pool.used, m, s.pool.used.Of(m) - 1);
  }

  lemma FreeConserves(l: Limits, s: System, a: Address)
    requires Conserved(s) && a in s.owner && Free(l, s.pool, s.owner[a], a).Freed?
    ensures Conserved(System(Free(l, s.pool, s.owner[a], a).pool, s.owner - {a}))
  {
    hide Counted, Usage.With, Usage.Of, Usage.Total;
    CountedRemove(s.owner, s.pool.used, a);
    WithChanges(s.pool.used, s.owner[a], s.pool.used.Of(s.owner[a]) - 1);
  }

  /** Returning a chunk that is held keeps the invariant and is never rejected. */
  lemma FreeKeepsInvariant(l: Limits, s: System, a: Address)
    requires l.readMin + l.writeMin <= l.min && Invariant(l, s) && a in s.owner
    ensures var r := Free(l, s.pool, s.owner[a], a);
            r.Freed? && Invariant(l, System(r.pool, s.owner - {a}))
  {
    hide WithinLimits, Covered, Free, Counted;
    CountedRemove(s.owner, s.pool.used, a);
    FreeKeepsLimits(l, s, s.owner[a], a);
    FreeConserves(l, s, a);
  }

  /** How many more chunks a request that may use the swap reserve can obtain. */
  function Slack(l: Limits, p: Pool): int {
    |p.free| - Unmet(l, p.used) + l.max - p.owned
  }

  lemma InvariantSlack(l: Limits, s: System)
    requires Invariant(l, s)
    ensures Slack(l, s.pool) >= 0
  {
    hide Conserved;
  }

  /** A module without a reservation is served exactly as long as there is slack. */
  lemma SlackGrants(l: Limits, s: System, m: Memory, os: Address)
    requires Invariant(l, s) && m != READER && m != BUILDER
    ensures var r := Get(l, s.pool, m, true, os);
            && (r.Granted? <==> Slack(l, s.pool) > 0)
            && (r.Granted? ==> && Slack(l, r.pool) == Slack(l, s.pool) - 1
                               && (r.chunk == os || r.chunk in s.pool.free)
                               && forall a :: a in r.pool.free ==> a in s.pool.free)
  {
    hide Conserved, Get;
    GetCounts(l, s.pool, m, true, os);
  }

  /** Modules without a reservation are handed the same chunk. */
  lemma SameChunk(l: Limits, p: Pool, m: Memory, k: Memory, os: Address)
    requires m != READER && m != BUILDER && k != READER && k != BUILDER
    ensures var r, q := Get(l, p, m, true, os), Get(l, p, k, true, os);
            (r.Granted? <==> q.Granted?) && (r.Granted? ==> r.chunk == q.chunk)
  {
  }

  lemma FreeSlack(l: Limits, p: Pool, m: Memory, a: Address)
    requires Free(l, p, m, a).Freed? && m != READER && m != BUILDER
    ensures Slack(l, Free(l, p, m, a).pool) == Slack(l, p) + 1
  {
    hide Usage.With, Usage.Of;
    WithChanges(p.used, m, p.used.Of(m) - 1);
  }

  // ---------------------------------------------------------------- whole runs

  datatype Event = Take(m: Memory, swap: bool, os: Address) | Give(chunk: Address)

  datatype Outcome = Running(s: System) | Broken

  /** The discipline of the callers: the system allocator hands out memory that is not in use,
      and a module returns only a chunk it holds. */
  ghost predicate Permitted(s: System, e: Event) {
    match e
    case Take(_, _, os) => s.Unused(os)
    case Give(a) => a in s.owner
  }

  ghost function PoolStep(l: Limits, s: System, e: Event): Outcome
    requires Permitted(s, e)
  {
    match e
    case Take(m, swap, os) =>
      (match Get(l, s.pool, m, swap, os)
       case Granted(p, a) => Running(System(p, s.owner[a := m]))
       case MustWait => Running(s)
       case Underflow => Broken)
    case Give(a) =>
      (match Free(l, s.pool, s.owner[a], a)
       case Freed(p) => Running(System(p, s.owner - {a}))
       case UnknownBlock => Broken)
  }

  /** `initialize` obtains `min` chunks from the system and puts them all on the stack. */
  function Initial(chunks: seq<Address>): System {
    System(Pool(chunks, |chunks|, NOTHING_USED), map[])
  }

  /** The outcomes of a run from `s`; a run stops at the first improper event. */
  ghost function PoolRun(l: Limits, s: System, es: seq<Event>): Outcome
    decreases |es|
  {
    if es == [] || !Permitted(s, es[0]) then Running(s)
    else
      var o := PoolStep(l, s, es[0]);
      if o.Broken? then Broken else PoolRun(l, o.s, es[1..])
  }

  lemma {:induction false} RunKeepsInvariant(l: Limits, s: System, es: seq<Event>)
    requires l.Configured() && l.readMin + l.writeMin <= l.min && Invariant(l, s)
    ensures var o := PoolRun(l, s, es); o.Running? && Invariant(l, o.s)
    decreases |es|
  {
    hide Invariant;
    if es != [] && Permitted(s, es[0]) {
      match es[0] {
        case Take(m, swap, os) => GetKeepsInvariant(l, s, m, swap, os);
        case Give(a) => FreeKeepsInvariant(l, s, a);
      }
      RunKeepsInvariant(l, PoolStep(l, s, es[0]).s, es[1..]);
    }
  }

  ghost predicate SafeFor(l: Limits, chunks: seq<Address>) {
    forall es :: PoolRun(l, Initial(chunks), es).Running?
  }

  /** Requests that are all served without a check: first the reader, then the builder. */
  function UncheckedRequests(l: Limits, taken: nat, n: nat, os: Address): seq<Event>
    decreases n
  {
    if n == 0 then []
    else [Take(if taken < l.readMin then READER else BUILDER, false, os)]
         + UncheckedRequests(l, taken + 1, n - 1, os)
  }

  lemma {:induction false} UncheckedRequestsUnderflow(l: Limits, s: System, taken: nat, os: Address)
    requires s.Unused(os)
    requires taken + |s.pool.free| < l.readMin + l.writeMin
    requires s.pool.used.reader == if taken < l.readMin then taken else l.readMin
    requires s.pool.used.builder == if taken < l.readMin then 0 else taken - l.readMin
    ensures PoolRun(l, s, UncheckedRequests(l, taken, |s.pool.free| + 1, os)).Broken?
    decreases |s.pool.free|
  {
    hide Permitted, PoolStep, System.Unused;
    var n := |s.pool.free|;
    var es := UncheckedRequests(l, taken, n + 1, os);
    var m := if taken < l.readMin then READER else BUILDER;
    var rest := UncheckedRequests(l, taken + 1, n, os);
    assert es[0] == Take(m, false, os) && es[1..] == rest;
    UncheckedStep(l, s, m, os);
    if n > 0 {
      UncheckedRequestsUnderflow(l, PoolStep(l, s, es[0]).s, taken + 1, os);
    }
  }

  /** One unchecked request: the top of the stack, or the underflow. */
  lemma UncheckedStep(l: Limits, s: System, m: Memory, os: Address)
    requires s.Unused(os) && BelowMinimum(l, s.pool.used, m)
    ensures Permitted(s, Take(m, false, os))
    ensures var o := PoolStep(l, s, Take(m, false, os));
            if s.pool.free == [] then o.Broken?
            else
              && o.Running? && o.s.Unused(os) && o.s.pool.free == s.pool.free[..|s.pool.free| - 1]
              && o.s.pool.used.reader == s.pool.used.reader + (if m == READER then 1 else 0)
              && o.s.pool.used.builder == s.pool.used.builder + (if m == BUILDER then 1 else 0)
  {
    hide Usage.With, Usage.Of, Reserved;
    WithChanges(s.pool.used, m, s.pool.used.Of(m) + 1);
    if s.pool.free != [] {
      var top := s.pool.free[|s.pool.free| - 1];
      assert Get(l, s.pool, m, false, os).chunk == top && top != os;
    }
  }

  lemma {:induction false} FreshAddress(s: seq<Address>) returns (os: Address)
    ensures forall i :: 0 <= i < |s| ==> s[i] < os
  {
    os := 0;
    if s != [] {
      var last := |s| - 1;
      var k := FreshAddress(s[..last]);
      os := if s[last] < k then k else s[last] + 1;
    }
  }

  /** Reservation safety, exactly: no run ever takes a chunk from an empty stack if and only if
      the two reservations together fit in the minimum number of chunks. */
  lemma ReservationSafety(l: Limits, chunks: seq<Address>)
    requires l.Configured() && Distinct(chunks) && |chunks| == l.min
    ensures SafeFor(l, chunks) <==> l.readMin + l.writeMin <= l.min
  {
    var s := Initial(chunks);
    if l.readMin + l.writeMin <= l.min {
      InitialKeepsInvariant(l, chunks);
      forall es ensures PoolRun(l, s, es).Running? {
        RunKeepsInvariant(l, s, es);
      }
    } else {
      var os := FreshAddress(chunks);
      UncheckedRequestsUnderflow(l, s, 0, os);
    }
  }

  /** Over every run: conservation, the limits, cover for every unmet reservation, and service
      without waiting for a module below its minimum. */
  lemma EveryRunIsSafe(l: Limits, chunks: seq<Address>, es: seq<Event>, m: Memory, swap: bool, os: Address)
    requires l.Configured() && l.readMin + l.writeMin <= l.min
    requires Distinct(chunks) && |chunks| == l.min
    ensures var o := PoolRun(l, Initial(chunks), es);
            && o.Running? && Conserved(o.s) && WithinLimits(l, o.s) && Covered(l, o.s)
            && (BelowMinimum(l, o.s.pool.used, m) && o.s.Unused(os) ==> Get(l, o.s.pool, m, swap, os).Granted?)
  {
    var s := Initial(chunks);
    InitialKeepsInvariant(l, chunks);
    RunKeepsInvariant(l, s, es);
    var t := PoolRun(l, s, es).s;
    if t.Unused(os) {
      GetKeepsInvariant(l, t, m, swap, os);
    }
  }

  lemma InitialOutcome(l: Limits, chunks: seq<Address>)
    requires l.Configured() && Distinct(chunks) && |chunks| == l.min
    ensures Conserved(Initial(chunks))
    ensures l.readMin + l.writeMin <= l.min ==> Invariant(l, Initial(chunks))
  {
    hide Conserved, Invariant, Distinct;
    InitialConserved(chunks);
    if l.readMin + l.writeMin <= l.min { InitialKeepsInvariant(l, chunks); }
  }

  lemma PoppedOwned(p: Pool, m: Memory)
    requires p.free != []
    ensures Popped(p, m).owned == p.owned
  {
  }

  lemma FreeWithinOwned(s: System)
    requires Conserved(s)
    ensures |s.pool.free| <= s.pool.owned
  {
    hide Counted, Distinct;
  }

  lemma GetOutcome(l: Limits, s: System, m: Memory, swap: bool, os: Address)
    requires l.Configured() && Conserved(s) && s.Unused(os)
    ensures var r := Get(l, s.pool, m, swap, os);
            && (r.Granted? ==> Conserved(System(r.pool, s.owner[r.chunk := m])))
            && (Invariant(l, s) ==>
                  && !r.Underflow? && (BelowMinimum(l, s.pool.used, m) ==> r.Granted?)
                  && (r.Granted? ==> Invariant(l, System(r.pool, s.owner[r.chunk := m]))))
  {
    hide Get, Conserved, Invariant, BelowMinimum, System.Unused;
    if Get(l, s.pool, m, swap, os).Granted? { GetConserves(l, s, m, swap, os); }
    if Invariant(l, s) { GetKeepsInvariant(l, s, m, swap, os); }
  }

  /** A chunk that is held is not rejected. */
  lemma HeldIsFreed(l: Limits, s: System, a: Address)
    requires Conserved(s) && a in s.owner
    ensures Free(l, s.pool, s.owner[a], a).Freed? && |s.pool.free| < s.pool.owned && s.pool.used.Of(s.owner[a]) > 0
  {
    hide Counted, Distinct, Usage.With;
    CountedRemove(s.owner, s.pool.used, a);
  }

  /** The allocator part of `Ctx`, with its fields changed in place. `owner` records, for the
      proofs, which module holds each chunk handed out. */
  class Allocator {
    const limits: Limits
    var memoryChunks: array<Address>
    var memoryChunksFree: nat
    var memoryChunksAllocated: nat
    var memoryModulesAllocated: Usage
    var outOfMemoryParser: bool
    ghost var owner: map<Address, Memory>

    ghost predicate Valid()
      reads this, memoryChunks
    {
      && limits.Configured()
      && memoryChunks.Length == limits.max
      && memoryChunksFree <= memoryChunks.Length
      && memoryChunksAllocated <= limits.max
      && Conserved(State())
    }

    ghost function State(): System
      reads this, memoryChunks
      requires memoryChunksFree <= memoryChunks.Length
    {
      System(Pool(memoryChunks[..memoryChunksFree], memoryChunksAllocated, memoryModulesAllocated), owner)
    }

    /** `Ctx::initialize`: `chunks` are the addresses the system allocator returns. */
    constructor (l: Limits, chunks: seq<Address>)
      requires l.Configured() && Distinct(chunks) && |chunks| == l.min
      ensures Valid() && limits == l && State() == Initial(chunks) && fresh(memoryChunks)
      ensures l.readMin + l.writeMin <= l.min ==> Invariant(limits, State())
    {
      hide Distinct, Conserved, Invariant;
      limits := l;
      memoryChunks := new Address[l.max](i => 0);
      memoryChunksFree, memoryChunksAllocated := 0, 0;
      memoryModulesAllocated := NOTHING_USED;
      outOfMemoryParser := false;
      owner := map[];
      new;
      Fill(chunks);
      assert State() == Initial(chunks);
      InitialOutcome(l, chunks);
    }

    /** The loop of `Ctx::initialize`. */
    method Fill(chunks: seq<Address>)
      requires memoryChunksFree == memoryChunksAllocated == 0 && |chunks| <= memoryChunks.Length
      modifies this`memoryChunksFree, this`memoryChunksAllocated, memoryChunks
      ensures memoryChunksFree == memoryChunksAllocated == |chunks| && memoryChunks[..memoryChunksFree] == chunks
    {
      while memoryChunksFree < |chunks|
        invariant memoryChunksFree == memoryChunksAllocated <= |chunks|
        invariant memoryChunks[..memoryChunksFree] == chunks[..memoryChunksFree]
      {
        Refill(chunks[memoryChunksFree]);
      }
      assert chunks[..|chunks|] == chunks;
    }

    /** A chunk from the system goes on the stack. */
    method Refill(os: Address)
      requires memoryChunksFree < memoryChunks.Length
      modifies this`memoryChunksFree, this`memoryChunksAllocated, memoryChunks
      ensures memoryChunksFree == old(memoryChunksFree) + 1 && memoryChunksAllocated == old(memoryChunksAllocated) + 1
      ensures memoryChunks[..memoryChunksFree] == old(memoryChunks[..memoryChunksFree]) + [os]
    {
      memoryChunks[memoryChunksFree] := os;
      memoryChunksFree := memoryChunksFree + 1;
      memoryChunksAllocated := memoryChunksAllocated + 1;
    }

    /** The top of the stack is handed out. */
    method TakeTop(m: Memory) returns (chunk: Address)
      requires 0 < memoryChunksFree <= memoryChunks.Length
      modifies this
      ensures memoryChunks == old(memoryChunks) && memoryChunksFree <= memoryChunks.Length
      ensures var before := old(State()).pool;
              chunk == before.free[|before.free| - 1] && State() == System(Popped(before, m), old(owner)[chunk := m])
      ensures outOfMemoryParser == (old(outOfMemoryParser) && m != PARSER)
    {
      hide Usage.With, Usage.Of;
      if m == PARSER {
        outOfMemoryParser := false;
      }
      ghost var free := memoryChunks[..memoryChunksFree];
      memoryChunksFree := memoryChunksFree - 1;
      memoryModulesAllocated := memoryModulesAllocated.With(m, memoryModulesAllocated.Of(m) + 1);
      chunk := memoryChunks[memoryChunksFree];
      owner := owner[chunk := m];
      assert memoryChunks[..memoryChunksFree] == free[..|free| - 1];
    }

    /** The waiting loop of `Ctx::getMemoryChunk` up to the point where it would wait; a chunk from
        the system is put on the stack if the request needs it. */
    method Reserve(m: Memory, swap: bool, os: Address) returns (wait: bool)
      requires memoryChunks.Length == limits.max && memoryChunksFree <= memoryChunksAllocated <= limits.max
      modifies this`memoryChunksFree, this`memoryChunksAllocated, this`outOfMemoryParser, memoryChunks
      ensures memoryChunksFree <= memoryChunks.Length && memoryChunksAllocated <= limits.max
      ensures wait == Decide(limits, old(State()).pool, m, swap).Wait?
      ensures State() == System(Offered(limits, old(State()).pool, m, swap, os), owner)
      ensures outOfMemoryParser == (old(outOfMemoryParser) || (wait && m == PARSER))
    {
      hide Reserved, BelowMinimum;
      var u := memoryModulesAllocated;
      if BelowMinimum(limits, u, m) {
        return false;
      }
      var reservedChunks := Reserved(limits, u, swap);
      if m == BUILDER && u.builder >= limits.writeMax {
        return true;
      }
      if memoryChunksFree > reservedChunks {
        return false;
      }
      if memoryChunksAllocated >= limits.max {
        outOfMemoryParser := outOfMemoryParser || m == PARSER;
        return true;
      }
      Refill(os);
      return false;
    }

    /** `Ctx::getMemoryChunk` without the waiting. `None` means that it waits, or, with
        `underflow`, that the stack is empty although the request was not checked: there the
        original reads outside of the array. */
    method GetMemoryChunk(m: Memory, swap: bool, os: Address) returns (chunk: Option<Address>, underflow: bool)
      requires Valid() && State().Unused(os)
      modifies this, memoryChunks
      ensures Valid() && memoryChunks == old(memoryChunks)
      ensures match Get(limits, old(State()).pool, m, swap, os)
              case Granted(p, a) => chunk == Some(a) && !underflow && State() == System(p, old(owner)[a := m])
              case MustWait => chunk.None? && !underflow && State() == old(State())
              case Underflow => chunk.None? && underflow && State() == old(State())
      ensures old(Invariant(limits, State())) ==>
                && !underflow && Invariant(limits, State())
                && (old(BelowMinimum(limits, memoryModulesAllocated, m)) ==> chunk.Some?)
      ensures !underflow ==> outOfMemoryParser == if m == PARSER then chunk.None? else old(outOfMemoryParser)
    {
      hide Conserved, Invariant, Decide, BelowMinimum, System.Unused, Popped;
      ghost var before := State();
      FreeWithinOwned(before);
      GetOutcome(limits, before, m, swap, os);
      var wait := Reserve(m, swap, os);
      if wait {
        return None, false;
      }
      if memoryChunksFree == 0 {
        assert State().pool.free == [];
        return None, true;
      }
      PoppedOwned(State().pool, m);
      var top := TakeTop(m);
      chunk, underflow := Some(top), false;
    }

    /** `Ctx::freeMemoryChunk`; `released` is the chunk handed back to the system, if any, and
        `unknown` is error 50001, raised when no chunk is handed out. */
    method FreeMemoryChunk(m: Memory, chunk: Address) returns (released: Option<Address>, unknown: bool)
      requires Valid() && (memoryChunksFree < memoryChunksAllocated ==> chunk in owner && owner[chunk] == m)
      modifies this, memoryChunks
      ensures Valid() && memoryChunks == old(memoryChunks)
      ensures unknown <==> old(memoryChunksFree == memoryChunksAllocated)
      ensures match Free(limits, old(State()).pool, m, chunk)
              case Freed(p) => !unknown && State() == System(p, old(owner) - {chunk})
              case UnknownBlock => unknown && State() == old(State())
      ensures released == if !unknown && old(memoryChunksFree) >= limits.min then Some(chunk) else None
      ensures old(Invariant(limits, State())) && limits.readMin + limits.writeMin <= limits.min ==> Invariant(limits, State())
      ensures outOfMemoryParser == old(outOfMemoryParser)
    {
      hide Conserved, Invariant, Distinct, Usage.With;
      ghost var before := State();
      FreeWithinOwned(before);
      if memoryChunksFree == memoryChunksAllocated {
        return None, true;
      }
      unknown := false;
      HeldIsFreed(limits, before, chunk);
      FreeConserves(limits, before, chunk);
      if Invariant(limits, before) && limits.readMin + limits.writeMin <= limits.min {
        FreeKeepsInvariant(limits, before, chunk);
      }
      if memoryChunksFree >= limits.min {
        memoryChunksAllocated := memoryChunksAllocated - 1;
        released := Some(chunk);
      } else {
        memoryChunks[memoryChunksFree] := chunk;
        memoryChunksFree := memoryChunksFree + 1;
        released := None;
        assert memoryChunks[..memoryChunksFree] == before.pool.free + [chunk];
      }
      memoryModulesAllocated := memoryModulesAllocated.With(m, memoryModulesAllocated.Of(m) - 1);
      owner := owner - {chunk};
    }
  }
}
