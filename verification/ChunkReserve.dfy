/** The reserve for un-swapping: free chunks that only requests with `swap` may take, so that the
    memory manager can bring chunks back when every other module already waits. */
module ChunkReserve {
  import opened ChunkPool

  /** Exactly when a request is granted, over the counts, and when it takes a chunk from the system. */
  lemma WhenGranted(l: Limits, s: System, m: Memory, swap: bool, os: Address)
    requires l.Configured() && Invariant(l, s)
    ensures var p, r := s.pool, Get(l, s.pool, m, swap, os);
            var forReader := if p.used.reader < l.readMin then l.readMin - p.used.reader else 0;
            var forBuilder := if p.used.builder < l.writeMin then l.writeMin - p.used.builder else 0;
            var kept := forReader + forBuilder + (if swap then 0 else l.unswapMin);
            var below := (m == READER && forReader > 0) || (m == BUILDER && forBuilder > 0);
            && (r.Granted? <==> below || (!(m == BUILDER && p.used.builder >= l.writeMax) && (|p.free| > kept || p.owned < l.max)))
            && (r.Granted? ==> (r.pool.owned > p.owned <==> !below && |p.free| <= kept))
  {
    hide Conserved, Get;
    GetCounts(l, s.pool, m, swap, os);
  }

  // ------------------------------------------------------------ the reserve over runs

  /** The reserve is there on top of what the reader and the builder were promised. */
  predicate Spare(l: Limits, p: Pool) {
    |p.free| >= Unmet(l, p.used) + l.unswapMin
  }

  lemma GetKeepsSpare(l: Limits, p: Pool, m: Memory, os: Address)
    requires Spare(l, p)
    ensures var r := Get(l, p, m, false, os); r.Granted? ==> Spare(l, r.pool)
  {
    hide Get;
    GetCounts(l, p, m, false, os);
  }

  lemma FreeKeepsSpare(l: Limits, p: Pool, m: Memory, a: Address)
    requires Spare(l, p) && l.readMin + l.writeMin + l.unswapMin <= l.min
    ensures var r := Free(l, p, m, a); r.Freed? ==> Spare(l, r.pool)
  {
    hide Usage.With, Usage.Of;
    if p.used.Of(m) > 0 {
      WithChanges(p.used, m, p.used.Of(m) - 1);
    }
  }

  /** No request of the run may use the reserve. */
  predicate WithoutSwap(es: seq<Event>) {
    forall i :: 0 <= i < |es| && es[i].Take? ==> !es[i].swap
  }

  lemma {:induction false} RunKeepsSpare(l: Limits, s: System, es: seq<Event>)
    requires l.Configured() && l.readMin + l.writeMin + l.unswapMin <= l.min && Invariant(l, s) && Spare(l, s.pool) && WithoutSwap(es)
    ensures var o := PoolRun(l, s, es); o.Running? && Invariant(l, o.s) && Spare(l, o.s.pool)
    decreases |es|
  {
    hide Invariant, Spare, Get, Free;
    if es != [] && Permitted(s, es[0]) {
      match es[0] {
        case Take(m, swap, os) =>
          GetKeepsInvariant(l, s, m, swap, os);
          GetKeepsSpare(l, s.pool, m, os);
        case Give(a) =>
          FreeKeepsInvariant(l, s, a);
          FreeKeepsSpare(l, s.pool, s.owner[a], a);
      }
      RunKeepsSpare(l, PoolStep(l, s, es[0]).s, es[1..]);
    }
  }

  /** The reserve is there in every state of every run without requests that use it. */
  ghost predicate AlwaysSpare(l: Limits, chunks: seq<Address>) {
    forall es :: WithoutSwap(es) ==> PoolRun(l, Initial(chunks), es).Running? && Spare(l, PoolRun(l, Initial(chunks), es).s.pool)
  }

  /** The reserve is safe if and only if it fits in the minimum together with the other two. */
  lemma ReserveSafety(l: Limits, chunks: seq<Address>)
    requires l.Configured() && Distinct(chunks) && |chunks| == l.min
    ensures AlwaysSpare(l, chunks) <==> l.readMin + l.writeMin + l.unswapMin <= l.min
  {
    hide Distinct, Invariant;
    var s := Initial(chunks);
    assert PoolRun(l, s, []) == Running(s);
    if l.readMin + l.writeMin + l.unswapMin <= l.min {
      InitialKeepsInvariant(l, chunks);
      forall es | WithoutSwap(es) ensures PoolRun(l, s, es).Running? && Spare(l, PoolRun(l, s, es).s.pool) {
        RunKeepsSpare(l, s, es);
      }
    } else {
      assert WithoutSwap([]) && !Spare(l, s.pool);
    }
  }

  // ------------------------------------------------------------ what it is for

  /** How many of `k` requests for transactions that may use the reserve are granted at once. */
  function Served(l: Limits, p: Pool, k: nat, os: Address): nat
    decreases k
  {
    if k == 0 then 0
    else
      match Get(l, p, TRANSACTIONS, true, os)
      case Granted(q, _) => 1 + Served(l, q, k - 1, os)
      case _ => 0
  }

  /** As many as there is slack. */
  lemma {:induction false} ServedBySlack(l: Limits, p: Pool, k: nat, os: Address)
    requires Unmet(l, p.used) <= |p.free| && p.owned <= l.max
    ensures Served(l, p, k, os) == if k <= Slack(l, p) then k else Slack(l, p)
    decreases k
  {
    hide Get;
    if k > 0 {
      GetCounts(l, p, TRANSACTIONS, true, os);
      var r := Get(l, p, TRANSACTIONS, true, os);
      if r.Granted? {
        ServedBySlack(l, r.pool, k - 1, os);
      }
    }
  }

  /** In every run whose requests leave the reserve alone, `unswapMin` requests that may use it are
      granted at once, also when no more chunks may be allocated. */
  lemma ReserveServes(l: Limits, chunks: seq<Address>, es: seq<Event>, os: Address)
    requires l.Configured() && l.readMin + l.writeMin + l.unswapMin <= l.min
    requires Distinct(chunks) && |chunks| == l.min && WithoutSwap(es)
    ensures var o := PoolRun(l, Initial(chunks), es);
            o.Running? && Served(l, o.s.pool, l.unswapMin, os) == l.unswapMin
  {
    hide Distinct, Conserved, PoolRun;
    InitialKeepsInvariant(l, chunks);
    RunKeepsSpare(l, Initial(chunks), es);
    ServedBySlack(l, PoolRun(l, Initial(chunks), es).s.pool, l.unswapMin, os);
  }
}
