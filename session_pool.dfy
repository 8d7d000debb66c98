/** The free list of server session records. Index 0 is the left end of the
    deque, where the most recently returned records sit; the last index is the
    right end, the least recently returned. */
module SessionPool {
  import opened ServerSessions

  /** The records of `xs` that have timed out at time `now`: a snapshot of
      the staleness test the pool operations apply record by record. */
  function StaleAt(xs: seq<ServerSession>, timeoutMinutes: int, now: int): set<ServerSession>
    reads xs
  {
    set s | s in xs && s.TimedOut(timeoutMinutes, now)
  }

  /** The records of `xs` as they stand after the sweep from the right end:
      trailing records in `stale` are dropped and the sweep stops at the first
      record from the right that is not. */
  function Swept(xs: seq<ServerSession>, stale: set<ServerSession>): (r: seq<ServerSession>)
    ensures r <= xs
    ensures r == [] || r[|r| - 1] !in stale
    ensures forall i :: |r| <= i < |xs| ==> xs[i] in stale
    decreases |xs|
  {
    if xs == [] then []
    else if xs[|xs| - 1] in stale then Swept(xs[..|xs| - 1], stale)
    else xs
  }

  /** How many records checkout pops from the left before it meets one not in
      `stale`: the index of the leftmost fresh record, or `|xs|` if none is. */
  function FirstFresh(xs: seq<ServerSession>, stale: set<ServerSession>): (k: nat)
    ensures k <= |xs|
    ensures forall j :: 0 <= j < k ==> xs[j] in stale
    ensures k < |xs| ==> xs[k] !in stale
    decreases |xs|
  {
    if xs == [] then 0
    else if xs[0] !in stale then 0
    else 1 + FirstFresh(xs[1..], stale)
  }

  /** No record occurs twice. The pool does not enforce this; the handle
      discipline (one owner per record) is what keeps it true. */
  predicate Distinct(xs: seq<ServerSession>)
  {
    forall i, j :: 0 <= i < j < |xs| ==> xs[i] != xs[j]
  }

  /** The sweep leaves nothing exactly when every record is stale. */
  lemma SweptEmptyIffAllStale(xs: seq<ServerSession>, stale: set<ServerSession>)
    ensures Swept(xs, stale) == [] <==> forall i :: 0 <= i < |xs| ==> xs[i] in stale
  {
  }

  /** Once swept, a non-empty pool always holds a fresh record, so checkout
      finds one before the pool runs dry. */
  lemma SweptHasFresh(xs: seq<ServerSession>, stale: set<ServerSession>)
    ensures Swept(xs, stale) != [] ==> FirstFresh(Swept(xs, stale), stale) < |Swept(xs, stale)|
  {
  }

  /** Sweeping twice with the same staleness is sweeping once. */
  lemma SweptIsIdempotent(xs: seq<ServerSession>, stale: set<ServerSession>)
    ensures Swept(Swept(xs, stale), stale) == Swept(xs, stale)
  {
  }

  /** What checkout does with a pool: reuse one of its records, leaving the
      rest, or mint a new record. */
  datatype Checkout = Reuse(record: ServerSession, rest: seq<ServerSession>) | Mint

  /** The checkout of `pool` under the staleness snapshot `stale`: sweep the
      right end, then take the leftmost fresh record of what is left. */
  function PlanCheckout(pool: seq<ServerSession>, stale: set<ServerSession>): (c: Checkout)
    ensures c.Mint? <==> forall i :: 0 <= i < |pool| ==> pool[i] in stale
    ensures c.Reuse? ==> c.record in pool && c.record !in stale
    ensures c.Reuse? ==> exists k, hi :: CheckedOutAt(pool, stale, k, hi, c.record, c.rest)
    ensures c.Reuse? && Distinct(pool) ==> c.record !in c.rest && Distinct(c.rest)
  {
    CheckoutFacts(pool, stale);
    var swept := Swept(pool, stale);
    var k := FirstFresh(swept, stale);
    if k < |swept| then Reuse(swept[k], swept[k + 1..]) else Mint
  }

  /** `record` and `rest` are what is left of `pool` once every record left
      of `pool[k]` has been popped and every record right of `pool[hi - 1]`
      swept: the popped and swept records are all stale, `record == pool[k]`,
      the sweep stopped at a fresh `pool[hi - 1]`, and `rest` is the
      contiguous slice between. */
  ghost predicate CheckedOutAt(pool: seq<ServerSession>, stale: set<ServerSession>, k: int, hi: int,
                               record: ServerSession, rest: seq<ServerSession>)
  {
    && 0 <= k < hi <= |pool|
    && pool[k] == record
    && rest == pool[k + 1..hi]
    && pool[hi - 1] !in stale
    && (forall j :: 0 <= j < k ==> pool[j] in stale)
    && (forall j :: hi <= j < |pool| ==> pool[j] in stale)
  }

  /** The facts `PlanCheckout` promises, about the sweep and the leftward pops
      it is made of. */
  lemma CheckoutFacts(pool: seq<ServerSession>, stale: set<ServerSession>)
    ensures Swept(pool, stale) == [] <==> forall i :: 0 <= i < |pool| ==> pool[i] in stale
    ensures var swept := Swept(pool, stale);
            var k := FirstFresh(swept, stale);
            swept != [] ==>
              && k < |swept|
              && swept[k] in pool
              && swept[k] !in stale
              && CheckedOutAt(pool, stale, k, |swept|, swept[k], swept[k + 1..])
              && (Distinct(pool) ==> swept[k] !in swept[k + 1..] && Distinct(swept[k + 1..]))
  {
  }

  /** The pool after a locked return of `record`, whose own staleness is
      `recordStale`: the swept pool, with `record` put on the left unless it is
      stale. Apart from the sweep, nothing else changes. */
  function AfterReturn(pool: seq<ServerSession>, stale: set<ServerSession>,
                       record: ServerSession, recordStale: bool): (r: seq<ServerSession>)
    ensures recordStale ==> r <= pool
    ensures !recordStale ==> |r| > 0 && r[0] == record && r[1..] <= pool
    ensures Distinct(pool) && record !in pool ==> Distinct(r)
  {
    SweptKeepsDistinct(pool, stale, record);
    if recordStale then Swept(pool, stale) else [record] + Swept(pool, stale)
  }

  /** Sweeping keeps a pool free of repeats and cannot bring in a record that
      was not there. */
  lemma SweptKeepsDistinct(pool: seq<ServerSession>, stale: set<ServerSession>, record: ServerSession)
    ensures Distinct(pool) && record !in pool ==>
              Distinct(Swept(pool, stale)) && Distinct([record] + Swept(pool, stale))
  {
  }

  /** Checkout from a pool whose leftmost record is fresh and whose records
      from `hi` on are stale, `pool[hi - 1]` being fresh: it hands out the
      leftmost record and leaves `pool[1..hi]`. */
  lemma CheckoutFreshHead(pool: seq<ServerSession>, stale: set<ServerSession>, hi: nat)
    requires 0 < hi <= |pool|
    requires pool[0] !in stale && pool[hi - 1] !in stale
    requires forall j :: hi <= j < |pool| ==> pool[j] in stale
    ensures PlanCheckout(pool, stale) == Reuse(pool[0], pool[1..hi])
  {
  }

  /** The pool of idle server session records. It is not thread-safe: callers
      serialise access to it, except for the lock-free return path. */
  class ServerSessionPool {
    var sessions: seq<ServerSession>

    /** An empty pool. */
    constructor ()
      ensures sessions == []
    {
      sessions := [];
    }

    /** Pops timed-out records off the right end until the rightmost record is
        fresh or the pool is empty. */
    method ClearStale(timeoutMinutes: int, now: int)
      modifies this
      ensures sessions == Swept(old(sessions), old(StaleAt(sessions, timeoutMinutes, now)))
    {
      ghost var stale := StaleAt(sessions, timeoutMinutes, now);
      while sessions != []
        invariant sessions <= old(sessions)
        invariant Swept(sessions, stale) == Swept(old(sessions), stale)
        decreases |sessions|
      {
        if sessions[|sessions| - 1].TimedOut(timeoutMinutes, now) {
          sessions := sessions[..|sessions| - 1];
        } else {
          break;
        }
      }
    }

    /** Checks out a record: sweeps the right end, then pops from the left until
        a fresh record turns up, and mints a new record (with `freshId` and
        last use `now`) when none does. */
    method GetServerSession(timeoutMinutes: int, now: int, freshId: Lsid) returns (s: ServerSession)
      modifies this
      ensures match PlanCheckout(old(sessions), old(StaleAt(sessions, timeoutMinutes, now)))
              case Reuse(record, rest) => s == record && sessions == rest
              case Mint => fresh(s) && s.sessionId == freshId && s.lastUse == now && sessions == []
      ensures timeoutMinutes >= 1 ==> !s.TimedOut(timeoutMinutes, now)
    {
      ghost var stale := StaleAt(sessions, timeoutMinutes, now);
      ClearStale(timeoutMinutes, now);
      ghost var swept := sessions;
      ghost var k: nat := 0;
      SweptHasFresh(old(sessions), stale);
      while sessions != []
        invariant k <= |swept| && sessions == swept[k..]
        invariant forall j :: 0 <= j < k ==> swept[j] in stale
        decreases |sessions|
      {
        var head := sessions[0];
        sessions := sessions[1..];
        k := k + 1;
        if !head.TimedOut(timeoutMinutes, now) {
          s := head;
          assert FirstFresh(swept, stale) == k - 1;
          return;
        }
      }
      s := new ServerSession(freshId, now);
      JustUsedIsFresh(timeoutMinutes, now);
    }

    /** The locked return path: sweeps the right end, then puts the record back
        on the left unless it has itself timed out, in which case it is
        discarded. */
    method ReturnServerSession(serverSession: ServerSession, timeoutMinutes: int, now: int)
      modifies this
      ensures sessions == AfterReturn(old(sessions), old(StaleAt(sessions, timeoutMinutes, now)),
                                      serverSession, serverSession.TimedOut(timeoutMinutes, now))
    {
      ClearStale(timeoutMinutes, now);
      if !serverSession.TimedOut(timeoutMinutes, now) {
        sessions := [serverSession] + sessions;
      }
    }

    /** The lock-free return path: puts the record back on the left with no
        sweep and no staleness check. */
    method ReturnServerSessionNoLock(serverSession: ServerSession)
      modifies this
      ensures sessions == [serverSession] + old(sessions)
    {
      sessions := [serverSession] + sessions;
    }
  }

  /** A new pool after fresh locked returns of `r1`, `r2`, `r3`, in that
      order: each return goes to the left end. */
  method ReturnedInOrder(r1: ServerSession, r2: ServerSession, r3: ServerSession, timeoutMinutes: int, now: int)
    returns (pool: ServerSessionPool)
    requires !r1.TimedOut(timeoutMinutes, now) && !r2.TimedOut(timeoutMinutes, now) && !r3.TimedOut(timeoutMinutes, now)
    ensures fresh(pool) && pool.sessions == [r3, r2, r1]
  {
    pool := new ServerSessionPool();
    pool.ReturnServerSession(r1, timeoutMinutes, now);
    assert pool.sessions == [r1];
    pool.ReturnServerSession(r2, timeoutMinutes, now);
    assert r1 !in StaleAt([r1], timeoutMinutes, now);
    assert pool.sessions == [r2, r1];
    pool.ReturnServerSession(r3, timeoutMinutes, now);
    assert r1 !in StaleAt([r2, r1], timeoutMinutes, now);
  }

  /** Records come back in last-in first-out order: after fresh returns of
      `r1`, `r2`, `r3` to an empty pool, three checkouts (at a time when all
      three are still fresh) hand out `r3`, `r2`, `r1`. */
  method RecencyOrder(r1: ServerSession, r2: ServerSession, r3: ServerSession,
                      timeoutMinutes: int, now: int, later: int, freshId: Lsid)
    returns (first: ServerSession, second: ServerSession, third: ServerSession)
    requires now <= later
    requires !r1.TimedOut(timeoutMinutes, later)
    requires !r2.TimedOut(timeoutMinutes, later)
    requires !r3.TimedOut(timeoutMinutes, later)
    ensures first == r3 && second == r2 && third == r1
  {
    var pool := ReturnedInOrder(r1, r2, r3, timeoutMinutes, now);
    CheckoutFreshHead([r3, r2, r1], StaleAt([r3, r2, r1], timeoutMinutes, later), 3);
    first := pool.GetServerSession(timeoutMinutes, later, freshId);
    assert pool.sessions == [r2, r1];
    CheckoutFreshHead([r2, r1], StaleAt([r2, r1], timeoutMinutes, later), 2);
    second := pool.GetServerSession(timeoutMinutes, later, freshId);
    assert pool.sessions == [r1];
    CheckoutFreshHead([r1], StaleAt([r1], timeoutMinutes, later), 1);
    third := pool.GetServerSession(timeoutMinutes, later, freshId);
  }

  /** The sweep runs before checkout: from the pool `[f1, f2, s1, s2]` (left to
      right) where `s1` and `s2` have timed out, checkout removes both of them,
      hands out `f1` and leaves only `f2`. */
  method SweepBeforeCheckout(f1: ServerSession, f2: ServerSession, s1: ServerSession, s2: ServerSession,
                             timeoutMinutes: int, now: int, freshId: Lsid)
    returns (taken: ServerSession, left: seq<ServerSession>)
    requires !f1.TimedOut(timeoutMinutes, now) && !f2.TimedOut(timeoutMinutes, now)
    requires s1.TimedOut(timeoutMinutes, now) && s2.TimedOut(timeoutMinutes, now)
    ensures taken == f1 && left == [f2]
  {
    var pool := new ServerSessionPool();
    pool.ReturnServerSessionNoLock(s2);
    pool.ReturnServerSessionNoLock(s1);
    pool.ReturnServerSessionNoLock(f2);
    pool.ReturnServerSessionNoLock(f1);
    assert pool.sessions == [f1, f2, s1, s2];
    CheckoutFreshHead([f1, f2, s1, s2], StaleAt([f1, f2, s1, s2], timeoutMinutes, now), 2);
    taken := pool.GetServerSession(timeoutMinutes, now, freshId);
    left := pool.sessions;
  }
}
