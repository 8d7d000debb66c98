/** The caller-facing session handle. A handle is active while it holds a
    server session record and ended once it has handed the record back; the
    end is final. */
module ClientSessions {
  import opened Errors
  import opened Options
  import opened ServerSessions
  import opened SessionPool

  /** The handle a caller runs its operations under, so that they are ordered
      one after another. `Client` and `AuthSet`
      stand for the owning client and its credential bookkeeping, which the
      handle only carries. Record returns go to `pool`, the owning client's
      pool. */
  class ClientSession<Client, AuthSet> {
    const client: Client
    const options: SessionOptions
    const authset: AuthSet
    const pool: ServerSessionPool
    var serverSession: ServerSession?

    /** An active handle holding `serverSession`. */
    constructor (client: Client, pool: ServerSessionPool, serverSession: ServerSession,
                 options: SessionOptions, authset: AuthSet)
      ensures this.client == client && this.pool == pool && this.options == options
      ensures this.authset == authset
      ensures this.serverSession == serverSession && !HasEnded()
    {
      this.client := client;
      this.pool := pool;
      this.serverSession := serverSession;
      this.options := options;
      this.authset := authset;
    }

    /** True once the handle has given its record back. */
    predicate HasEnded()
      reads this
    {
      serverSession == null
    }

    /** The handle's logical session id; an ended handle raises
        InvalidOperation instead. */
    function SessionId(): (r: Result<Lsid>)
      reads this
      ensures r.Err? <==> HasEnded()
      ensures r.Err? ==> r.error == InvalidOperation(EndedSessionMessage)
      ensures r.Ok? ==> serverSession != null && r.value == serverSession.sessionId
    {
      if serverSession == null then Err(InvalidOperation(EndedSessionMessage))
      else Ok(serverSession.sessionId)
    }

    /** Ends the handle: an active handle hands its record to the pool, by the
        locked path when `lock` holds and the lock-free path otherwise, and
        drops it; an ended handle is left as it is. */
    method EndSessionWith(lock: bool, timeoutMinutes: int, now: int)
      modifies this, pool
      ensures HasEnded()
      ensures old(serverSession) == null ==> pool.sessions == old(pool.sessions)
      ensures old(serverSession) != null && lock ==>
                pool.sessions == AfterReturn(old(pool.sessions), old(StaleAt(pool.sessions, timeoutMinutes, now)),
                                             old(serverSession), old(serverSession.TimedOut(timeoutMinutes, now)))
      ensures old(serverSession) != null && !lock ==> pool.sessions == [old(serverSession)] + old(pool.sessions)
    {
      if serverSession != null {
        if lock {
          pool.ReturnServerSession(serverSession, timeoutMinutes, now);
        } else {
          pool.ReturnServerSessionNoLock(serverSession);
        }
        serverSession := null;
      }
    }

    /** Finishes the session, returning its record by the locked path; a
        second call does nothing. */
    method EndSession(timeoutMinutes: int, now: int)
      modifies this, pool
      ensures HasEnded()
      ensures old(serverSession) == null ==> pool.sessions == old(pool.sessions)
      ensures old(serverSession) != null ==>
                pool.sessions == AfterReturn(old(pool.sessions), old(StaleAt(pool.sessions, timeoutMinutes, now)),
                                             old(serverSession), old(serverSession.TimedOut(timeoutMinutes, now)))
    {
      EndSessionWith(true, timeoutMinutes, now);
    }

    /** Leaving a `with` block ends the session, whatever the block did. */
    method Exit(timeoutMinutes: int, now: int)
      modifies this, pool
      ensures HasEnded()
      ensures old(serverSession) == null ==> pool.sessions == old(pool.sessions)
      ensures old(serverSession) != null ==>
                pool.sessions == AfterReturn(old(pool.sessions), old(StaleAt(pool.sessions, timeoutMinutes, now)),
                                             old(serverSession), old(serverSession.TimedOut(timeoutMinutes, now)))
    {
      EndSession(timeoutMinutes, now);
    }

    /** Marks the held record used at `now` and returns its id for the
        outgoing command; an ended handle raises InvalidOperation. */
    method UseLsid(now: int) returns (r: Result<Lsid>)
      modifies serverSession
      ensures old(serverSession) == null ==> r == Err(InvalidOperation(EndedSessionMessage))
      ensures serverSession != null ==> r == Ok(serverSession.sessionId) && serverSession.lastUse == now
    {
      if serverSession == null {
        return Err(InvalidOperation(EndedSessionMessage));
      }
      var id := serverSession.UseLsid(now);
      r := Ok(id);
    }
  }

  /** Ending twice is ending once: a handle over a fresh record, ended twice,
      puts the record in its empty pool exactly once, and afterwards reports
      itself ended, refuses its id and refuses to be used, while its client
      and options are those it was created with. */
  method EndTwice<Client, AuthSet>(record: ServerSession, client: Client, options: SessionOptions,
                                   authset: AuthSet, timeoutMinutes: int, now: int)
    returns (afterFirst: seq<ServerSession>, afterSecond: seq<ServerSession>, ended: bool,
             id: Result<Lsid>, used: Result<Lsid>, clientAfter: Client, optionsAfter: SessionOptions)
    requires !record.TimedOut(timeoutMinutes, now)
    ensures afterFirst == [record] && afterSecond == afterFirst
    ensures ended
    ensures id == Err(InvalidOperation(EndedSessionMessage)) && used == id
    ensures clientAfter == client && optionsAfter == options
  {
    var pool := new ServerSessionPool();
    var session := new ClientSession(client, pool, record, options, authset);
    session.EndSession(timeoutMinutes, now);
    afterFirst := pool.sessions;
    session.EndSession(timeoutMinutes, now);
    afterSecond := pool.sessions;
    ended := session.HasEnded();
    id := session.SessionId();
    used := session.UseLsid(now);
    clientAfter, optionsAfter := session.client, session.options;
  }

  /** While a handle is active, using it refreshes its record's last use and
      yields the record's id, which stays the handle's id. */
  method UseWhileActive<Client, AuthSet>(id: Lsid, client: Client, options: SessionOptions,
                                         authset: AuthSet, created: int, now: int)
    returns (used: Result<Lsid>, lastUse: int, idAfter: Result<Lsid>)
    ensures used == Ok(id) && idAfter == Ok(id)
    ensures lastUse == now
  {
    var pool := new ServerSessionPool();
    var record := new ServerSession(id, created);
    var session := new ClientSession(client, pool, record, options, authset);
    used := session.UseLsid(now);
    lastUse := record.lastUse;
    idAfter := session.SessionId();
  }
}
