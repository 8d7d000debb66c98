/** A poolable server session record: an opaque logical session id and the
    time it was last used. */
module ServerSessions {

  /** The logical session id document `{'id': <uuid>}`; the 128-bit random
      uuid is an opaque token here. */
  datatype Lsid = Lsid(id: nat)

  /** Whether a record last used at `lastUse` counts as timed out at time
      `now`, given the server's session timeout in minutes: it is timed out
      once its idle time exceeds the timeout less one minute. */
  predicate IsStale(lastUse: int, timeoutMinutes: int, now: int)
  {
    now - lastUse > (timeoutMinutes - 1) * 60
  }

  /** Staleness is a threshold on `now`: a record is fresh at every time up to
      and including `deadline` and stale at every time after it, where the
      deadline lies one minute before the server's own expiry. */
  lemma StaleThreshold(lastUse: int, timeoutMinutes: int, deadline: int, now: int)
    requires deadline == lastUse + timeoutMinutes * 60 - 60
    ensures now <= deadline ==> !IsStale(lastUse, timeoutMinutes, now)
    ensures now > deadline ==> IsStale(lastUse, timeoutMinutes, now)
  {
  }

  /** With a fixed last use, once stale a record stays stale as time goes on. */
  lemma StaleIsMonotone(lastUse: int, timeoutMinutes: int, now: int, later: int)
    requires now <= later
    requires IsStale(lastUse, timeoutMinutes, now)
    ensures IsStale(lastUse, timeoutMinutes, later)
  {
  }

  /** A record used just now is fresh exactly when the timeout is at least one
      minute. */
  lemma JustUsedIsFresh(timeoutMinutes: int, now: int)
    ensures !IsStale(now, timeoutMinutes, now) <==> timeoutMinutes >= 1
  {
  }

  /** A server session record; `lastUse` is updated in place each time the
      record's id is handed out for an operation. */
  class ServerSession {
    const sessionId: Lsid
    var lastUse: int

    /** A new record with the given (freshly generated) id, used just now. */
    constructor (freshId: Lsid, now: int)
      ensures sessionId == freshId && lastUse == now
    {
      sessionId := freshId;
      lastUse := now;
    }

    /** The record has less than a minute left to live on the server. */
    predicate TimedOut(timeoutMinutes: int, now: int)
      reads this
    {
      IsStale(lastUse, timeoutMinutes, now)
    }

    /** Marks the record used at `now` and returns its unchanged id. */
    method UseLsid(now: int) returns (id: Lsid)
      modifies this
      ensures lastUse == now
      ensures id == sessionId
      ensures old(lastUse) <= now ==> old(lastUse) <= lastUse
    {
      lastUse := now;
      id := sessionId;
    }
  }
}
