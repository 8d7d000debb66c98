# PyMongo logical sessions and server selectors, modelled in Dafny

This project models two parts of PyMongo.

The first is the driver's logical sessions (`pymongo/client_session.py`):
- the server session record (`_ServerSession`): an opaque logical session id plus the time it was last used, and its staleness test;
- the driver's pool of idle records (`_ServerSessionPool`), a deque used as a recency-ordered free list;
- the caller-facing handle (`ClientSession`), which is active while it holds a record and ended once it has given the record back;
- the one-flag options value (`SessionOptions`).

The second is the three server selectors (`pymongo/server_selectors.py`). Each filters a list of server descriptions.

Files:
- `errors.dfy`: module `Errors`. The `InvalidOperation` error and the `Result` type of the accessors that raise it.
- `session_options.dfy`: module `Options`. `SessionOptions`.
- `server_session.dfy`: module `ServerSessions`. The `IsStale` test, its lemmas, and the class `ServerSession`.
- `session_pool.dfy`: module `SessionPool`. The class `ServerSessionPool` (its `sessions` field is the deque; index 0 is the left end), the functions that specify it, their lemmas, and two scenarios.
- `client_session.dfy`: module `ClientSessions`. The class `ClientSession` and two lifecycle scenarios.
- `server_selectors.dfy`: module `ServerSelectors`. The selectors, the list filter they are built on, and its lemmas.

Time is an integer `now`, in seconds, passed to every operation that reads the clock. The pool methods are specified in two layers:
- `StaleAt` takes a snapshot of the records that have timed out when a method starts.
- The pure functions `Swept`, `FirstFresh`, `PlanCheckout` and `AfterReturn` give the resulting pool in terms of that snapshot.
Each pool method's `ensures` ties the new `sessions` to one of these functions of the old state. The lemmas and the functions' own contracts state what the source promises about them.

## Model

| member | source | states |
|---|---|---|
| `Options.NewSessionOptions` | pymongo/client_session.py:59-65 | the `causallyConsistentReads` flag of the new options is the constructor argument, and the argument defaults to false |
| `Options.DefaultIsNotCausallyConsistent` | pymongo/client_session.py:59 | options built without arguments do not ask for causally consistent reads |
| `ServerSessions.StaleThreshold` | pymongo/client_session.py:137-141 | a record is fresh at every time up to `lastUse + (timeout - 1) * 60` and timed out at every time after it |
| `ServerSessions.StaleIsMonotone` | pymongo/client_session.py:137-141 | if `lastUse` stays fixed, a timed-out record stays timed out as `now` grows |
| `ServerSessions.JustUsedIsFresh` | pymongo/client_session.py:135-141 | a record used at `now` is fresh at `now` exactly when the timeout is at least one minute |
| `ServerSessions.ServerSession.constructor` | pymongo/client_session.py:132-135 | a new record carries the freshly generated id and has last use `now` |
| `ServerSessions.ServerSession.UseLsid` | pymongo/client_session.py:143-145 | sets `lastUse` to `now` and returns the unchanged id; with a clock that does not go back, `lastUse` never decreases |
| `SessionPool.ServerSessionPool.constructor` | pymongo/client_session.py:148 | a new pool, like an empty `collections.deque`, holds no records |
| `SessionPool.Swept` | pymongo/client_session.py:177-184 | the sweep's result is a prefix of the pool; it is empty or ends in a fresh record; every record it dropped was stale; it never adds records |
| `SessionPool.SweptEmptyIffAllStale` | pymongo/client_session.py:177-184 | the sweep empties the pool exactly when every record in it has timed out |
| `SessionPool.SweptIsIdempotent` | pymongo/client_session.py:177-184 | a second sweep with the same staleness removes nothing |
| `SessionPool.SweptHasFresh` | pymongo/client_session.py:159-165 | with staleness judged at the single instant `now`, a non-empty pool after the sweep always holds a fresh record, so the left-end pops find one before the pool runs dry |
| `SessionPool.FirstFresh` | pymongo/client_session.py:162-165 | the number of left-end pops before a fresh record: all records it skips are stale, and the record it stops at is fresh |
| `SessionPool.ServerSessionPool.ClearStale` | pymongo/client_session.py:177-184 | the new pool is `Swept` of the old pool, under the staleness seen on entry |
| `SessionPool.PlanCheckout` | pymongo/client_session.py:153-167 | with staleness judged at the single instant `now`, checkout mints a record exactly when every pooled record has timed out. Otherwise it reuses a fresh record of the pool. Every record left of it and every record right of the sweep's stopping point was stale. The rest is a contiguous slice of the old pool. If the pool held no record twice, the taken record is not in the rest and the rest holds no record twice |
| `SessionPool.CheckoutFacts` | pymongo/client_session.py:159-167 | the facts behind `PlanCheckout`: an empty sweep means all records are stale; a non-empty one yields a fresh record of the pool, taken at index `FirstFresh`, and leaves the slice between it and the sweep's end |
| `SessionPool.ServerSessionPool.GetServerSession` | pymongo/client_session.py:153-167 | the handed-out record and the new pool are those `PlanCheckout` gives for the old pool. A minted record is newly allocated, carries `freshId` and was last used at `now`. With a timeout of at least one minute the record handed out is fresh. The method never fails |
| `SessionPool.AfterReturn` | pymongo/client_session.py:169-172 | a locked return leaves the swept old pool, with the returned record on the left exactly when it is fresh. A stale record leaves a prefix of the old pool. A fresh record goes first, followed by a prefix of the old pool. Returning a record the pool lacks keeps the pool free of repeats |
| `SessionPool.SweptKeepsDistinct` | pymongo/client_session.py:169-172 | sweeping a pool without repeats, then putting a record it lacks on the left, leaves a pool without repeats |
| `SessionPool.ServerSessionPool.ReturnServerSession` | pymongo/client_session.py:169-172 | the new pool is `AfterReturn` of the old pool: the sweep, then the returned record on the left if and only if it is fresh; nothing else changes |
| `SessionPool.ServerSessionPool.ReturnServerSessionNoLock` | pymongo/client_session.py:174-175 | the new pool is the returned record followed by the old pool, unconditionally and without a sweep |
| `SessionPool.CheckoutFreshHead` | pymongo/client_session.py:159-165 | if the leftmost record is fresh and the sweep stops at index `hi - 1`, checkout hands out the leftmost record and leaves `pool[1..hi]` |
| `SessionPool.ReturnedInOrder` | pymongo/client_session.py:169-172 | three fresh locked returns to an empty pool leave `[r3, r2, r1]`, the latest return on the left |
| `SessionPool.RecencyOrder` | pymongo/client_session.py:161-172 | after fresh returns of r1, r2, r3 to an empty pool, three checkouts hand out r3, r2, r1 (last in, first out) |
| `SessionPool.SweepBeforeCheckout` | pymongo/client_session.py:153-165 | a pool `[f1, f2, s1, s2]` with s1 and s2 timed out loses both to the sweep; checkout hands out f1 and leaves exactly `[f2]` |
| `ClientSessions.ClientSession.constructor` | pymongo/client_session.py:70-75 | a new handle holds the given client, record, options and auth set, and is active |
| `ClientSessions.ClientSession.SessionId` | pymongo/client_session.py:110-116 | raises InvalidOperation exactly when the handle has ended; otherwise returns the held record's id |
| `ClientSessions.ClientSession.EndSessionWith` | pymongo/client_session.py:87-90 | an active handle gives its record back and ends. With `lock` the record takes the locked return path, otherwise the lock-free one. An ended handle leaves the pool as it was. Either way the handle is ended afterwards |
| `ClientSessions.ClientSession.EndSession` | pymongo/client_session.py:77-85 | ends the handle through the locked return path; a second call changes nothing |
| `ClientSessions.ClientSession.Exit` | pymongo/client_session.py:95-96 | leaving the `with` block has exactly the effect of `EndSession` |
| `ClientSessions.ClientSession.UseLsid` | pymongo/client_session.py:123-128 | an ended handle raises InvalidOperation; an active one sets its record's `lastUse` to `now` and returns that record's id |
| `ClientSessions.EndTwice` | pymongo/client_session.py:77-128 | ending a handle twice puts its fresh record in the pool exactly once. Afterwards `HasEnded` holds, the id accessor and `UseLsid` raise InvalidOperation, and `client` and `options` are the values the handle was created with |
| `ClientSessions.UseWhileActive` | pymongo/client_session.py:116-128 | using an active handle refreshes its record's last use to `now` and yields the record's id, which stays the handle's id |
| `ServerSelectors.AnyServerSelector` | pymongo/server_selectors.py:20-21 | returns its input unchanged, which is the filter that keeps every server |
| `ServerSelectors.WritableServerSelector` | pymongo/server_selectors.py:24-25 | a server is in the result exactly when it is in the input and writable. Each writable server occurs as often as in the input. The result keeps the input's order and is no longer than the input |
| `ServerSelectors.SecondaryServerSelector` | pymongo/server_selectors.py:28-30 | a server is in the result exactly when it is in the input and is a replica-set secondary. Each such server occurs as often as in the input. The result keeps the input's order and is no longer than the input |
| `ServerSelectors.WritableSelectorIsIdempotent` | pymongo/server_selectors.py:24-25 | selecting writable servers twice is selecting them once |
| `ServerSelectors.SecondarySelectorIsIdempotent` | pymongo/server_selectors.py:28-30 | selecting secondaries twice is selecting them once |
| `ServerSelectors.Filter` | pymongo/server_selectors.py:25 | a list comprehension filter never returns more elements than it was given |
| `ServerSelectors.FilterMembership` | pymongo/server_selectors.py:25 | an element is in the filtered list exactly when it is in the input and passes the test |
| `ServerSelectors.FilterCount` | pymongo/server_selectors.py:25 | each element that passes occurs in the result as often as in the input; an element that fails does not occur |
| `ServerSelectors.FilterIsSubsequence` | pymongo/server_selectors.py:25 | the filtered list is a subsequence of the input, so the input order is preserved |
| `ServerSelectors.FilterIsIdempotent` | pymongo/server_selectors.py:25 | filtering twice by the same test is filtering once |
| `ServerSelectors.FilterKeepsAll` | pymongo/server_selectors.py:25 | a list whose elements all pass comes back unchanged |

## Left out

- Wall-clock time: `monotonic.time()` returns a float. Here time is an integer number of seconds, passed as `now` to the staleness test, to `UseLsid` and to the pool and end operations.
- One clock reading per pool operation: `timed_out` reads the clock afresh on every call (pymongo/client_session.py:138), and the sweep, the left-end pops and the returned record's own test (lines 164, 171 and 180) each call it. Each pool operation here judges staleness at one instant `now`, as the snapshot `StaleAt`. The source's case where a record passes the sweep and is then found stale by the pops, because the clock moved on in between, is not modelled: there the source can drain the pool and mint a record where `PlanCheckout` reuses one, and likewise a returned record can be judged at a later instant than the sweep.
- Id generation: `uuid.uuid4()` and the BSON `Binary(..., 4)` wrapping are randomness and serialisation. A logical session id is an opaque `Lsid(id: nat)`, and checkout takes the id of a minted record as the parameter `freshId`. Any `freshId` is accepted, even one equal to the id of a pooled or held record, so the model does not capture that random ids are in practice never repeated; no contract here depends on ids being unique.
- Where the client routes a returned record: `MongoClient._return_server_session` is not part of this model. The handle holds the pool it returns records to, and passes the `lock` flag through. With the flag it uses `ReturnServerSession`, otherwise `ReturnServerSessionNoLock`. The session timeout is a parameter of the end operations.
- The client and the auth set are uninterpreted: they are the type parameters `Client` and `AuthSet` of `ClientSession`, which the handle only carries.
- The `client` and `options` properties are modelled as `const` fields, so no operation of the handle can change them. `has_ended` is the predicate `ClientSession.HasEnded`, and `timed_out` is the predicate `ServerSession.TimedOut` over `IsStale`. These have no contracts of their own; the rows above state their properties.
- `__enter__` only returns the handle itself, so it has no counterpart of its own.
- `__exit__` ignores the exception arguments, and `Exit` does not model how a `with` block unwinds on an exception.
- Threading and the "hold the Topology lock" rule are not modelled. Every operation runs to completion on its own. The lock-free return path is modelled only by its sequential effect, a push on the left.
- Causal-consistency token propagation happens outside these files. Only the flag on `SessionOptions` is modelled.
- `SERVER_TYPE`, imported from `pymongo.ismaster`, and the server description class are not part of this model. A server description is abstracted to an address, a `serverType` from the list of server kinds, and an independent `isWritable` flag.
- One object in two places: the pool does not deduplicate records. The distinctness results for checkout and return are stated conditionally, for a pool that held no record twice.
