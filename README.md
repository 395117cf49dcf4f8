# rayagent reconciler and accounting, modelled in Dafny

rayagent is a node agent for a V2Ray proxy engine. It polls a control plane
(RayDash) for the sessions ("services") that should be live on its node. It
reconciles the engine's inbounds and users against that list through gRPC.
It also reads per-user traffic counters from the engine and charges them to
each principal's quota in a shared user pool.

This project models the sequential decision logic of that loop:

- `Models`: the control-plane records (`Service`, `User`, `Node`, `Stats`), the Go
  integer widths they use (uint64 wrap-around, the `uint32` port truncation), and
  the validation tags.
- `V2Ray`: the few engine records the agent fills in. It also has the RPC calls it
  issues (as a trace), the stats-service request/reply, and `net.PortFromInt`, which
  is taken as a function parameter.
- `Convert` (utils/convert.go): the service → engine-user projection and the
  per-service VMess inbound. This includes the `string(s.ID)` rune tag.
- `StatsClient` (modules/statsClient.go): counter names, the "not found" → 0 rule,
  and the uplink + downlink sum with short-circuit on error.
- `ServiceDiff`: `sub`, `findServiceIndex`, and the sequential
  `append(s[:j], s[j+1:]...)` splice. It has the multiset facts that say when every
  splice finds its element.
- `ServiceWorker` (worker/service.go): the poller's all-or-nothing batch check, the
  protocol whitelist, `genVmessInbound` and `initializeSingleInbound`, and the quota
  filter. It also has the class `ServiceHandler`, which holds the last-applied
  mirror `services`, with one iteration of each apply mode as a method.
- `ServiceProperties`: what the cycles achieve.
  - Multi-inbound convergence.
  - The single-inbound quota rule and its panic condition.
  - The oscillation at a quota reached exactly.
  - The engine-side effect of the mismatched removal tag and of editing a service.
- `UserPoolWorker` (worker/worker.go): the class `UserPool`, which holds a map keyed
  by e-mail, and `initUserPool`'s three-attempt fetch and validated fill.
- `StatsWorker` (worker/stats.go): `getStats` over the pool in an order the runtime
  picks, and `syncStats` folding samples into the pool in place. It ends with a
  lemma chaining the two.

Go panics are modelled as outcome values:

- a nil `*User` dereference;
- a slice expression with index -1;
- `Log.Panic`;
- a missing pool entry in `syncStats`.

The model says nothing about state after a panic, because the process dies.
Calls into the engine are recorded as a trace. Their errors are ignored wherever
the code ignores them.

Some behaviour of the code is easy to misread; the model follows the code
exactly:

- the diff compares whole `Service` structs, not IDs;
- additions are applied before removals;
- a failed `AddUser`/`DelUser`/`AddInbound`/`RemoveInbound` still updates the
  mirror;
- a service is admitted while `MaxTraffic >= CurrentTraffic` but evicted once
  `MaxTraffic <= CurrentTraffic`, so the two tests overlap at equality.

## Model

| member | source | states |
|---|---|---|
| Models.Add64 | worker/stats.go:124 | uint64 `+`: the exact sum when it fits, the sum minus 2^64 when it wraps |
| Models.ToUint32 | utils/convert.go:17 | `uint32(port)` keeps the low 32 bits: below 2^32, congruent to the input modulo 2^32, the identity on values that fit |
| Convert.RuneString | utils/convert.go:19 | `string(n)` is one character: code point n when n is a scalar value, U+FFFD otherwise |
| Convert.RuneStringCollisions | utils/convert.go:19 | distinct valid IDs give distinct inbound tags; all invalid IDs collide on U+FFFD |
| Convert.ConvertService | utils/convert.go:62-71 | level 0, the service's e-mail, account with the service's UUID and alter-id 64 |
| Convert.ConvertServiceSeesOnlyEmailAndUuid | utils/convert.go:62-71 | two services map to the same engine user iff they agree on e-mail and UUID |
| Convert.ConvertVmessInbound | utils/convert.go:16-60 | exactly one user, ConvertService(s); tag string(ID); port from uint32(port) with its error ignored; 0.0.0.0; websocket settings whatever the protocol; sniffing http and tls; alter-id 64; empty detour |
| StatsClient.CounterNamesDistinct | modules/statsClient.go:36-42 | counter names determine the e-mail, and an uplink name is never a downlink name |
| StatsClient.ToUint64 | modules/statsClient.go:59 | `uint64(v)` keeps non-negative values and adds 2^64 to negative ones |
| StatsClient.ToUint64RoundTrip | modules/statsClient.go:59 | the conversion loses nothing: int64(uint64(v)) == v |
| StatsClient.GetUserStats | modules/statsClient.go:44-60 | a counter value comes back unchanged (as uint64); an error is only ever an engine failure, and carries the engine's message |
| StatsClient.GetUserStatsMeaning | modules/statsClient.go:44-60 | a status error ending in `name + " not found."` reads 0; an error is returned iff the reply is a failure other than that |
| StatsClient.GetUserTraffic | modules/statsClient.go:23-42 | uplink asked first and downlink only if it succeeded, both with reset; Ok iff both succeed; value is their uint64 sum; the error returned is the uplink's if it failed, otherwise the downlink's |
| StatsClient.UnknownUserReadsZero | modules/statsClient.go:23-57 | a user without counters reads as zero traffic |
| ServiceDiff.DifferenceCount | worker/service.go:412-432 | each element keeps all its copies in A unless it occurs in B, then none |
| ServiceDiff.DifferenceMembership | worker/service.go:412-432 | x in sub(A, B) iff x in A and x not in B |
| ServiceDiff.DifferenceAppend | worker/service.go:424-429 | sub works element by element in A's order: sub(A ++ C, B) == sub(A, B) ++ sub(C, B) |
| ServiceDiff.DifferenceIdentities | worker/service.go:412-432 | sub(A, []) == A, sub(A, A) == [], sub([], A) == [] |
| ServiceDiff.DifferenceKeepsAll | worker/service.go:424-429 | when no element of A occurs in B, sub(A, B) == A |
| ServiceDiff.DifferenceEmpty | worker/service.go:424-429 | when every element of A occurs in B, sub(A, B) == [] |
| ServiceDiff.Sub | worker/service.go:412-432 | the hash-set loops compute the reference difference |
| ServiceDiff.IndexOf | worker/service.go:400-407 | -1 iff absent; otherwise an index holding the element with no earlier occurrence |
| ServiceDiff.FindServiceIndex | worker/service.go:400-407 | the scanning loop returns IndexOf |
| ServiceDiff.SpliceMultiset | worker/service.go:227 | `append(s[:j], s[j+1:]...)` removes one copy of s[j] and nothing else |
| ServiceDiff.RemoveEachMultiset | worker/service.go:279-286 | the splice loop never hits index -1 iff the delete list asks for no more copies than the mirror holds; then it removes exactly those copies |
| ServiceDiff.RemoveEachSucceeds | worker/service.go:224-228 | removals drawn from the mirror always find their element |
| ServiceDiff.SpliceStep | worker/service.go:279-286 | one more splice finds its element iff the mirror still holds a copy beyond those already removed, and then removes one copy |
| ServiceWorker.GetServices | worker/service.go:107-140 | sends iff transport ok, status 200 and every service has a non-zero ID; sends the decoded list unchanged; a decode error does not stop it |
| ServiceWorker.ProtocolConfig | worker/service.go:374-384 | websocket gets websocket settings with an empty path; every other protocol gets none |
| ServiceWorker.IsProtocolValid | worker/service.go:387-398 | true exactly for tcp, websocket, http, mkcp, domainsocket, quic |
| ServiceWorker.GenVmessInbound | worker/service.go:315-372 | error iff the port conversion fails or the protocol is not whitelisted, port checked first; otherwise tag, no users, converted port, 0.0.0.0, no detour, settings per protocolConfig, websocket settings exactly for the websocket protocol |
| ServiceWorker.InitializeSingleInbound | worker/service.go:292-312 | RemoveInbound(tag) first; AddInbound issued iff the removal was accepted and the inbound generated; success iff also the add is accepted |
| ServiceWorker.Hex | worker/service.go:226 | `%x` is lower-case hexadecimal digits with no leading zero: one digit exactly below 16 |
| ServiceWorker.HexRoundTrip | worker/service.go:226 | `%x` of the ID loses nothing: reading it back gives the ID |
| ServiceWorker.RemovalTagNeverMatchesOwnInbound | worker/service.go:226 | the `%x` removal tag never equals the inbound's own `string(ID)` tag, for any ID |
| ServiceWorker.RemovalTagCanHitAnotherInbound | worker/service.go:226 | removing service 1 names the inbound of service 49 |
| ServiceWorker.AdmittedCount | worker/service.go:249-253 | the add filter keeps all copies of services whose principal has MaxTraffic >= CurrentTraffic, none of others |
| ServiceWorker.EvictedCount | worker/service.go:256-260 | the evict list holds all copies of applied services whose principal has MaxTraffic <= CurrentTraffic, nothing else |
| ServiceDiff.DifferenceSubMultiset | worker/service.go:217 | the removals are drawn from the mirror |
| ServiceWorker.FilterAdmitted | worker/service.go:246-254 | the filter loop: nil dereference iff some service's principal is missing; otherwise the admitted services in order |
| ServiceWorker.CollectEvictions | worker/service.go:255-260 | the eviction loop: nil dereference iff some applied service's principal is missing; otherwise removals followed by evictions |
| ServiceWorker.ServiceHandler.constructor | worker/service.go:174-187 | the mirror starts empty |
| ServiceWorker.ServiceHandler.AppendAll | worker/service.go:272-278 | every addition is appended to the mirror whatever the engine answered |
| ServiceWorker.ServiceHandler.SpliceAll | worker/service.go:279-286 | every deletion is spliced out whatever the engine answered; panics iff the sequential removal fails |
| ServiceWorker.ServiceHandler.SyncMultiInboundCycle | worker/service.go:213-228 | new mirror is the reference plan; trace is AddInbound per new service, then RemoveInbound(`%x` ID) per vanished one |
| ServiceWorker.ServiceHandler.SyncSingleInboundCycle | worker/service.go:240-288 | nil panic iff an unknown principal is met; slice panic iff the reference plan fails; otherwise the planned mirror and AddUser calls then DelUser calls |
| ServiceDiff.RemoveEachFailureSticks | worker/service.go:279-286 | once a splice fails, the whole loop fails |
| ServiceProperties.MultiCycleCounts | worker/service.go:213-228 | after a cycle a vanished service is gone, a kept one keeps its copies, a new one has the snapshot's copies |
| ServiceProperties.MultiCycleConverges | worker/service.go:213-228 | after a cycle the mirror holds exactly the snapshot's services |
| ServiceProperties.MultiCycleKeepsNoDuplicates | worker/service.go:213-228 | duplicate-free mirror and snapshot: the mirror equals the snapshot as a multiset and stays duplicate-free |
| ServiceProperties.MultiCycleSteadyState | worker/service.go:213-228 | a second cycle on the same snapshot plans nothing and changes nothing |
| ServiceProperties.MultiColdStart | worker/service.go:215-217 | from the empty mirror everything is added, nothing removed |
| ServiceProperties.EmptySnapshotClearsMirror | worker/service.go:127-140 | in multi-inbound mode an empty batch (such as a body that failed to decode) leads the next cycle to remove every applied service |
| ServiceProperties.RemovedServiceKeepsItsInbound | worker/service.go:224-228 | a lone applied service withdrawn by an empty batch leaves the mirror, but its own inbound stays in the engine |
| ServiceProperties.SingleAddsCount | worker/service.go:242-254 | additions are the new services whose principal is admitted, with all their copies |
| ServiceProperties.SingleDelsCount | worker/service.go:244-260 | a vanished service is deleted once, an exhausted one once more |
| ServiceProperties.SingleCyclePanicsOnDoubleDelete | worker/service.go:256-285 | an applied service that left the snapshot while its principal is exhausted is deleted twice, so the second splice panics |
| ServiceProperties.SingleCycleSplicesSucceed | worker/service.go:256-285 | when no withdrawn service belongs to an exhausted principal, every splice finds its element |
| ServiceProperties.SingleCyclePanicsExactly | worker/service.go:256-285 | the slice panic happens iff an applied service left the snapshot while its principal is exhausted |
| ServiceProperties.SingleCycleCounts | worker/service.go:240-288 | after an applied cycle: an old service survives iff still wanted and not exhausted; a new one arrives iff admitted |
| ServiceProperties.SingleCycleEnforcesQuota | worker/service.go:246-260 | every applied service is wanted and admitted; a surviving one is strictly under quota; every wanted service strictly under quota is applied |
| ServiceProperties.SingleColdStart | worker/service.go:242-254 | from the empty mirror the admitted services are applied and nothing is deleted |
| ServiceProperties.LoneServiceArrives | worker/service.go:249-253 | a lone new service is applied iff its principal is admitted |
| ServiceProperties.LoneServiceStays | worker/service.go:256-260 | a lone applied service is evicted iff its principal is exhausted |
| ServiceProperties.QuotaExhaustionEvicts | worker/service.go:246-260 | quota 100: applied at 0 used, evicted at 150 used |
| ServiceProperties.QuotaEqualityOscillates | worker/service.go:250-257 | at MaxTraffic == CurrentTraffic the service is added from the empty mirror and evicted from [s]: it flips every cycle |
| ServiceProperties.WithdrawnExhaustedServicePanics | worker/service.go:240-285 | in single-inbound mode an empty batch panics whenever any applied service's principal is exhausted: that service is withdrawn and evicted, so it is deleted twice |
| ServiceProperties.FieldEditDropsEngineUser | worker/service.go:272-286 | editing a field of a service issues AddUser then DelUser for the same e-mail, so the principal loses its engine user |
| UserPoolWorker.FillPoolKeys | worker/worker.go:82-91 | the keys after the fill are the old keys plus the e-mails of the records that validate |
| UserPoolWorker.FillPoolLastWins | worker/worker.go:90 | the last valid record for an e-mail is the one stored |
| UserPoolWorker.FillPoolWellFormed | worker/worker.go:82-91 | the fill keeps every entry under its own e-mail and valid |
| UserPoolWorker.UserPool.constructor | worker/worker.go:29-32 | the pool starts empty |
| UserPoolWorker.UserPool.Fill | worker/worker.go:82-91 | the fill loop computes the reference fold |
| UserPoolWorker.UserPool.InitUserPool | worker/worker.go:34-93 | Fatal iff none of three attempts returned 200; otherwise the first success is used; Panic iff its body does not decode; else the pool is filled; nothing changes on the error paths |
| UserPoolWorker.FetchUsers | worker/worker.go:37-61 | 1 to 3 attempts; every attempt before the last failed; the last succeeded or was the third; its response is returned |
| StatsWorker.ChargeTouchesOneCounter | worker/stats.go:122-128 | a zero sample changes nothing; otherwise only the named principal's CurrentTraffic moves (uint64 add), the key set stays, the charged record is reported |
| StatsWorker.AccumulateFailsExactly | worker/stats.go:120-131 | the sender panics iff a non-zero sample names an e-mail absent from the pool; else the key set is unchanged |
| StatsWorker.AccumulateCharges | worker/stats.go:120-131 | each principal's counter becomes initial + its samples' total mod 2^64, other fields untouched |
| StatsWorker.AccumulatePatches | worker/stats.go:122-128 | a run that does not panic sends exactly one PATCH per non-zero sample, in order; each carries the pool record stored under that sample's e-mail with only its counter changed, which in a well-keyed pool is that principal's record |
| StatsWorker.CounterNeverDecreasesWithoutWrap | worker/stats.go:124 | while the running total stays below 2^64, CurrentTraffic only grows, by exactly the samples' total |
| StatsWorker.SyncStats | worker/stats.go:119-133 | the in-place loop computes the reference fold and panics exactly when it fails |
| StatsWorker.CollectMissesNone | worker/stats.go:55-66 | a round has no more samples than visits, and every principal whose query succeeds (zero included) has its sample in it |
| StatsWorker.CollectOnePerPrincipal | worker/stats.go:55-66 | in a well-keyed pool, visiting each key once, no two samples of a round share an e-mail |
| StatsWorker.CollectInventsNone | worker/stats.go:55-66 | every sample in the round is the successful query result of some visited principal; a failed query contributes nothing |
| StatsWorker.GetStats | worker/stats.go:53-70 | visits every key exactly once in some order and emits the reference samples for that order; the round holds the sample of every principal whose query succeeds and no other |
| StatsWorker.CollectCoversPool | worker/stats.go:55-66 | a round over all the pool's keys holds exactly the samples of the principals whose query succeeds |
| StatsWorker.CollectSumFor | worker/stats.go:55-66 | in a well-keyed pool a round reports for each principal exactly its own traffic |
| StatsWorker.RoundNeverPanics | worker/stats.go:53-131 | over a well-keyed pool every sample of a round names a pooled e-mail, so the sender never panics on it |
| StatsWorker.RoundChargesEachPrincipal | worker/stats.go:53-131 | a collection round fed to the sender over a well-keyed pool never panics and adds each principal's uplink + downlink to its CurrentTraffic |

## Left out

- Goroutines, tickers, channels, the WaitGroup, the RWMutex and the Start/Stop
  lifecycle: one cycle is modelled, with the channel replaced by an input
  snapshot or sample sequence. The dispatch in `syncServices` on
  `HasMultiPort` and the loops over the channel are not modelled as such.
- HTTP: the requests themselves, `GetNodeInfo` and `createHTTPClient`; responses
  are inputs. `patchUser` is recorded only as the record it would send. Its own
  failure is not modelled: on a transport error it dereferences a nil `resp`
  and panics (worker/stats.go:140-141).
- `ConnectGRPC` (wall-clock retries), configuration loading and logging.
- The e-mail format check of the validator library is the parameter `isEmail`.
- `net.PortFromInt` is the parameter `portFromInt`.
- The protobuf `Protocol` enum lookup in the stream settings (utils/convert.go:29, 32)
  is not modelled; only the protocol name is.
- The engine is not modelled. The accepts-function of `InitializeSingleInbound` is
  only the engine's yes/no answer. The `EngineView` replay in `ServiceProperties`
  is a model assumption: every call takes effect whatever it returned, so an added
  tag or user is present afterwards and a removed one is absent (a real engine may
  refuse an `AddInbound`, for example on a port already bound).
- models/stats.go is not part of this model. `Stats` holds the two fields the
  workers use (`Email`, `Traffic`).
- State after a Go panic or `Log.Fatal`: the process ends, and the outcome value
  is all the model says.
- `UserPoolWorker.UserPool.Fill` stores values. The source stores `&u`, the
  address of the loop variable. Under Go versions before 1.22 every entry then
  aliases one variable, which ends up holding the last record of the batch.
  The model does not capture that aliasing.
