# ProxyMesh verification

A Dafny model of the stateful core of ProxyMesh, a gateway that forwards requests through a fleet of
residential and datacenter nodes. One module per component:

- **Admission control.** `SlidingWindow` (log limiter over a sorted set), `FixedWindow` and `WindowDecisions` (in-memory
  limiter and its cleanup), `TieredLimiter` and `TierReload` (a shared limit swapped around each call), `ClientLimiter`
  and `ClientDecisions` (map and counter variants of one limiter), `TokenBucket` and `TokenCharges` (bandwidth shaper).
- **Node selection and health.** `Breaker` (the gateway's failure counter in series with the matchmaker's breaker),
  `Recovery` (whether an open breaker can close), `NodeSelection` and `SelectionOutcome` (candidates, filter, choice by
  weight), `NodeLoad` and `SessionPins` (load, sessions and requests in flight over whole runs).
- **Shared-resource protocols.** `ConnPool` (bounded channel plus counter), `Hub`, `HubBackpressure` and `HubUnregister`
  (broadcast hub with any number of Run loops), as interleavings of their atomic sections.
- **Allocation, migration, arithmetic.** `Subnet`, `SubnetPools` and `SubnetGrants` (index bytes, allocation runs),
  `Migrations`, `MigrationFailures` and `RollbackOrder` (run and rollback), `ExchangeSort`, `Latency`, `Benchmark`,
  `Capacity`, `Payout`.

The objects the program updates in place are classes here, their loops are loops, and every method is tied to a
specification function or states its result outright. The theorems about runs are lemmas over those functions:
sequences of timed requests for the limiters, sequences of atomic actions for everything that overlaps. What the
main operations decide is also stated by the run alone: by earlier decisions, events or requests, not by the state that
the operation keeps. Time is an integer number of nanoseconds that never goes back. Redis is a map, a set or a
sorted set whose keys can expire.

## What the proofs found

Several expected properties do not hold of the code. For each the exact condition under which it holds is proved; the
input that breaks it otherwise is part of that proof.

- The documentation says each datacenter node gets a /64 (README.md:16, README.md:588 of the repository). The index is
  written behind the 64-bit network part, so every subnet of a pool names the same /64
  (`Subnet.OneNetworkForAll`). The addresses differ exactly when the prefix has zeros in the bits an index can set
  (`Subnet.DistinctExactlyWhenClear`), and stay different exactly while every deallocation frees the highest index held
  (`SubnetPools.SafeExactlyWhenHighestFreed`).
- The local limiter is called a sliding window (README.md:567). It is a fixed window: up to 2L - 1 requests pass in one
  closed interval of its length, and that is reached; L is a bound only for L = 1
  (`FixedWindow.WithinLimitExactlyWhenOne`).
- The distributed limiter logs refused requests too, so a client that keeps retrying is let through `limit` times and
  then never again, whatever other clients do (`SlidingWindow.PersistentClientStarves`). Requests in one nanosecond
  share one member, so the limit per interval holds on every ordered run only for limits up to one
  (`SlidingWindow.WithinLimitExactlyWhen`); with increasing stamps it always holds.
- Overlapping tiered calls always restore the configured limit, and are always decided under their own tier, if and only
  if all tiers have the configured limit (`TieredLimiter.AlwaysRestoresExactlyWhen`,
  `TieredLimiter.AlwaysOwnTierExactlyWhen`). A reload of the limit survives the calls in flight if and only if none of
  them has read another limit, and none can install another one before some other call reads
  (`TierReload.ReloadSurvivesExactlyWhenSafe`).
- The per-client limiter, the bandwidth shaper, the latency tracker and the benchmark are constructed nowhere outside
  the repository's tests; what follows about the first two is about their code, not about a deployed gateway.
- The two variants of the per-client limiter disagree about limits below one and about a limit raised inside a window,
  and agree otherwise (`ClientLimiter.AgreeExactlyWhenLimitPositive`, `ClientLimiter.ChangeAgreesExactlyWhenNoRise`).
  Through the middleware a limit can change only with Redis: without it GetClientLimit always gives the default
  (gateway/client_ratelimit.go:154-157), so there the map variant never sees a rise.
- A refused bandwidth request is credited for the same time again. The bound burst + rate * elapsed survives that
  exactly for rate 0, bursts up to one, and rates that earn the whole burst within one nanosecond
  (`TokenBucket.BoundedExactlyWhen`). The middleware, the only caller, passes 0 bytes (gateway/ddos_shaper.go:63), and
  such calls are never refused (`TokenBucket.NoBytesNeverRefused`). Cleanup forgets a bucket that was not charged for
  ten minutes, refused or not; a tick goes unnoticed exactly when it forgets nobody
  (`TokenBucket.TickUnnoticedExactlyWhen`).
- The same threshold k is configured for both failure counters (main.go:43, gateway/service.go:546-549), so a breaker
  opens at 2k - 1 failed forwards and not at k (`Breaker.ThresholdsAddUp`), until a reload changes the gateway's
  threshold alone (gateway/service.go:99, gateway/service.go:653); from then on `Breaker.OpenExactlyWhen` says when. A
  reset forgets only half (`Breaker.ResetForgetsHalf`).
- The documentation promises automatic recovery (README.md:583). A node whose breaker is open is never selected, so
  short of a reset it recovers if and only if a request that can be answered is already on its way to it, or a session
  still names it, it has metadata or can register again, and a request from the session can be answered
  (`Recovery.CanRecoverExactlyWhenReached`). With the addresses the code supplies it never does
  (`Recovery.OnlyResetCloses`): registration stores no address (matchmaker/redis_client.go:85-92) and neither
  SelectNode nor GetNode fills one in, so every forward dials the empty address (gateway/service.go:491), which fails.
- A request served from a session decrements a load it never incremented, without bound (`NodeLoad.PinnedRunSinks`), and
  so does the end of a request whose node was deregistered meanwhile. At -1 the selection weight divides by zero and the
  node draws every selection it is eligible for (`NodeLoad.OverdrawnNodeCaptures`); the divisor is positive exactly
  while the finished session requests and the deleted load do not exceed what is in flight and leaked
  (`NodeLoad.DivisorPositiveExactlyWhen`).
- Payouts fall when traffic crosses the last tier's maximum, in the default table from 7999.20 to 3000.00
  (`Payout.DefaultPaysLessAtTop`); exactly when they do not is `Payout.MonotoneExactlyWhenSplitsCovered`.
- An Unregister takes effect for certain if and only if the client's registration was applied before the call, or is
  in the hands of the only Run loop there is (`HubUnregister.UnregisterHoldsExactlyWhenSettled`).
- Rollback follows IDs and not the order of application. It takes a Run back, for all migrations whose Downs undo their
  Ups, if and only if every recorded ID above the target is smaller than every pending one
  (`RollbackOrder.AlwaysUndoesExactlyInOrder`).
- Node reputation is looked up under an empty country (matchmaker/service.go:206), a key no registration writes, so in
  the program every node weighs in with the default of 100. The model keeps the lookup's result as an input.

## Model

| member | source | states |
|---|---|---|
| SlidingWindow.DistributedRateLimiter.Allow | gateway/redis_ratelimit.go:41-67 | prune, count, add and expire leave the store and give the decision of one specified step |
| SlidingWindow.RunIsFaithful | gateway/redis_ratelimit.go:41-67 | in every ordered run a client's stored log holds only what happened and everything newer than the last pruning |
| SlidingWindow.RefinesFullLog | gateway/redis_ratelimit.go:41-67 | on every ordered run, over any clients, the pruned and expiring log decides exactly as a log that forgets nothing |
| SlidingWindow.AtMostLimitInstants | gateway/redis_ratelimit.go:48-66 | in any interval of the window's length a client is admitted at no more than `limit` distinct instants |
| SlidingWindow.AtMostLimitRequests | gateway/redis_ratelimit.go:48-66 | with strictly increasing stamps, no more than `limit` requests are admitted in any interval of the window's length |
| SlidingWindow.SameInstantUnbounded | gateway/redis_ratelimit.go:52-55 | requests with equal stamps are all admitted, any number of them, once the limit is two or more |
| SlidingWindow.AtMostOne | gateway/redis_ratelimit.go:48-66 | a limit of at most one holds for requests, not just instants, on every ordered run |
| SlidingWindow.WithinLimitExactlyWhen | gateway/redis_ratelimit.go:48-66 | no more than `limit` requests pass in any interval of the window's length, on all ordered runs, if and only if the limit is at most one |
| SlidingWindow.AdmittedExactlyWhen | gateway/redis_ratelimit.go:48-66 | in any run, with any other clients, a client's request is admitted if and only if it is among that client's first `limit` or the one it made `limit` earlier is a window old |
| SlidingWindow.PersistentClientStarves | gateway/redis_ratelimit.go:48-66 | in any run a client that retries faster than the limit passes for its first `limit` requests and never again |
| FixedWindow.LocalRateLimiter.Allow | gateway/ratelimit.go:59-81 | a missing or expired entry is replaced and admitted; otherwise admitted and counted exactly while under the limit; other clients untouched |
| FixedWindow.LocalRateLimiter.Cleanup | gateway/ratelimit.go:43-57 | one pass leaves exactly the entries whose window is not over |
| FixedWindow.CleanupIsInvisible | gateway/ratelimit.go:43-81 | inserting cleanup passes anywhere in any ordered run changes no decision |
| FixedWindow.AtMostLimitPerWindow | gateway/ratelimit.go:66-80 | from whatever state, a window that a call opens admits its client at most limit times |
| FixedWindow.WithinBudget | gateway/ratelimit.go:59-81 | in every run the admissions inside an interval stay within the budget that the client's current entry and later windows leave |
| FixedWindow.AtMostTwicePerInterval | gateway/ratelimit.go:59-81 | fewer than twice the limit pass in any closed interval of the window's length, also when the limit varies under a cap |
| FixedWindow.TwiceIsReached | gateway/ratelimit.go:66-80 | for every limit of two or more some run admits 2L - 1 in such an interval |
| FixedWindow.WithinLimitExactlyWhenOne | gateway/ratelimit.go:59-81 | a fixed limit bounds every closed interval of the window's length, over all runs, if and only if it is one |
| WindowDecisions.PassesExactlyWhen | gateway/ratelimit.go:59-81 | on every ordered run, with limits that vary and cleanup anywhere, a call passes if and only if its client has no open window or fewer of its calls passed since that window was opened than the call's limit |
| WindowDecisions.RefusedLeavesNoTrace | gateway/ratelimit.go:74-77 | from any table, taking a refused call out of a run changes no other decision |
| WindowDecisions.AdmittedAllPass | gateway/ratelimit.go:66-80 | without any of the refused calls every other one still passes |
| WindowDecisions.TickKeepsOpenWindows | gateway/ratelimit.go:47-56 | a tick keeps exactly the clients whose window, as their earlier passes tell, is still open then |
| TieredLimiter.TieredRateLimiter.Allow | gateway/rate_limit_tiers.go:86-98 | over either limiter the program wires in, a call on its own is decided under its tier's limit and leaves the shared limit as it was |
| TieredLimiter.ShippedLimitExactlyWhen | gateway/rate_limit_tiers.go:26-58 | with the shipped tiers, which keys get 10000, 1000, 100 and 10: 100 if no tier is stored or it is "basic", 10 if the stored one is none of the other three |
| TieredLimiter.KeyLimit | gateway/rate_limit_tiers.go:41-58 | with any tiers, the limit of a key whose tier is stored, stored but unknown, or not stored |
| TieredLimiter.LimitIsAlwaysKnown | gateway/rate_limit_tiers.go:86-98 | in every interleaving the shared limit is the configured one or some tier's |
| TieredLimiter.OverlapStaysUnderLargest | gateway/rate_limit_tiers.go:86-98 | in every interleaving a client is admitted fewer than twice the largest of those limits in any interval of the window's length, and the decisions given are the ones counted |
| TieredLimiter.OverlapWindowUnderLargest | gateway/rate_limit_tiers.go:86-98 | in every interleaving no window admits its client more often than the largest of those limits |
| TieredLimiter.OneByOneIsOwnTier | gateway/rate_limit_tiers.go:86-98 | in every run without overlap each call is decided under its own tier's limit and the configured limit is back at the end |
| TieredLimiter.OwnTierUnlessCrossed | gateway/rate_limit_tiers.go:90-93 | in every interleaving a call whose own install is the last write before its ask is decided under its own tier |
| TieredLimiter.CrossedIsOtherTier | gateway/rate_limit_tiers.go:90-93 | for any two keys some schedule decides the call made with the one under the other's tier |
| TieredLimiter.AlwaysOwnTierExactlyWhen | gateway/rate_limit_tiers.go:86-98 | all interleavings decide every call under its own tier if and only if every tier's limit is the configured one |
| TieredLimiter.OverlapLeavesTierLimit | gateway/rate_limit_tiers.go:90-95 | for any keys two overlapping calls can end with the first one's tier limit installed and nothing in flight |
| TieredLimiter.AlwaysRestoresExactlyWhen | gateway/rate_limit_tiers.go:86-98 | all interleavings that end with nothing in flight restore the configured limit if and only if every tier's limit is the configured one |
| TierReload.ReloadSurvivesExactlyWhenSafe | gateway/service.go:94-97 | however the calls in flight end, a reloaded limit is what is left, if and only if none has read another limit and none can install another before some other reads |
| ClientLimiter.ClientRateLimiter.CheckRateLimit | gateway/client_ratelimit.go:78-95 | the counter variant takes its specified step and leaves the map alone; without Redis the map variant is taken |
| ClientLimiter.ClientRateLimiter.LocalCheck | gateway/client_ratelimit.go:97-120 | the map variant takes its specified step |
| ClientLimiter.CheckKeepsMatch | gateway/client_ratelimit.go:78-120 | one request keeps both variants at equal counts, or both counted out, with equal expiry, and is decided alike |
| ClientLimiter.VariantsAgree | gateway/client_ratelimit.go:78-138 | on every time-ordered run, with cleanup anywhere and limits that open a window at one or more and do not rise inside it, both variants decide alike |
| ClientLimiter.AgreeExactlyWhenLimitPositive | gateway/client_ratelimit.go:94-119 | with a fixed limit, over any clients, the variants agree from empty stores if and only if it is at least one |
| ClientLimiter.ChangeAgreesExactlyWhenNoRise | gateway/client_ratelimit.go:85-109 | a change of limit from a to b inside a window is decided alike, however many calls came before, if and only if b <= a |
| ClientDecisions.MapIsFixedWindow | gateway/client_ratelimit.go:97-138 | on every ordered run, with cleanup anywhere, the map variant decides as the in-memory limiter with a window one nanosecond shorter |
| ClientDecisions.MapPassesExactlyWhen | gateway/client_ratelimit.go:97-138 | a request passes the map variant if and only if its client has no open window or fewer of its requests passed since that was opened than the limit |
| ClientDecisions.CounterPassesExactlyWhen | gateway/client_ratelimit.go:84-94 | on every run a request passes the counter variant if and only if the requests its client made in the open window, refused ones and this one included, are no more than the limit |
| TokenBucket.TrafficShaper.CheckBandwidth | gateway/ddos_shaper.go:83-114 | first contact fills the bucket and passes uncharged; any other call takes one specified bucket step; other clients untouched |
| TokenBucket.TrafficShaper.Cleanup | gateway/ddos_shaper.go:125-139 | one pass forgets exactly the buckets not charged for more than ten minutes |
| TokenBucket.TokensStayInRange | gateway/ddos_shaper.go:101-113 | one client's tokens stay in [0, burst] in every run of calls |
| TokenBucket.TableStaysInRange | gateway/ddos_shaper.go:83-139 | every client's tokens stay in [0, burst] in every run of the whole table, with first contacts and cleanup ticks |
| TokenBucket.NoBytesNeverRefused | gateway/ddos_shaper.go:63 | requests of no bytes are never refused |
| TokenBucket.TickChangesNextExactlyWhen | gateway/ddos_shaper.go:90-138 | a tick changes the next decision if and only if it forgot the client and the refilled bucket would have refused |
| TokenBucket.TickUnnoticedExactlyWhen | gateway/ddos_shaper.go:125-139 | a tick changes no decision of any continuation if and only if it forgets nobody |
| TokenBucket.Account | gateway/ddos_shaper.go:101-113 | in every run, bytes passed plus tokens left are at most tokens before, plus what the charged time earned, plus what refused calls earned on top |
| TokenBucket.RefusalFreeBound | gateway/ddos_shaper.go:101-113 | without refusals the bytes passed are at most burst + rate * elapsed, truncated once for the whole stretch |
| TokenBucket.RefusalsCreditAgain | gateway/ddos_shaper.go:101-113 | after k refusals the tokens are the capped sum of all k overlapping credits and the last update has not moved |
| TokenBucket.RetryingMultipliesCredit | gateway/ddos_shaper.go:101-113 | n refused calls at one instant earn n times the credit, up to the burst |
| TokenBucket.BoundedExactlyWhen | gateway/ddos_shaper.go:101-113 | over all buckets and runs, refusals included, the bytes passed are at most burst + rate * elapsed if and only if rate = 0, burst <= 1 or the rate earns a whole burst per nanosecond |
| TokenCharges.FirstContactLeavesBurst | gateway/ddos_shaper.go:90-114 | first contact passes uncharged and leaves the whole burst: of the further requests at that instant one passes if and only if it fits in what those that passed before it left |
| TokenCharges.FitsInWhatIsLeft | gateway/ddos_shaper.go:101-113 | the same for any bucket charged at that instant, refused requests costing nothing |
| TokenCharges.ExactTokens | gateway/ddos_shaper.go:101-113 | without refusals and below the burst the tokens are what was there, plus what each gap earned, less the bytes of the calls |
| TokenCharges.FullAgain | gateway/ddos_shaper.go:101-113 | after time enough to earn the burst exactly the calls within the burst pass, at their size |
| TokenCharges.HasBucketExactlyWhen | gateway/ddos_shaper.go:83-139 | on every run a client has a bucket if and only if no tick since its first contact came more than ten minutes after one of its requests had last passed |
| Breaker.Matchmaker.RecordFailure | matchmaker/service.go:267-284 | counts, and opens at the entry's own threshold; other nodes untouched |
| Breaker.Gateway.RecordFailure | gateway/service.go:542-551 | counts, and forwards to the matchmaker from the gateway's threshold on |
| Breaker.Gateway.RecordSuccess | gateway/service.go:553-560 | zeroes both counters of the node and closes its breaker |
| Breaker.TraceTracks | matchmaker/service.go:267-294 | on every trace both counters and the threshold in force equal what the trace alone says |
| Breaker.Gateway.ApplyThreshold | gateway/service.go:99 | a reload changes the gateway's threshold and nothing else |
| Breaker.OpenExactlyWhen | matchmaker/service.go:267-294 | with health checks, resets and reloads in the trace, open if and only if the matchmaker failures since the last success or reset reach the threshold |
| Breaker.ThresholdsAddUp | gateway/service.go:542-560 | on every trace of forwards, open if and only if the failures since the last success number at least g + m - 1 |
| Breaker.ResetForgetsHalf | matchmaker/service.go:423-431 | after a reset of a node the gateway has already counted out, k further failures open the breaker if and only if k >= m |
| Recovery.OpenIsNotSelected | matchmaker/service.go:183-194 | no selection returns a node whose breaker is open |
| Recovery.UnreachedStaysOpen | gateway/service.go:387-428 | without a reset, the open breaker of a node that is not reached stays open in every run |
| Recovery.CanRecoverExactlyWhenReached | gateway/service.go:387-560 | some reset-free run closes an open breaker if and only if an answerable request is on its way to the node, or a session names it, it has metadata (or may register again) and a request from the session is answerable |
| Recovery.OnlyResetCloses | gateway/service.go:491-498 | with the empty addresses the code supplies, every run without a reset leaves an open breaker open |
| NodeSelection.SelectByLoad | matchmaker/service.go:196-253 | chooses the node that is the first comparable maximum above -1, and draws at random exactly when there is none or it has no name |
| NodeSelection.WeightDecidesExactlyWhen | matchmaker/service.go:223-237 | a choice by weight exists if and only if some node weighs more than -1 |
| NodeSelection.CompetesExactlyWhen | matchmaker/service.go:221-231 | for non-negative merit, which loads let a node be chosen by weight: all non-negative ones, -1 with positive merit, lower ones only while the merit is under the deficit |
| NodeSelection.FirstOfMaximalWeight | matchmaker/service.go:196-240 | with non-negative loads, reputations and health scores the choice is the first node of maximal weight and the draw is never used |
| NodeSelection.ChosenByStanding | matchmaker/service.go:205-240 | with non-negative figures the chosen k has rep_k * decay_k * health_k * (load_j + 1) >= rep_j * decay_j * health_j * (load_k + 1) for every j, strictly for each j before it; absent decay counts as 1, absent health as 100 |
| NodeSelection.LeastLoadedWins | matchmaker/service.go:215-231 | among nodes of equal positive merit the first of least load is chosen |
| NodeSelection.MinusOneCaptures | matchmaker/service.go:221-231 | the first node with load -1 and positive merit is chosen whatever the others weigh |
| NodeSelection.EligibleExactly | matchmaker/service.go:183-194 | the filter keeps exactly the candidates with a closed or absent breaker whose cooldown lookup succeeds and says no |
| NodeSelection.EligibleKeepsOrder | matchmaker/service.go:183-194 | the filter keeps the candidates' order |
| NodeSelection.NodeSelector.FilterEligibleNodes | matchmaker/service.go:183-194 | the loop computes that filter |
| NodeSelection.NodeSelector.SelectNode | matchmaker/service.go:133-181 | all outcomes and the store after each: both lookup errors, city list or else country list, each refusal, and the load incremented before the metadata is looked up |
| NodeSelection.ReturnedNodeIsEligible | matchmaker/service.go:133-194 | a returned node was a candidate, has a closed or absent breaker, is not in cooldown for the target, its load is one higher, and it comes without an address |
| NodeSelection.SelectionSucceeds | matchmaker/service.go:133-240 | if the lookups succeed and any candidate passes the filter with sound figures, one of maximal weight is charged, and only missing metadata can refuse it |
| NodeSelection.SelectsByStoredStanding | matchmaker/service.go:133-240 | the same for SelectNode over the stored load, reputation, last sighting and health score of the eligible nodes, with the store and the answer that follow |
| SelectionOutcome.RefusedExactlyWhen | matchmaker/service.go:133-159 | which refusal a request gets before any choice, exactly: a failed lookup, nobody listed, nobody usable among those listed; a city with nodes excludes the rest of the country |
| SelectionOutcome.ReturnedIsListed | matchmaker/service.go:133-181 | a returned node is among the first 50 of the list that counts, usable, and comes with its metadata |
| SelectionOutcome.EachDrawnOnce | matchmaker/service.go:242-253 | of any n draws in a row each position is hit once |
| NodeLoad.Gateway.Begin | gateway/service.go:387-428 | a session whose node has metadata gives that node uncounted, whatever its breaker; otherwise the node selection's outcome, with the session pinned; the address is empty either way |
| NodeLoad.Gateway.Finish | gateway/service.go:478-479 | the end of any forwarded request decrements its node's load |
| SessionPins.SessionsArePinned | gateway/service.go:411-413 | on every run a session names exactly the node of its last selection since it last expired or was deleted, and has no entry if there is none |
| SessionPins.PinnedExactlyWhen | gateway/service.go:411-413 | that is: some selection pinned it there and nothing later pinned or unpinned it |
| SessionPins.ServedFromLastPin | gateway/service.go:387-399 | a request is served from a session if and only if the session is pinned to a node that is still known, and then goes to that node |
| SessionPins.MetaIsKnown | matchmaker/redis_client.go:220-230 | a node has metadata if and only if it registered and its metadata was not deleted since |
| SessionPins.InFlightIsUnfinished | gateway/service.go:387-480 | what is in flight is what the events started, for each node and kind of request, less what finished |
| SessionPins.LoadIsTally | matchmaker/redis_client.go:323-331 | on every run a node's load is its selections less its finished requests since its load was last deleted |
| SessionPins.ContainsExactlyWhen | matchmaker/redis_client.go:220-230 | the keys a deregistration deletes are those in which the name occurs at some position |
| SessionPins.DropsItsOwn | matchmaker/redis_client.go:220-230 | a deregistration always deletes the node's own load and metadata |
| NodeLoad.Conservation | matchmaker/service.go:161-171 | on every run: load = selected requests in flight + leaked selections - finished session requests - load deleted by deregistrations |
| NodeLoad.DivisorPositiveExactlyWhen | matchmaker/service.go:221 | the divisor load + 1 is positive if and only if the finished session requests and the deleted load do not exceed what is in flight and leaked |
| NodeLoad.NoSessionsNoDrift | gateway/service.go:402-428 | without session requests and deletions the load is the selected requests in flight plus the leaked ones, so never negative |
| NodeLoad.NegativeHasCause | gateway/service.go:411-413 | a node with a negative load was selected for a session, or had its load deleted, before |
| NodeLoad.PinnedRunSinks | gateway/service.go:390-399 | for every k one client with one session drives a node's load to -k with nothing in flight |
| NodeLoad.OverdrawnNodeCaptures | gateway/service.go:478-479 | on every run, a node overdrawn by one draws every selection it is eligible for, unless another of load -1 is listed before it |
| ConnPool.ConnPool.GetPool | gateway/connpool.go:32-55 | finds an address's pool or creates an empty one; no pool is ever shared or replaced |
| ConnPool.ConnPool.Get | gateway/connpool.go:57-76 | hands out the longest idle connection, or what dialling gave when none is idle; other addresses untouched |
| ConnPool.ConnPool.Put | gateway/connpool.go:78-102 | keeps the connection at the end of the idle ones if there is room and closes it otherwise |
| ConnPool.RunKeepsInv | gateway/connpool.go:57-102 | every interleaving keeps the invariant over idle connections, counter and calls in flight |
| ConnPool.ActiveCountsExactly | gateway/connpool.go:57-102 | in every interleaving, active = idle + Puts before their send + Gets before their decrement <= maximum |
| ConnPool.SendNeverFails | gateway/connpool.go:94-101 | in every interleaving a Put about to send finds room, so the channel-full branch is never taken |
| ConnPool.NothingLostOrDoubled | gateway/connpool.go:57-102 | every connection given to Put is in exactly one place: idle, in transit, handed to one Get, or closed; first in, first out |
| ConnPool.PoolsPersist | gateway/connpool.go:32-55 | lookups that miss together still never replace a pool, and its history only grows |
| Hub.Hub.HandleUnregister | gateway/websocket.go:68-76 | a member is removed and its channel closed; anyone else is left alone |
| Hub.Hub.HandleBroadcast | gateway/websocket.go:78-88 | every member with room gets the message, every full one is closed and removed, in any order of the map |
| Hub.NeverPanics | gateway/websocket.go:58-112 | with any number of Run loops and callers no channel is closed twice or sent to after closing, and members' channels are open |
| Hub.SentExactlyWhileMember | gateway/websocket.go:58-91 | a client was sent exactly the broadcasts applied between its registration and its removal, contiguous and in order |
| Hub.SyncWaitsForAll | gateway/websocket.go:100-122 | the wait group never goes negative, and at zero every Register and Unregister begun has been applied |
| HubBackpressure.NeverFurtherBehind | gateway/websocket.go:82-85 | on every run no client is ever more than 256 messages behind in reading |
| HubBackpressure.DroppedExactlyWhenFull | gateway/websocket.go:78-88 | on every run a step other than its Unregister removes a member if and only if it applies a message while the member is exactly 256 behind; a member less far behind is sent it |
| HubBackpressure.DroppedWasSent | gateway/websocket.go:82-86 | a client that is never unregistered and no longer a member was sent at least 256 messages |
| HubUnregister.SettledUnregisterHolds | gateway/websocket.go:58-112 | an Unregister called after the registration was applied leaves the client out on every run that ends with nothing pending |
| HubUnregister.UnsettledUnregisterIsLost | gateway/websocket.go:58-112 | from every other reachable state some run ends with nothing pending and the client a member |
| HubUnregister.UnregisterHoldsExactlyWhenSettled | gateway/websocket.go:58-112 | in every reachable state, with any number of loops, an Unregister is certain to take effect if and only if the registration was applied or the only loop has taken it |
| Migrations.MigrationRunner.RunAll | internal/migrations/migrator.go:36-66 | the loop over the sorted list has the store, the recorded set and the failing ID of the specified Run |
| Migrations.MigrationRunner.RollbackTo | internal/migrations/migrator.go:89-125 | the two loops have the store, the recorded set and the failing ID of the specified Rollback |
| Migrations.SortSorts | internal/migrations/migrator.go:25-34 | the runner's list is a permutation of the given migrations in increasing ID order |
| Migrations.SortedIsUnique | internal/migrations/migrator.go:26-28 | with distinct IDs that order is the only one |
| Migrations.PendingIsSorted | internal/migrations/migrator.go:68-87 | pending is exactly what is in the list and not recorded, in increasing order |
| Migrations.RunAppliesPending | internal/migrations/migrator.go:47-65 | Run applies exactly the pending migrations in order up to the first that fails, records those that succeeded and reports the one that failed |
| Migrations.RunResumes | internal/migrations/migrator.go:47-65 | after a failure exactly the failing migration and those after it are pending |
| Migrations.RunIsIdempotent | internal/migrations/migrator.go:36-66 | after success nothing is pending and running again changes nothing |
| Migrations.DownAllWalksBack | internal/migrations/migrator.go:107-122 | undoing the end of a chain in reverse order restores the earlier store and recorded set |
| Migrations.LessExactlyWhen | internal/migrations/migrator.go:26-28 | IDs compare at the first position where they differ, a prefix being smaller |
| MigrationFailures.RunAdvances | internal/migrations/migrator.go:47-65 | Run applies the pending migrations each to the store the one before left, up to the first whose Up fails, whose partial effect stays; exactly the ones that succeeded are recorded in addition |
| MigrationFailures.RollbackResumes | internal/migrations/migrator.go:100-122 | Rollback undoes the recorded migrations above the target from the last down, up to the first whose Down fails; that one and those below it stay recorded and are exactly what the next Rollback takes up |
| MigrationFailures.AboveIsSorted | internal/migrations/migrator.go:100-105 | what is rolled back is exactly what is recorded with an ID above the target, in increasing order |
| RollbackOrder.InOrderRollbackUndoesRun | internal/migrations/migrator.go:36-125 | from any store and recorded set in order, Run then Rollback(t) gives what Rollback(t) alone and then a Run up to t give, and fails where that Rollback would |
| RollbackOrder.RunThenRollback | internal/migrations/migrator.go:36-125 | in particular, if a prefix was applied, it succeeds and gives the store and set of applying only IDs up to t |
| RollbackOrder.OutOfOrderFails | internal/migrations/migrator.go:100-122 | for every list and recorded set out of order some migrations whose Downs undo their Ups make Rollback fail after Run though it would not alone |
| RollbackOrder.AlwaysUndoesExactlyInOrder | internal/migrations/migrator.go:36-125 | over all such migrations and stores, Rollback takes every Run back to the target if and only if each recorded ID above the target is smaller than each pending one |
| Subnet.CalculateSubnetInPlace | internal/subnet/allocator.go:169-193 | the loop over the buffer has the specified result, errors included |
| Subnet.WrittenBytes | internal/subnet/allocator.go:185-189 | the index goes into byte 9 and then 8, or into byte 8 alone from length 56 on, and nowhere else |
| Subnet.OneNetworkForAll | internal/subnet/allocator.go:169-193 | all subnets of a pool have the same leftmost 64 bits |
| Subnet.DecodeWritten | internal/subnet/allocator.go:185-189 | over a prefix with zero bytes 8 and 9 the index can be read back |
| Subnet.DistinctExactlyWhenClear | internal/subnet/allocator.go:175-189 | distinct indexes give distinct addresses if and only if the prefix has zeros in the bits an index can set |
| SubnetPools.SubnetAllocator.RegisterPool | internal/subnet/allocator.go:32-48 | checks length and prefix, and resets the counter but not the allocations |
| SubnetPools.SubnetAllocator.AllocateSubnet | internal/subnet/allocator.go:50-84 | returns the held subnet or grants the one indexed by the number held, with each error leaving the state alone |
| SubnetPools.SubnetAllocator.Deallocate | internal/subnet/allocator.go:86-111 | frees the node in one pool that has it, in whatever order pools are visited, and changes nothing if none has |
| SubnetPools.CounterDrift | internal/subnet/allocator.go:32-111 | on every run each counter is the number held now minus the number held at the last registration |
| SubnetGrants.CounterSinceRegistration | internal/subnet/allocator.go:32-48 | after a registration, first or not, and until the next the counter is the number held now less the number held at it; the registration leaves the held subnets alone |
| SubnetGrants.GrantedExactlyWhenRoom | internal/subnet/allocator.go:62-84 | in a registered pool a node that holds nothing is granted a subnet if and only if fewer than 2^(64 - length) are held; otherwise the pool is exhausted and nothing changes |
| SubnetGrants.RegisteredExactlyWhen | internal/subnet/allocator.go:32-48 | on every run exactly the pools with a valid length and a readable prefix that were registered are |
| SubnetGrants.AllocationSucceedsExactlyWhen | internal/subnet/allocator.go:50-84 | on every run, with deallocations, an allocation succeeds if and only if its pool was registered and the node holds a subnet already or there is room |
| SubnetGrants.FirstToAskHold | internal/subnet/allocator.go:50-84 | without deallocations exactly the first 2^(64 - length) distinct nodes that ask a pool get a subnet, the i-th one the prefix with index i written into it |
| SubnetGrants.FreesOneHolding | internal/subnet/allocator.go:86-111 | a deallocation takes the node's subnet in exactly one pool if it has any, and nothing from anybody else |
| SubnetPools.StaysPacked | internal/subnet/allocator.go:50-84 | without deallocation the held subnets are exactly those of indexes 0 .. n-1 |
| SubnetPools.RepeatIsIdempotent | internal/subnet/allocator.go:62-65 | asking again gives the same subnet and changes nothing |
| SubnetPools.PackedIsDistinct | internal/subnet/allocator.go:67-79 | in such a pool over a clear prefix two nodes hold different subnets |
| SubnetPools.PackedSharesNetwork | internal/subnet/allocator.go:67-79 | in such a pool, over any prefix, all held subnets have the same leftmost 64 bits |
| SubnetPools.FreedThenReallocated | internal/subnet/allocator.go:50-111 | freeing an index of n and allocating to a newcomer gives index n - 1, still held by its owner unless it was the one freed |
| SubnetPools.CollidesExactlyWhenNotLast | internal/subnet/allocator.go:50-111 | over a clear prefix the newcomer shares its subnet if and only if the freed index was not the last |
| SubnetPools.SafeExactlyWhenHighestFreed | internal/subnet/allocator.go:50-111 | over whole runs of a pool, no two nodes ever share a subnet, nor would after one more allocation, if and only if every deallocation frees the highest index held |
| ExchangeSort.Sort | matchmaker/benchmark.go:99-105 | the swap loops leave a sorted permutation, for any key |
| ExchangeSort.SortedGivesOrderStatistic | matchmaker/benchmark.go:99-107 | position i of a sorted sequence has at most i smaller elements and more than i not larger |
| ExchangeSort.OrderStatisticsGrow | matchmaker/benchmark.go:99-107 | order statistics do not decrease and are determined by position alone |
| Benchmark.CalculatePercentile | matchmaker/benchmark.go:89-108 | returns the order statistic of the given values at the clamped index; the slice is only permuted |
| Benchmark.Percentiles | matchmaker/benchmark.go:57-60 | three calls that re-sort one slice report order statistics of the original measurements, and p50 <= p95 <= p99 |
| Benchmark.PercentilesGrow | matchmaker/benchmark.go:89-108 | percentiles do not decrease in p |
| Benchmark.PercentileIndexExactly | matchmaker/benchmark.go:94-98 | the index i is the one with 100 i <= n p < 100 (i + 1), the last from p = 100 on, and out of range exactly when n p <= -100 |
| Benchmark.PercentileExactlyWhen | matchmaker/benchmark.go:89-108 | for p below 100 the percentiles are exactly the values with at most p percent of the measurements smaller and more than p percent no greater; from 100 on the greatest |
| Latency.LatencyTracker.RecordLatency | matchmaker/latency.go:41-64 | after any sequence of records the samples are exactly the last maxSamples values, sum is their total and the average its truncated mean |
| Latency.LatencyTracker.GetLatencyStats | matchmaker/latency.go:120-138 | returns that mean with the true extremes of the window, min <= avg <= max |
| Latency.LatencyTracker.GetTopNodes | matchmaker/latency.go:83-118 | the ranking query's result when it succeeds; otherwise as many distinct nodes as asked for or known, by increasing average, none left out having a lower one |
| Latency.AverageBetween | matchmaker/latency.go:63 | the mean truncated toward zero lies between the extremes, for samples of either sign |
| Latency.AverageIsTruncated | matchmaker/latency.go:63 | the mean times the number of samples is the sum up to less than one per sample, and never beyond it |
| Capacity.AnalyzeNode | matchmaker/capacity.go:79-133 | daily rate, clamped utilisation, status, growth and predicted date of a node, or nothing when its bandwidth cannot be read |
| Capacity.GenerateReport | matchmaker/capacity.go:157-191 | the analysed nodes in order with their counts by status |
| Capacity.GetScalingRecommendations | matchmaker/capacity.go:210-287 | which recommendations are made, exactly, in their order, with the figures of their reasons, urgency and confidence, and the total load and average |
| Capacity.PredictedExactlyWhen | matchmaker/capacity.go:99-121 | a date is predicted if and only if the node grows, its daily rate is strictly between 80 and 100 GB and it is less than a year from full |
| Capacity.PredictedWhenFull | matchmaker/capacity.go:99-121 | the predicted day is the one on which the growth makes up what is missing to 100 GB a day |
| Capacity.RateInBytes | matchmaker/capacity.go:87-97 | the daily rate in bytes and seconds: bytes per day when less than a day is covered, the bytes themselves otherwise |
| Capacity.StatusExactlyWhen | matchmaker/capacity.go:99-121 | a node is critical if and only if its bytes are over 80 GB a day, and a warning if and only if over 50 and not over 80 |
| Capacity.GrowthInPercent | matchmaker/capacity.go:136-154 | the growth is the last snapshot's excess over the first in percent of the first, and zero if they cannot be compared |
| Capacity.CountsAddUp | matchmaker/capacity.go:163-191 | healthy + warning + critical = total |
| Capacity.WarningMajorityNeverDown | matchmaker/capacity.go:241-259 | a warning majority puts the average above 25, so it never comes with scale_down |
| Capacity.CriticalAndDownIsRare | matchmaker/capacity.go:230-259 | critical scale_up and scale_down together only when 4 * critical < total |
| Capacity.MixedGetsBothExactlyWhen | matchmaker/capacity.go:230-259 | a fleet of nodes a byte over the critical line and idle ones gets both if and only if their bytes stay under 20 GB for each node of the fleet |
| Capacity.QuarterIsReached | matchmaker/capacity.go:230-259 | so some fleet gets both for every pair of counts with 4 * critical < total and more than three nodes, up to 20 * 2^30 critical ones |
| Payout.PayoutService.CalculateAllPayouts | payout/service.go:127-145 | the positive payouts of the nodes, in order |
| Payout.RatesBelowTop | payout/service.go:109-125 | below the last maximum the rates are those of the one tier whose range holds the total |
| Payout.RatesAtTop | payout/service.go:109-125 | at or past it they are those of the name "Basic" |
| Payout.BasicOrDefault | payout/service.go:118-125 | which are the first such tier's, and the default rates if and only if there is no such tier |
| Payout.MonotoneBelowTop | payout/service.go:77-125 | with a well-formed table the payout is monotone in both directions of traffic below the last maximum |
| Payout.MonotonePastTop | payout/service.go:77-125 | and again among totals at or past it |
| Payout.GrossMonotoneExactlyWhenCovered | payout/service.go:83-90 | before the minimum it is monotone over all traffic if and only if one more byte covers the fall of the rates at the maximum |
| Payout.MonotoneExactlyWhenSplitsCovered | payout/service.go:77-94 | with the minimum it is monotone over all traffic if and only if one more byte covers the fall for every split of the last byte count below the maximum that reaches the minimum |
| Payout.EndsDecide | payout/service.go:83-94 | the earlier condition suffices for that one, and is the same when all sent and all received both reach the minimum |
| Payout.DefaultPaysLessAtTop | payout/service.go:48-52 | the default table pays 7999.20 for 9999 GB sent and 3000.00 for 10000 |
| Payout.NothingOrMinimum | payout/service.go:90-94 | a payout is zero or at least the minimum |
| Payout.AmountInBytes | payout/service.go:77-94 | a payout times 2^30 is each direction's bytes at its rate, or zero if that is under the minimum |
| Payout.PositiveSplits | payout/service.go:127-145 | the list of payouts follows the list of nodes, a part at a time |
| Payout.PaidInFull | payout/service.go:127-145 | leaving out the nodes without a payout changes no total, as long as no amount is negative |

## Left out

- Redis networking, pipelines, connection errors and the fail-open paths of the limiters; operations succeed, except
  the candidate and cooldown lookups, missing metadata, unreadable bandwidth and failing migrations, which are modelled.
- A key's expiry is exact; a lost EXPIRE between INCR and EXPIRE (gateway/client_ratelimit.go:90-92) is not modelled.
- Floating-point rounding and 64-bit overflow: weights, percentile values, utilisation and payouts are reals, counters
  and nanosecond stamps are unbounded integers. Infinities and not-a-number are modelled where division by zero can
  produce them. The decay factor is an arbitrary function of the time since a node was seen.
- Sorted-set scores are exact integers, though a nanosecond stamp loses low bits as a float64 score.
- SlidingWindow.AtMostLimitRequests: assumes strictly increasing stamps per client, because requests in one nanosecond
  do break it (`SlidingWindow.SameInstantUnbounded`); without that, `SlidingWindow.AtMostLimitInstants` holds.
- Limits and windows changed in the middle of a run by the configuration reload, except the shared limit under tiered
  calls (`TierReload`), the gateway's failure threshold (`Breaker`) and limits that are part of each call
  (`FixedWindow`, `ClientLimiter`).
- The map variant's count is read and incremented without its lock (gateway/client_ratelimit.go:98-109); the model
  takes each check as one step, so it does not show the requests that overlapping checks let through beyond the limit.
- TieredLimiter: overlap over the distributed limiter, whose own Allow is not locked; the interleavings share the
  local one.
- ConnPool: Close racing with Put, Stats, and the dialling itself, whose result is an input.
- ConnPool.ConnPool.Put: nothing in the program calls it (gateway/service.go:491-499 closes what Get gave), so its pools
  stay empty; the model covers any callers.
- Hub: JSON encoding and the socket pumps; a client's reader is a step that takes from its buffer.
- Migrations: the bodies of the shipped migrations, failures of the recording itself (SADD, SREM), and timestamps; Up
  and Down are arbitrary functions on an arbitrary store.
- Subnet: address parsing and printing; a parser from prefix texts to 16 bytes is an input.
- SubnetPools: Redis glob characters in prefixes, and the read-only GetNodeSubnet and ListPools.
- Latency: removal of idle nodes by time, and what the ranking query gives. It reads a hash as a sorted set, so it fails
  while that key exists and gives an empty list once it has expired.
- Capacity: the reasons' text formatting; a reason carries the figures it is formatted from.
- Capacity.QuarterIsReached: beyond 20 * 2^30 critical nodes their bytes over the line alone can reach the average.
- NodeLoad: Redis glob characters in a deregistered name, a heartbeat racing with a deregistration, sessions set by
  anything but the gateway, and failed increments or decrements.
- Random draws and generator failures are inputs; the draw's distribution is not modelled.
- HTTP handlers, authentication, compliance, compression, webhooks, metrics, CLI, SDKs, the mobile app and web pages:
  they would add only easy members.
