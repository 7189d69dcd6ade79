# A verified model of the proxy's data plane

This project models the part of go-proxy that many requests share: the circuit breaker, the pending queue and the
per-endpoint counters, endpoint picking, the two health state machines, strict-DNS endpoint sets, the retry loop, the
token bucket, the HTTP/1 response translator, the router, and the configuration checks that the rest relies on. The
main results are statements about every interleaving, every history or every input.

How it is laid out:

| file | models |
|---|---|
| `Program.dfy` | one request's path through `OnRequest` and `waitForCapacity`, cut at every atomic operation and lock section; the ledgers every run keeps |
| `Interleaving.dfy` | any number of such requests on one cluster, with refreshes and health reports, and the global invariant |
| `Safety.dfy` | what the invariant gives: breaker, endpoint counters, queue, per-endpoint cap, what is given back, what is kept |
| `Choices.dfy` | what each request of a reachable state can do next, said of the other requests |
| `Schedules.dfy`, `Bounds.dfy` | runs built step by step; how far the counters can pass their limits, and exactly when they do not |
| `Leaks.dfy` | a run for every way of keeping a slot; when a cluster refuses for good |
| `Panics.dfy` | when a run can panic in its backoff |
| `Snapshots.dfy` | picks on the states the interleaved system reaches |
| `Upstream.dfy` | policy merge and the loops of the upstream filter, proved to run exactly the step program their surroundings dictate |
| `Outcomes.dfy` | what a request comes to, said of its rounds alone |
| `Backoff.dfy` | `backoffWithJitter` in 64-bit arithmetic |
| `Picker.dfy`, `Health.dfy` | `Pick` under the three policies; passive ejection and active health |
| `Discovery.dfy`, `Refreshes.dfy` | strict-DNS refreshes one at a time, and interleaved at lock-section granularity |
| `TokenBucket.dfy`, `RateLimiter.dfy` | the bucket against its full-history rule; isolation of clients |
| `Translator.dfy` | the streaming response translator |
| `Router.dfy`, `Validate.dfy` | first-match routing and rewriting; the cluster and route checks and what they guarantee |
| `Prelude.dfy`, `Http.dfy` | options, 64-bit wrap-around, Go's division; the request context |

Classes are used where the source updates fields in place; each of their methods is tied to a function on values, and
the lemmas are about that function. In `Upstream.dfy` the outcome of every operation on shared state and every outside
event is read from an environment indexed by the loop variable. A ghost trace records the steps taken; `Obeys` says that
each step is the one the environment dictates, and `OneOutcome` shows that this leaves a single possible final state.

Where the code does something else than its documentation or comments say, the model follows the code:

- Routing is first match, where the proxy's README promises longest match. `Router.LongestExactlyWhenOrdered` gives the
  tables on which the two agree on every path.
- The proxy's README says that the breaker's limit can be exceeded by one. Grants never exceed it
  (`Safety.BreakerSafe`); the raw counter can pass it by any number (`Bounds.CounterUnbounded`), and where no slot is
  kept it stays within one exactly for at most limit + 1 unfinished requests (`Bounds.ByOneExactly`).
- A slot is kept at three places: a wait for endpoint capacity that ends in `continue`, a hard Pick error, and a failed
  request build. `Program.SlotLedger` counts them, and `Leaks` has a run for each. The first happens on an unchanging
  cluster exactly when an endpoint's cap is within the breaker's reach and there is a queue (`Leaks.GivesBackExactly`).
  A cluster that has lost as many slots as its limit refuses for good, and no other does
  (`Leaks.RefusesForGoodExactly`, and `Leaks.StaticRefusesExactly` where the endpoints stay).
- The per-endpoint cap can be passed, since Pick and the increment are separate steps: exactly when two requests may
  stand between them and the breaker lets more than the cap through (`Bounds.CapHeldExactly`).
- The comment on idempotency promises a default of true; a retry policy that leaves the switch unset turns it off:
  `Upstream.PolicyLimits`.
- The backoff shift can overflow, and the jitter call then panics or the delay falls short:
  `Backoff.PromiseKeptExactly`. Some run of a policy panics exactly when the shift of an attempt but the last is -4 or
  less (`Panics.RunPanicsExactly`); with the default base that takes forty attempts
  (`Panics.DefaultBasePanicsExactly`).
- The ring index is negative for tickets of 2^63 and above unless the list's length happens to divide:
  `Picker.CrashExactly`.
- A refresh drops the lock between computing its union and applying it, so a stale union can be the last one installed.
  The list of an idle cluster is the union of the latest results exactly when its first list holds static seeds only
  and there is at most one hostname seed (`Refreshes.CurrentExactly`).
- "No address has two uncancelled health checkers" fails between the deletion from the table and the call of the cancel
  function. It holds exactly without health checks or with at most one hostname seed (`Refreshes.NeverDoubledExactly`).
- The translator loses the last header line of every response that has headers (`Translator.HeadersKeptExactly`), and a
  code outside 100 to 999 panics the writer (`Translator.CrashesExactly`).

## Model

| member | source | states |
|---|---|---|
| Program.AdvanceBalances | internal/httpcm/upstream.go:154-298 | Every step of a request keeps all five books at once: slots held against slots counted, attempts started against outcomes, the response against where the request stands, the loop variable against failures and carried slots, backoffs against failures. |
| Program.RunBalances | internal/httpcm/upstream.go:154-298 | The books balance after any sequence of outcomes. |
| Program.SlotLedger | internal/httpcm/upstream.go:154-285 | Acquires minus releases of a finished request equal the capacity waits that ended in `continue`, plus one on a hard Pick error or a failed request build; every queue entry was left. |
| Program.RetryLedger | internal/httpcm/upstream.go:139-298 | Attempts are at most the limit less the rounds lost to carried slots; attempts equal failures plus successes plus one exactly on a build or write error; a response exists exactly after a success or a rejection, the latter 503 or 504; the loop ends without an error exactly when every round was lost to a capacity wait. |
| Program.BackoffLedger | internal/httpcm/upstream.go:243-251 | Total backoff of any run is at most (limit - 1) times the maximum plus a quarter. |
| Program.OneBackoff | internal/httpcm/upstream.go:243-251 | A step adds to the backoff only when it counts one, and then at most the ceiling. |
| Backoff.DelayBounded | internal/httpcm/upstream.go:399-414 | A delay that does not panic is between -3 and the ceiling. |
| Backoff.PanicsExactly | internal/httpcm/upstream.go:399-414 | The random source panics exactly when the shift overflows to -4 or less, whatever the cap and the draw. |
| Backoff.DelayInPlain | internal/httpcm/upstream.go:399-414 | Without overflow a delay is the clamped exponential, with the source's defaults of 50 and 500 milliseconds, plus the draw modulo a quarter of it and one. |
| Backoff.DelaysAreTheRange | internal/httpcm/upstream.go:399-414 | Without overflow the delays are exactly the values from the clamped exponential to a quarter above it. |
| Backoff.CeilingIs | internal/httpcm/upstream.go:399-414 | The ceiling is a quarter above the configured cap, or 625 milliseconds. |
| Backoff.PromiseKeptExactly | internal/httpcm/upstream.go:399-414 | The delay lies between the clamped exponential and 25% above it for every draw exactly when the shift does not overflow, or overflows to the cap or more. |
| Interleaving.SlotDelta | internal/cluster/manager.go:700-732 | The counter moves by exactly the change in slots held and rollbacks pending; only a granted add raises the slots. |
| Interleaving.QueueDelta | internal/httpcm/upstream.go:325-360 | The channel's length moves by exactly the change in waiters. |
| Interleaving.CellDelta | internal/cluster/manager.go:404-436 | Each entry's in-flight counter moves by exactly the change in requests counted on it. |
| Interleaving.RefsStep | internal/cluster/manager.go:419-436 | The entry a request found at the increment is the one it finds at the decrement; given counters of at least one, neither its decrement nor its release takes the clamp. `Safety.EndpointsSafe` and `Safety.BreakerSafe` show that the counters are. |
| Interleaving.RelistKeepsInv | internal/cluster/manager.go:610-622 | Installing another endpoint list, whatever it is, keeps the invariant: entries are added, never dropped or replaced. |
| Interleaving.StepKeepsInv | internal/cluster/manager.go:404-732 | Every step of every request, arrival, refresh and report keeps the global invariant. |
| Interleaving.Always | internal/cluster/manager.go:404-732 | The invariant holds in every state of every interleaving. |
| Safety.BreakerSafe | internal/cluster/manager.go:700-732 | In every reachable state the raw counter is grants not released plus rollbacks pending, grants never exceed a positive limit, and no Release is about to clamp. |
| Safety.EndpointsSafe | internal/cluster/manager.go:404-436 | In every reachable state no in-flight counter is negative, their sum over all entries ever made is at most the slots granted, hence at most a positive limit, every listed endpoint has an entry, and no decrement clamps. |
| Safety.QueueSafe | internal/httpcm/upstream.go:302-382 | In every reachable state the channel holds one token a waiter and at most the bound, a receive finds its token, and each entrant has left exactly once unless it still waits. |
| Choices.ChoicesExactly | internal/httpcm/upstream.go:154-382 | In every reachable state the next step of every request is exactly what the other requests leave open: a slot while fewer than the limit are held or being rolled back, a place while fewer than the bound wait, an endpoint while fewer than the cap are counted on it, and any outcome of a call. |
| Choices.TurnedAwayExactly | internal/httpcm/upstream.go:325-347 | A request is turned away from the queue, with 503, exactly when as many wait as the bound allows, and enters otherwise. |
| Choices.NothingElseBlocks | internal/cluster/manager.go:276-302 | Arrivals, relists and reports are possible in every reachable state, install exactly the new list, and touch no request and no counter. |
| Bounds.QueueFills | internal/httpcm/upstream.go:325-327 | With a breaker limit, any number of waiters up to the bound stand in the queue of some run. |
| Safety.RequestIsRun | internal/httpcm/upstream.go:154-298 | Every request of every interleaving is a run of the step program. |
| Safety.EveryRequestKeepsItsLedgers | internal/httpcm/upstream.go:139-298 | Whatever the others do, each request's total backoff is at most (limit - 1) times the ceiling, and once it is done its attempts and slots balance. |
| Safety.WindowDelta | internal/cluster/manager.go:366-417 | A request's step raises in-flight count plus requests in the window only by passing the cap check. |
| Safety.CapNearlyHolds | internal/httpcm/upstream.go:173-190 | Without fallback picks of an endpoint, its count never exceeds cap + P - 1, where P bounds the requests between its cap check and its increment. |
| Safety.NeverFull | internal/cluster/manager.go:366-401 | Where the breaker's limit does not exceed the per-endpoint cap, no scan ever finds an endpoint at its cap. |
| Safety.StaticClusterGivesBack | internal/httpcm/upstream.go:154-285 | With endpoints that do not change and no build error, and with no cap within the breaker's reach or no queue, a request holds a slot exactly while it is served, and once all are done every counter is zero. |
| Safety.IdleCounterIsLeaks | internal/httpcm/upstream.go:177-212 | When all requests are done, the counter is exactly what they kept. |
| Bounds.CounterUnbounded | internal/cluster/manager.go:710-715 | For every limit the raw counter reaches every value n, with n requests. |
| Bounds.ByOneExactly | internal/cluster/manager.go:710-715 | Where nothing is kept, the counter stays within one of its limit in all runs with at most p unfinished requests exactly when p is at most limit + 1. |
| Bounds.CapPassed | internal/httpcm/upstream.go:173-190 | For every cap and every P that the breaker lets through, some run with at most P in the window takes the count to cap + P - 1. |
| Bounds.CapHeldExactly | internal/httpcm/upstream.go:173-190 | With at most p requests in the window and no fallback picks the cap is never passed exactly when p is at most one or the breaker's limit does not exceed the cap. |
| Leaks.HardPickKeeps | internal/httpcm/upstream.go:185 | On an empty list any number of requests within the limit finish and leave as many slots counted. |
| Leaks.BuildErrorKeeps | internal/httpcm/upstream.go:209-212 | Failed request builds leave their slots and their counts on the endpoint. |
| Leaks.CapacityWaitKeeps | internal/httpcm/upstream.go:175-183 | A request that meets the only endpoint at its cap and waits for a slot ends with one kept, on an unchanging cluster. |
| Leaks.GivesBackExactly | internal/httpcm/upstream.go:154-285 | All finished uneventful runs on unchanging clusters leave the counter at zero exactly when no cap is within the breaker's reach or there is no queue. |
| Leaks.StepKeepsLost | internal/httpcm/upstream.go:154-298 | No step brings a lost slot back. |
| Leaks.WindDown | internal/httpcm/upstream.go:154-382 | From any state that keeps the invariant, has endpoints and has lost fewer slots than the limit, some continuation without a relist, a failed build or a fallback pick frees a slot. |
| Leaks.StaticRefusesExactly | internal/cluster/manager.go:710-715 | A cluster with endpoints never again has room for a request, in any continuation without a relist, a failed build or a fallback pick, exactly when a positive limit's worth of slots is lost. |
| Leaks.RefusesForGoodExactly | internal/cluster/manager.go:710-715 | In a reachable state no continuation ever has room for one more request exactly when a positive limit's worth of slots is lost. |
| Leaks.EarlyRequestsCloseTheCluster | internal/httpcm/upstream.go:185 | As many requests as the limit, before the first lookup of a cluster of hostnames, close it for good. |
| Panics.RunPanicsExactly | internal/httpcm/upstream.go:243-251 | On a cluster with any limits, some run has a request with a given policy panic in its backoff exactly when the shift after some attempt but the last is -4 or less. |
| Panics.DefaultBasePanicsExactly | internal/httpcm/upstream.go:399-412 | With the default base, whatever the cap and the limits, some run panics exactly when the policy allows forty attempts. |
| Upstream.PolicyLimits | internal/httpcm/upstream.go:66-143 | The merged policy always allows an attempt, and has positive backoff settings as long as the configured ones fit a duration; a request that is not GET, HEAD or OPTIONS is retried exactly when a policy is configured with the switch off and some positive retry count. |
| Upstream.PolicyExactly | internal/httpcm/upstream.go:66-143 | A GET, HEAD or OPTIONS, or any method under a policy with the switch off, is attempted once and as often again as the route, else the cluster allows; every other once. Each merged setting is the route's, else the cluster's, else the default. |
| Upstream.Millis | internal/httpcm/upstream.go:75-94 | A positive setting in milliseconds is scaled exactly if and only if it fits a 64-bit duration; any other leaves the default. |
| Upstream.PlayedIsRun | internal/httpcm/upstream.go:154-298 | What the surroundings dictate is always a run of the step program, so its ledgers apply. |
| Upstream.WaitForCapacity | internal/httpcm/upstream.go:302-382 | False exactly when the caller has gained one slot and left the queue; true exactly when it has answered, 503 without room and 504 when the connection ended first; otherwise the response is untouched. |
| Upstream.Admit | internal/httpcm/upstream.go:156-163 | Past the breaker with a slot, or answered. |
| Upstream.Fail | internal/httpcm/upstream.go:226-253 | A failed call is counted once, settled and released; the loop goes on at a later attempt unless the backoff panics. |
| Upstream.Call | internal/httpcm/upstream.go:187-285 | Each outcome of an attempt ends the request with its own result or moves the loop on, and only a success sets the response. |
| Upstream.RunAttempts | internal/httpcm/upstream.go:153-298 | The loop runs exactly what its surroundings dictate; its result, its response and its number of upstream calls are those of the run, and the ledgers hold. |
| Upstream.OnRequest | internal/httpcm/upstream.go:113-298 | Without a target nothing happens, with an unknown cluster Pick's error comes back; otherwise nil exactly with a response, at most the policy's number of calls, and the slot ledger. |
| Upstream.OneOutcome | internal/httpcm/upstream.go:113-382 | However often polls are refused, the surroundings decide the final state: response, error and every tally. |
| Outcomes.FirstRoundDecides | internal/httpcm/upstream.go:154-298 | The first round that does not pass decides the exit, the status, the number of calls and the total backoff; when all pass, the loop runs out with the last call's error. |
| Outcomes.DecidingRoundsResult | internal/httpcm/upstream.go:154-298 | What OnRequest returns is read off that round: nil for an answer or a rejection, else its own error, a deadline exactly when a cut backoff ran into one. |
| Outcomes.LastCallsError | internal/httpcm/upstream.go:287-297 | When all rounds pass, the error is a deadline exactly when the last call timed out, and the message without error exactly when there was no call. |
| Health.Thresholded | internal/cluster/manager.go:93-159 | Each positive setting is used and every other replaced by its default, so thresholds are at least one; the ejection time is the configured one exactly when it fits a 64-bit duration, and then positive. |
| Health.EpState.MarkFailure | internal/cluster/manager.go:276-290 | Counts the failure, ejects at the threshold, leaves active health alone. |
| Health.EpState.MarkSuccess | internal/cluster/manager.go:293-302 | Ends the failure run, leaves a running ejection and active health alone. |
| Health.EpState.UpdateActiveHealth | internal/cluster/manager.go:676-697 | Applies one probe, leaves passive health alone. |
| Health.EpState.IsAvailable | internal/cluster/manager.go:259-273 | Available exactly when neither half objects. |
| Health.PassiveFollowsHistory | internal/cluster/manager.go:276-302 | After any reports the failure count is the trailing failure run modulo the threshold, and the ejection ends the ejection time after the latest failure whose run length was a multiple of the threshold. |
| Health.EjectedByLatestTrip | internal/cluster/manager.go:249-257 | Ejected at an instant exactly when it lies before the end of the latest trip's ejection. |
| Health.ActiveFollowsHistory | internal/cluster/manager.go:676-697 | After any probes each counter is its trailing run, at most one is nonzero, and the flag holds exactly when a condemning failure run was not followed by an absolving success run. |
| Picker.Cluster.PickRing | internal/cluster/manager.go:366-385 | The round-robin loop computes the ring choice and takes one 64-bit ticket. |
| Picker.Cluster.PickLeast | internal/cluster/manager.go:339-363 | The least-requests loop with its -1 sentinel. |
| Picker.Cluster.PickRandom | internal/cluster/manager.go:318-338 | A draw among the eligible, else among all if none is available, else no capacity. |
| Picker.Cluster.Pick | internal/cluster/manager.go:305-387 | The policy's choice on what the cluster shows, and whether a ticket was taken. |
| Picker.RingClass | internal/cluster/manager.go:366-385 | The ring returns the first eligible position in cyclic order from its ticket, no capacity exactly when some are available and none eligible, and its start when none is available. |
| Picker.LeastScanExact | internal/cluster/manager.go:339-363 | Unless a load shows the sentinel, the scan finds the earliest least-loaded eligible endpoint, or none exactly when none is eligible. |
| Picker.PoliciesAgree | internal/cluster/manager.go:317-401 | On one snapshot without a load of -1 all policies have the same outcome class; least_requests returns the earliest minimum. |
| Snapshots.LoadsAreNatural | internal/cluster/manager.go:419-436 | No reachable state shows a negative load, so the sentinel never collides. |
| Snapshots.PoliciesAgreeWhenReached | internal/cluster/manager.go:317-401 | In every reachable state, with any health, all policies have the same outcome class, least_requests returns the earliest minimum, and without a cap a listed endpoint is found. |
| Snapshots.PickIsAStep | internal/cluster/manager.go:305-387 | What Pick chooses in a reachable state, under any policy and health, is a step the interleaved system allows. |
| Picker.CrashExactly | internal/cluster/manager.go:367 | The ring index is negative exactly for tickets from 2^63 on whose distance to 2^64 the list's length does not divide. |
| Picker.NoCapNoWait | internal/cluster/manager.go:389-401 | Without a per-endpoint cap every policy finds a listed endpoint. |
| Picker.RoundRobinIsFair | internal/cluster/manager.go:366-385 | With all endpoints eligible, any k consecutive picks give each position floor(k/n) or ceil(k/n), and n picks exactly one. |
| Picker.TicketsExactly | internal/cluster/manager.go:317-367 | A ticket is taken exactly by round robin, and by least_requests when nothing is eligible. |
| Picker.RingPicksNearest | internal/cluster/manager.go:366-379 | Round robin picks the eligible position nearest ahead of its ticket. |
| Picker.RandomIsEven | internal/cluster/manager.go:318-338 | Two draws pick the same endpoint exactly when they leave the same remainder by the number of eligible ones. |
| Picker.RandomReachesAll | internal/cluster/manager.go:318-338 | Every eligible endpoint is picked by some draw. |
| Picker.AvailableExactly | internal/cluster/manager.go:259-273 | An endpoint is available exactly when its latest trip no longer ejects it and its last decisive probes did not fail. |
| Picker.PicksTheFit | internal/cluster/manager.go:305-401 | Under every policy: an endpoint whose histories leave it well and that has room, if one is listed; no capacity exactly when some are well and none has room; else some listed endpoint. |
| Picker.RoundRobinPicks | internal/cluster/manager.go:366-385 | Round robin picks the nearest such endpoint ahead of its ticket, and with none well the ticket's own position. |
| Picker.LeastRequestsPicks | internal/cluster/manager.go:339-363 | least_requests picks the earliest of the least loaded such endpoints, an unknown one counting as idle. |
| Picker.RandomFallsBack | internal/cluster/manager.go:333-336 | With none well the random policy picks the position of its draw. |
| Snapshots.PicksTheFitWhenReached | internal/cluster/manager.go:305-401 | The same in every reachable state, without a hypothesis on the counters. |
| Discovery.ReadSeeds | internal/cluster/manager.go:110-138 | The loop over configured endpoints yields the initial list, the static seeds and one entry for each listed address. |
| Discovery.Cluster.constructor | internal/cluster/manager.go:83-138 | A new cluster lists what its seeds give, with nothing resolved and no checks. |
| Discovery.Cluster.Start | internal/cluster/manager.go:453-467 | One check for each listed endpoint when configured. |
| Discovery.Cluster.StartHealthCheck | internal/cluster/manager.go:479-492 | A running check is not started again. |
| Discovery.Cluster.StopHealthCheck | internal/cluster/manager.go:495-505 | The check is unregistered and stopped. |
| Discovery.Cluster.ApplyEndpointSet | internal/cluster/manager.go:582-639 | The list becomes the set, entries are added for what is new and none is removed, checks and counters follow the difference; registered checks run once each. |
| Discovery.Union | internal/cluster/manager.go:567-576 | The static seeds and everything any seed resolved to. |
| Discovery.Cluster.ResolveOnce | internal/cluster/manager.go:542-579 | One refresh; a failed lookup changes nothing. |
| Discovery.ApplyConserves | internal/cluster/manager.go:582-639 | Added minus removed is the change in size. |
| Discovery.SerialRefreshes | internal/cluster/manager.go:542-639 | After any refreshes run one at a time the list is the static seeds and every seed's latest successful result, running checks match it one for one when configured, entries cover it, and added minus removed is its growth. |
| Discovery.RefreshedIsCurrent | internal/cluster/manager.go:542-579 | Validated or not, after the first successful refresh the list is the static seeds and every seed's latest successful result. |
| Discovery.ListedExactly | internal/cluster/manager.go:542-579 | On a validated cluster an address is listed exactly when it is a static seed or the latest successful lookup of some seed found it. |
| Discovery.EntriesExactly | internal/cluster/manager.go:617-622 | An address has an entry exactly when it has been listed, at first or after some refresh. |
| Discovery.EntriesStay | internal/cluster/manager.go:617-637 | No number of refreshes takes an entry away. |
| Discovery.RefreshCounts | internal/cluster/manager.go:549-552 | Each refresh counts exactly the addresses it lists anew and those it takes off, and a failed lookup leaves everything alone. |
| Discovery.ListingExactly | internal/cluster/manager.go:110-138 | An address is on the first list exactly when some seed puts it there: an IP its canonical address, a malformed text itself, a hostname its text unless DNS supplies it. |
| Discovery.ListingInOrder | internal/cluster/manager.go:110-138 | Without strict DNS the list follows the configuration, seed by seed. |
| Discovery.MalformedSeedIsDropped | internal/cluster/manager.go:110-119 | Without validation a malformed seed beside a hostname is listed alone at first and lost at the hostname's first successful lookup. |
| Refreshes.ListsAlways | internal/cluster/manager.go:560-622 | Under any interleaving the list is the initial one or a union computed earlier, contains every static seed, and every listed endpoint has an entry. |
| Refreshes.ListWasCurrent | internal/cluster/manager.go:560-622 | However refreshes interleave, the list is the first one or what was current at some moment of the run. |
| Refreshes.UnionExactly | internal/cluster/manager.go:560-576 | An address is current exactly when it is a static seed or the newest lookup of some seed found it. |
| Refreshes.LooksNeverBlock | internal/cluster/manager.go:542-579 | An idle loop takes any answer to its lookup, and a computed union can be applied at once. |
| Refreshes.NothingIsForgotten | internal/cluster/manager.go:479-622 | No step takes an entry away or brings a cancelled check back. |
| Refreshes.BegunChecks | internal/cluster/manager.go:453-467 | At first every listed endpoint has a check, when they are configured, and nothing else has. |
| Refreshes.ChecksMatchList | internal/cluster/manager.go:453-505 | With at most one hostname seed the running checks of an idle cluster match its list one for one. |
| Refreshes.HostsExactly | internal/cluster/manager.go:508-520 | There is one loop for each hostname seed: at most one exactly when no two seeds are hostnames. |
| Refreshes.CheckersAlways | internal/cluster/manager.go:479-505 | Under any interleaving a registered check is uncancelled and of its own address, and every uncancelled check is registered or about to be cancelled by exactly one job. |
| Refreshes.DoubledExactly | internal/cluster/manager.go:494-505 | An address has two uncancelled checkers exactly while an unregistered one awaits its cancel call beside a registered or another such one. |
| Refreshes.DoublingHappens | internal/cluster/manager.go:577-637 | With health checks and two hostname seeds, of whatever ports, some run has two uncancelled checkers of an address: one loop drops it while the other still holds a union with it. |
| Refreshes.StaleUnionWins | internal/cluster/manager.go:577-578 | With two hostname seeds, of whatever ports, and a first list of static seeds, a run leaves all loops idle with a list that is not the union of the latest results. |
| Refreshes.OneLoopInOrder | internal/cluster/manager.go:542-579 | With at most one loop, whatever checks and reports do meanwhile, the union being applied or the list installed is that of the latest results. |
| Refreshes.CurrentExactly | internal/cluster/manager.go:508-579 | In every idle state of every interleaving the list is the union of static seeds and latest results exactly when the first list holds static seeds only and there is at most one hostname seed. |
| Refreshes.ValidatedCurrentExactly | internal/cluster/manager.go:508-579 | On a validated strict-DNS cluster that is so exactly when no two seeds are hostnames. |
| Refreshes.NeverDoubledExactly | internal/cluster/manager.go:479-505 | No run has two uncancelled checkers of an address exactly without health checks or with at most one refresh loop. |
| TokenBucket.Bucket.Take | internal/httpcm/ratelimit.go:92-107 | Refill, then spend one token if there is one. |
| TokenBucket.RoomShifts | internal/httpcm/ratelimit.go:92-107 | One call shifts what every open window still allows alike. |
| TokenBucket.LevelIsTightestWindow | internal/httpcm/ratelimit.go:92-107 | After the refill the level is the least, over all calls so far, of burst plus inflow since minus grants since, with time the running maximum of the call times. |
| TokenBucket.AllowRefinesHistory | internal/httpcm/ratelimit.go:92-107 | A call is admitted exactly when the full history leaves room in every window. |
| TokenBucket.WindowsNeverOverfill | internal/httpcm/ratelimit.go:54-107 | Any window admits at most burst plus inflow, even if the clock steps back. |
| TokenBucket.StampIsLatest | internal/httpcm/ratelimit.go:94-101 | The bucket's clock is the latest instant seen so far. |
| RateLimiter.NewRateLimiter | internal/httpcm/ratelimit.go:35-73 | No limiter exactly without a positive rate; else scope, rate and burst as configured, full, with a burst of at least one. |
| RateLimiter.Limiter.GetBucket | internal/httpcm/ratelimit.go:75-90 | The shared bucket, or the client's own, made at its first request; no two keys share one. |
| RateLimiter.Limiter.Admit | internal/httpcm/ratelimit.go:128-132 | The decision under the lock touches one bucket and no other. |
| RateLimiter.OnRequest | internal/httpcm/ratelimit.go:110-159 | Without a limiter everything passes; a denied request is answered with 429, and nothing else touches the response. |
| RateLimiter.ClientsAreIsolated | internal/httpcm/ratelimit.go:75-132 | In "ip" scope, in any interleaved trace, one client's verdicts and bucket are those of a lone bucket opened at its first request and fed only its own requests. |
| RateLimiter.EachClientFollowsItsHistory | internal/httpcm/ratelimit.go:35-132 | So a request is admitted exactly when its client's own history has room in every window. |
| RateLimiter.OneBucketForAll | internal/httpcm/ratelimit.go:75-107 | Outside "ip" scope the verdicts on any trace are those of one bucket opened with the limiter and fed every request. |
| RateLimiter.AllFollowOneHistory | internal/httpcm/ratelimit.go:35-132 | So a request is admitted exactly when the history of all requests leaves room, at the configured rate and burst. |
| Translator.FindSep | internal/httpcm/h2handler.go:83 | The first empty line, or none. |
| Translator.ParseInt | internal/httpcm/h2handler.go:137-147 | The digit loop computes the 64-bit value or fails on the first other byte. |
| Translator.ParseStatus | internal/httpcm/h2handler.go:93-101 | The second field of the status line, 200 when it is missing or not a number. |
| Translator.ParseHeaders | internal/httpcm/h2handler.go:102-119 | The header loop, which ends at an unterminated line without reading it, collects the values of each canonical name in order. |
| Translator.CopyHeaders | internal/httpcm/h2handler.go:120-124 | Copying name by name, in whatever order, gives the writer the same headers. |
| Translator.RespTranslator.Write | internal/httpcm/h2handler.go:76-134 | One write buffers, translates a completed head, passes the body on, or panics on a code the writer does not take. |
| Translator.ChunksDoNotMatter | internal/httpcm/h2handler.go:76-134 | However a stream is cut into writes, what has been emitted is the translation of the bytes given so far. |
| Translator.OneWriteIsEnough | internal/httpcm/h2handler.go:76-134 | The same output as one write of the whole, and the same state unless the writer panicked; nothing is emitted before the first empty line is complete. |
| Translator.LastHeaderDropped | internal/httpcm/h2handler.go:88-119 | The header loop keeps every header but the last. |
| Translator.WireTranslated | internal/httpcm/h2handler.go:76-134 | Of a well-formed response the body survives, the status line is read, and exactly the last header is lost; or its code makes the writer panic. |
| Translator.HeadersKeptExactly | internal/httpcm/h2handler.go:102-119 | The headers of a well-formed response all arrive exactly when it has none. |
| Translator.AtoiDecimal | internal/httpcm/h2handler.go:137-147 | Reading a printed number below 2^63 gives it back. |
| Translator.StatusRead | internal/httpcm/h2handler.go:93-101 | A status line gives back the code it was printed with, leading zeros and all. |
| Translator.CrashesExactly | internal/httpcm/h2handler.go:93-125 | A well-formed response panics the writer exactly when its code is outside 100 to 999. |
| Translator.StatusExactly | internal/httpcm/h2handler.go:94-101 | The code is the number between the first two spaces of the trimmed status line, or 200 when that text is no number. |
| Translator.AtoiExactly | internal/httpcm/h2handler.go:137-147 | Exactly the texts of decimal digits are numbers, the empty one zero. |
| Translator.TrimExactly | internal/httpcm/h2handler.go:94-116 | Trimming takes the blanks on both sides and nothing else. |
| Translator.HeaderLoopExactly | internal/httpcm/h2handler.go:104-119 | Line by line: a terminated line that is not empty is read, an empty or an unterminated one ends the headers. |
| Translator.HeaderExactly | internal/httpcm/h2handler.go:113-118 | A line is a header exactly when it has a colon; the first one ends the name, and both sides are trimmed. |
| Translator.CanonicalExactly | internal/httpcm/h2handler.go:117 | A name of token bytes has its letters upper case exactly at the start and after dashes, and is otherwise unchanged; any other name is left alone. |
| Translator.GroupedExactly | internal/httpcm/h2handler.go:103-124 | Each canonical name has the values of its lines, in order, and there is no other name. |
| Router.FirstMatch | internal/httpcm/router.go:16-23 | The first route whose prefix the path starts with; none exactly when no route matches. |
| Router.RewritePath | internal/httpcm/router.go:28-51 | The rewrite of a matched path, empty when the route asks for none. |
| Router.OnRequest | internal/httpcm/router.go:14-59 | Target, route and rewrite are those of the first match; without one, an unset target becomes the first catch-all's. |
| Router.RoutedExactly | internal/httpcm/router.go:14-59 | The first match decides cluster, route and rewrite; without one an unset cluster becomes the catch-all default and all else stays. |
| Router.CatchAllExactly | internal/httpcm/router.go:17-22 | The default is the cluster of the first route for "/" that names one. |
| Router.RewriteExactly | internal/httpcm/router.go:28-51 | No option, no rewrite; stripping leaves what follows the prefix, from its slash on; a configured prefix is made absolute, loses one final slash, and precedes that. |
| Router.LongestExactlyWhenOrdered | internal/httpcm/router.go:16-55 | First match is longest match on every path exactly when each prefix that a shorter one precedes was already listed before that shorter one. |
| Router.RewriteIsAbsolute | internal/httpcm/router.go:28-51 | A rewrite is present exactly when the route asks for one, and then starts with a slash. |
| Router.SwapRoundTrip | internal/httpcm/router.go:28-51 | Rewriting prefix A to B and back restores the path exactly when what follows A starts with a slash. |
| Validate.CheckCluster | internal/config/validate.go:15-43 | The first fault of a cluster, or a sound cluster with a new name. |
| Validate.CheckRoute | internal/config/validate.go:47-55 | The first fault of a route, or a sound route. |
| Validate.FirstFailure | internal/config/validate.go:12-56 | The two loops return the first failure in their order. |
| Validate.Validate | internal/config/validate.go:12-56 | Accepts exactly the sound configurations: names present and unique, endpoints present and host:port, a known policy, no negative limit, every route with a prefix and an existing cluster. |
| Validate.OneVerdict | internal/config/validate.go:12-56 | Only one verdict fits the first-failure rule. |
| Validate.GoodClusterExactly | internal/config/validate.go:16-43 | A cluster is sound exactly with a name, endpoints that each have host and port, one of the four policies in any case, and no negative limit. |
| Validate.SoundExactly | internal/config/validate.go:12-56 | A configuration is sound exactly with sound clusters of different names and routes that have a prefix and name one of them. |
| Validate.FaultsInOrder | internal/config/validate.go:16-43 | The reported fault of a cluster is the first in the order name, duplicate, endpoints, policy, limits. |
| Validate.RouteFaultsInOrder | internal/config/validate.go:47-55 | The reported fault of a route is the first in the order prefix, cluster, unknown cluster. |
| Validate.LimitsExactly | internal/cluster/manager.go:163-171 | The limits in force are the configured ones that are positive; the others are off. |
| Validate.AcceptedEndpointListed | internal/cluster/manager.go:110-138 | An accepted endpoint is listed under its canonical address if its host is an IP, and under its text otherwise unless DNS supplies it. |
| Validate.AcceptedClusterStarts | internal/config/validate.go:22-31 | An accepted cluster starts with an empty list exactly when it is strict-DNS with only hostnames, and an accepted strict-DNS cluster meets the hypothesis of the refresh theorem. |
| Validate.AcceptedStaticGivesBack | internal/config/validate.go:15-43 | On an accepted static cluster with no cap within the breaker's reach, or without queue, every finished run with successful request builds released all it acquired, and the counters end at zero. |
| Validate.AcceptedClusterCanClose | internal/config/validate.go:22-43 | An accepted strict-DNS cluster of hostnames with a limit can be closed for good before its first lookup. |
| Validate.AcceptedRoutesResolve | internal/config/validate.go:46-56 | Under an accepted configuration a request is routed to an existing cluster, or no route matches and none is a catch-all. |

## Left out

- Listeners, TLS, SNI, admin endpoints, access logs, metrics rendering, the supervisor's reload, and the commands: I/O or thin wrappers.
- Configuration decoding, and the listener and file checks of `Validate`.
- Forwarded headers, request ids, per-route header edits, the copying of headers between hops, and the HTTP bodies of 429, 503 and 504 answers: easy string plumbing.
- The filter chain (internal/httpcm/types.go:53-60), which keeps running after a filter has responded: one easy loop.
- `net/http`, DNS lookups, probes, `net.SplitHostPort`, `net.ParseIP`, clocks and the random source are inputs; a configured endpoint carries how it splits.
- Contexts: a pending wait ends when the connection's context does, whatever the request timeout; when either context ends is an input.
- Upstream.WaitForCapacity: the number of refused polls is finite in each environment, so a wait that never ends is not a run of the method; in `Interleaving` waits may stay unfinished.
- Upstream.OneOutcome: speaks of finished requests only; whether a request finishes depends on outcomes of the shared state.
- Interleaving.Always: reads of an entry's fields after the lock is dropped are single atomic steps; counters are unbounded integers, since 2^63 requests in flight are not reachable in practice.
- Picker.PoliciesAgree: on a snapshot that does not change during the scan; interleaved scans are covered by `Safety.CapNearlyHolds`.
- Safety.CapNearlyHolds: excludes fallback picks of the endpoint, which skip the cap check in the code.
- TokenBucket.LevelIsTightestWindow: floats are reals, so rounding is not modelled.
- Translator.RespTranslator.Write: write errors of the downstream writer are not modelled, nor that a code from 100 to 199 is informational and leaves the final status to come; that only codes from 100 to 999 are taken is net/http's rule.
- Discovery.Cluster.ApplyEndpointSet: the order of the new list is unspecified, as is Go's map order; gauges are not modelled.
- Case folding is ASCII.
- RateLimiter.NewRateLimiter: in "ip" scope the model also carries a shared bucket that nothing reads.
- Translator.ParseHeaders: trimming knows ASCII white space only; the writer's own header map is taken to be empty at first.
- Interleaving.StepKeepsInv: Pick may report missing capacity whenever some endpoint of its snapshot is at its cap, and may fall back at any time, which allows every run of the code and some more; ejection and health do not restrict it there.
- Panics.RunPanicsExactly: nothing in the repository recovers from a panic of the backoff, and where no library above it does either it ends the process; the model ends the one request and lets the others go on.
- Bounds.ByOneExactly: speaks of configurations that give every slot back; kept slots count against the limit as well.
- Leaks.RefusesForGoodExactly: a continuation may install any endpoint list, as a refresh can.
- Refreshes.StaleUnionWins: a lookup that succeeds yields at least one address, with the seed's own port; addresses are otherwise opaque texts, of which there is no end.
- Health.EpState.MarkFailure: creating a missing entry is modelled in `Interleaving` and `Refreshes` only; the time an ejection ends is not bounded, and how Go's time arithmetic overflows is not modelled.
