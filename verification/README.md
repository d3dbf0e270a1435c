# heave: a verified model of its enforcement core

heave is a gateway between agents and model vendors. Before a request reaches a
vendor it *reserves* an estimate against every scope of its chain (org, team, app,
run, or client and run); afterwards it *settles* the reservation to what was really
used, or *releases* it. This project models that protocol in Dafny and proves what
it keeps over whole runs: on one instance, on a fleet of replicas over one shared
store, through the policy tree that supplies the scopes, and through the dispatch
loop, decision API, rate limit, budget and ledgers around it.

`dafny verify dfyconfig.toml` checks everything.

## How it is built

The code being modelled changes objects in place, so most components come twice: a
class whose methods take the same branches on the same fields, and a specification on
values that the class is proved to implement. The theorems about runs are proved of
the specification, by induction over sequences of operations.

- **One instance.** `WindowLog` is the reference model of a rolling window: an
  unbounded log of signed deltas, one floored value per second. `Window` proves the
  sixty-slot ring implements it, for clocks that go back too. `FirewallSpec` says
  what every firewall operation does; `Firewall` proves the object graph of scopes,
  rings and tickets does it. `FirewallSteps`, `FirewallAdmission`, `Targets`, `FirewallRuns`,
  `FirewallBounds`, `VelocityBound`, `VelocityExact`, `FallbackRelease`, `LoopDetection`,
  `Sweeps`, `KillStore`, `KillSafety` and `TripKills` hold the theorems.
- **A fleet.** `SharedSpec` is a store that forgets nothing; `RedisStore` proves that
  the scripts, which purge, reap and let keys expire, are indistinguishable from it.
  `SharedMode`, `SharedGate` and `SharedAnswers` are admission in front of the store. `Cluster`,
  `ClusterBounds`, `ClusterHolds`, `StoreVelocity`, `ClusterVelocity`, `ClusterBudget` and `FleetAdmission`
  interleave N replicas, crashes, time and failing store calls. `SameMinute` and `Equivalence` run one
  instance and the store side by side. `Guard`, `GuardEffect` and `GuardStalled` add
  reservation tokens that any replica may settle or release, any number of times.
- **The policy tree.** `PolicySpec` and `Resolution` (resolution stated without its
  walk), `Policy` (the store as it runs), `Enforcer`, and `Umbrella`,
  `UmbrellaCounts` and `Breaker`, which put tree and firewall together.
- **Around it.** `Broker`, `BrokerBound`, `BrokerTokens`, `Dispatch`, `DispatchProofs`, `Controls`,
  `Ledger`, `LedgerWriter`, `LedgerWriterProofs`.

Dollars are reals. Firewall times are whole nanoseconds and window seconds are their
integer quotient; the store, leases and claims count whole seconds; the token bucket
uses real seconds. What comes from outside is a parameter: clock readings, whether a
store call is lost and whether it took effect first, what the shared kill store
answers, how a provider call ends.

## Where the code does not keep a promise

Each of these statements one might expect is false of the code. Each has a run in which it
fails, and the exact condition under which the property holds, or an exact account of by
how much it fails, is proved for all runs.

- *Admissions of a minute stay within the velocity cap.* A reconcile is booked in the
  current second, so it can erase another request's reservation
  (`VelocityExact.LateReleaseErasesAnother`). In every run the cap, or the largest
  estimate if that is larger, is passed by no more than what was reconciled downward in
  those seconds (`VelocityBound.VelocityBoundHolds`), and that much is reached for any
  amount up to half the cap. The fleet is bounded alike
  (`ClusterVelocity.FleetVelocityBound`), and so are a provider's requests and tokens
  when leases are given back or settled low (`BrokerBound.RequestsWithinQuota`,
  `BrokerTokens.TokensWithinQuota`).
- *One instance and the shared store give the same verdicts.* An instance does not check a
  scope it has never seen, the store does (`Equivalence.FirstOversizedRequestDiffers`).
  They agree throughout if and only if the instance never admits a request too large for
  a scope it has no window for (`Equivalence.SameVerdictsIff`).
- *A reservation token is applied at most once.* Checking a token and claiming its nonce
  are separate steps, and a second application makes the store admit past a cap
  (`GuardStalled.StalledHandlerAppliesTwice`). While the claim store is up a token is
  applied at most once if and only if it is never claimed a lease or more after a claim
  of it was won (`Guard.AtMostOnceIff`).
- *With a shared store, a run stays within its budget.* A request held by the store does
  not pin its run's budget on the instance (`ClusterBudget.SlowRunPassesItsCap`). In every
  run the cap is passed by no more than what was pending when the budget was dropped
  (`ClusterBudget.RunWithinCapAndForgotten`), and the account is exact if and only if no
  sweep drops it under held estimates and nothing is billed to a dropped one
  (`ClusterBudget.RunAccountExactIff`).
- *The ledger's totals agree after `Close`.* A `Write` past its closed-check can send after
  the sweep (`LedgerWriterProofs.WriteCanOutliveClose`); they agree if and only if no
  `Write` was caught there (`LedgerWriterProofs.ExactAfterClose`).
- *A client's spend is what its reservations were settled for and still hold.* A second
  settle is booked on top of the first (`Controls.SecondSettleIsBooked`), and a settle after
  the month has changed is booked on the new month (`Controls.LateSettleIsBooked`). The spend
  is exact throughout if and only if no settle of a reservation already settled, or of an
  earlier month, moves it (`Controls.SpendExactIff`); the dispatch loop settles each exactly once
  (`DispatchProofs.SettledExactlyOnce`).

One more condition is worth knowing. The store's whole-key expiry is safe because all
holds have one lifetime (`RedisStore.KeyExpiryIsSafeIff` says exactly when); replicas
configured with different lifetimes would not have it.

The comment on the guard handlers says a late reconcile is a no-op; the code makes it so
only for handlers that read the clock after the lease ended, and the model follows the
code.

## Model

| member | source | states |
|---|---|---|
| `WindowLog.TotalBounds` | internal/firewall/firewall.go:1031-1059 | the sum of any stretch of seconds lies between the signed total of the deltas stamped in it and the total of the positive ones |
| `WindowLog.TotalAppend` | internal/firewall/firewall.go:1031-1041 | booking a delta moves the sum of a stretch by the floored change of its own second only, and only if that second is in the stretch |
| `Windows.SlotSumIsWindowSum` | internal/firewall/firewall.go:1044-1059 | adding the sixty slots in array order gives the sum of the last sixty seconds of an unbounded log |
| `Windows.TracksAdvance` | internal/firewall/firewall.go:1005-1028 | clearing exactly the slots of the seconds that passed keeps slot s mod 60 equal to second s of the log |
| `Windows.TracksAppend` | internal/firewall/firewall.go:1031-1041 | moving the current slot by a delta, floored at zero, is one more entry in the log |
| `Windows.AdvanceDoesNotChangeSums` | internal/firewall/firewall.go:1005-1028 | reading a window early never changes what a later reading returns |
| `Windows.Window.ClearElapsed` | internal/firewall/firewall.go:1012-1027 | the slots of the seconds passed are zero and the slots still in the last minute are kept, for gaps below and above sixty |
| `Windows.Window.Advance` | internal/firewall/firewall.go:1005-1028 | the ring follows the log for any clock reading, including one that goes back |
| `Windows.Window.Add` | internal/firewall/firewall.go:1031-1041 | the ring after an add is the log with one more stamped entry in each dimension |
| `Windows.Window.Sum` | internal/firewall/firewall.go:1044-1059 | the sum returned is the window sum of the log |
| `KillStore.RefusedOnlyWhenFullOfLiveKills` | internal/firewall/firewall.go:328-343 | a kill is refused if and only if the run is new and the map holds cap kills none of which has expired |
| `KillStore.CapKept` | internal/firewall/firewall.go:328-378 | no operation lets the kill map grow past its cap |
| `KillStore.MemKillStore.Kill` | internal/firewall/firewall.go:328-343 | the map, the refusal count and the answer after a kill |
| `KillStore.MemKillStore.Killed` | internal/firewall/firewall.go:346-362 | a live kill is reported and refreshed, an expired one is dropped |
| `KillStore.MemKillStore.GC` | internal/firewall/firewall.go:366-378 | the sweep removes exactly the expired kills |
| `KillSafety.KillHolds` | internal/firewall/firewall.go:274-284 | after a kill every later check reports the run killed and every later request on it is denied, in any run of operations whose clock does not go back and which touches the run at least every ttl |
| `KillSafety.KillTakesEffect` | internal/firewall/firewall.go:289-300 | a kill reported as recorded is in force from that moment |
| `KillSafety.KillMapBounded` | internal/firewall/firewall.go:315-378 | in every reachable state of the firewall the kill map is within its cap |
| `TripKills.TripKillsIff` | internal/firewall/firewall.go:483-518 | a request that loops or does not fit its run budget is denied and leaves its run killed from that moment, unless cap kills of other runs are live; no other request kills a run |
| `TripKills.TrippedRunStaysKilled` | internal/firewall/firewall.go:274-300 | after such a trip every later request on the run is denied and every check reports it killed, for as long as it is asked about at least every ttl |
| `TripKills.ReportedIff` | internal/firewall/firewall.go:274-284 | a check reports a run killed exactly when the shared kill store does or a kill of it is live here |
| `TripKills.KilledElsewhereIsDenied` | internal/firewall/firewall.go:483-500 | a request on a run that either of them reports killed is denied and hands out no ticket; any other one reaches the lock |
| `TripKills.SharedTripKills` | internal/firewall/firewall.go:614-648 | with a shared store a trip kills the run on the instance in the same way, and the store is not asked |
| `Keys.FlatRunKeyInjective` | internal/firewall/firewall.go:904-909 | the length-prefixed run key determines owner and run id, whatever bytes they contain |
| `Keys.ItoaInjective` | internal/firewall/firewall.go:904-909 | the decimal length prefix determines the length |
| `FirewallAdmission.CheckReservePasses` | internal/firewall/firewall.go:573-594 | the ordered two-pass check passes exactly when every scope of the chain has room in both windows and a free slot |
| `FirewallAdmission.EnterLockedAdmitsIff` | internal/firewall/firewall.go:523-539 | a request is admitted under the lock exactly when it does not loop, its run has budget, and its whole chain fits |
| `FirewallAdmission.EnterLockedReadings` | internal/firewall/firewall.go:523-607 | a denial, after a rollback too, leaves every count, budget and window sum as the sweep left it; an admission adds one slot per scope and the estimate to the run |
| `FirewallAdmission.AdmittedFits` | internal/firewall/firewall.go:420-539 | an admitted request had a free slot on every scope of its chain, fitted each velocity cap or met an empty window, and its run is within budget afterwards |
| `FirewallAdmission.DenialSays` | internal/firewall/firewall.go:573-594 | a velocity denial names the first scope of the chain whose window the estimate would overfill and says to wait sixty seconds; a concurrency denial names the first full scope and comes only when every window has room |
| `Targets.HoldsWhatItAsks` | internal/firewall/firewall.go:395-477 | an admitted request holds its floored estimate on exactly the scopes it asks for, told from the request alone: client and run with the configured caps, or the chain; and on the run it asks for if that has a budget |
| `Targets.AskedCapsRespected` | internal/firewall/firewall.go:420-594 | in every reachable state a request is admitted only if every scope it asks for had a slot, and room in its windows or nothing in them, and the run it asks for is then within its budget |
| `Targets.MalformedIsRefused` | internal/firewall/firewall.go:456-477 | a chain with an empty key, a key over 512 characters or two run scopes is refused as such and changes nothing, and no other request is |
| `FirewallAdmission.EnterTicket` | internal/firewall/firewall.go:398-433 | the ticket names exactly the scopes of the chain and the floored estimate |
| `FirewallSteps.GCReadings` | internal/firewall/firewall.go:968-987 | the sweep changes no count and no window sum, and drops only scopes with nothing in flight |
| `FirewallSteps.CheckLoopBudgetReadings` | internal/firewall/firewall.go:546-567 | the budget step holds exactly the estimate, on the run alone, only if the run stays within its cap, and nothing when it trips |
| `FirewallSteps.CheckVelocitiesReadings` | internal/firewall/firewall.go:921-937 | checking reserves nothing |
| `FirewallSteps.ReserveAllReadings` | internal/firewall/firewall.go:585-592 | reserving adds one in flight for each time a scope is named and touches no budget |
| `FirewallSteps.ReleaseAllReadings` | internal/firewall/firewall.go:756-770 | releasing takes away exactly what reserving added |
| `FirewallRuns.AccountingExact` | internal/firewall/firewall.go:523-789 | in every reachable state the in-flight count of each scope is the number of unreleased tickets naming it, and each run budget is the actuals settled since the scope was created plus the live estimates |
| `FirewallRuns.StepKeepsInv` | internal/firewall/firewall.go:420-789 | each operation keeps that accounting |
| `FirewallRuns.LiveTicketCovered` | internal/firewall/firewall.go:705-789 | a live ticket is always covered by the counts it will give back, so the guards against negative counts and budgets never fire |
| `FirewallRuns.NothingHeldNothingPending` | internal/firewall/firewall.go:968-987 | a scope with nothing in flight has no estimate pending on its budget |
| `FirewallBounds.ConcurrencyBound` | internal/firewall/firewall.go:573-594 | requests in flight on a scope never exceed its fixed cap |
| `FirewallBounds.ExposureBound` | internal/firewall/firewall.go:546-594 | run spend plus e for every ticket that may still settle above its estimate stays within the budget plus e times the in-flight cap of any scope all requests of the run name |
| `FirewallBounds.RunBudgetBound` | internal/firewall/firewall.go:546-789 | run spend never exceeds budget + e times the in-flight cap of any scope all requests of the run name, when settles bill at most e above their estimate |
| `FirewallBounds.RunBudgetAbsolute` | internal/firewall/firewall.go:546-789 | when none bills above its estimate the budget is absolute, with no in-flight cap anywhere |
| `FirewallBounds.RepeatedReconcileIsIdentity` | internal/firewall/firewall.go:705-789 | a settle after a settle or a release of the same ticket, or a second release, changes nothing at all, wherever it comes in a run |
| `FirewallBounds.SweepKeepsLiveScopes` | internal/firewall/firewall.go:968-987 | the sweep never drops a scope that an unreleased ticket names |
| `FirewallBounds.DeniedChangesNothing` | internal/firewall/firewall.go:420-607 | a denied request changes no count, no window sum and no ticket; the only budgets that can read differently are those of idle runs its sweep dropped |
| `FirewallBounds.ReleasedAtOnceHoldsNothing` | internal/server/guard.go:186-200 | a reservation that fell back to local enforcement and is released at once leaves every slot count as it was and no estimate pending on a run |
| `FallbackRelease.ReleasedAtOnceReadings` | internal/server/guard.go:186-200 | released in the second it was admitted in it leaves every window sum, then and later, as it would have been; released in a later one its estimate stays until it is a minute old |
| `VelocityBound.VelocityBoundHolds` | internal/firewall/firewall.go:573-789 | in every run the estimates admitted on a scope in any sixty consecutive seconds total at most its cap or the largest estimate, whichever is larger, and what was reconciled downward on it in those seconds, in dollars and in tokens |
| `VelocityBound.VelocityCapHolds` | internal/firewall/firewall.go:573-789 | in a run without downward reconciles they total at most the cap or the largest estimate, whichever is larger |
| `VelocityExact.LateReleaseErasesAnother` | internal/firewall/firewall.go:1031-1041 | for any part up to half the cap, a run of four operations in which the late release of such a part erases another request: the cap and that part again are admitted within a minute, so the cap is passed by exactly what was reconciled downward |
| `LoopDetection.DetectionComplete` | internal/firewall/firewall.go:942-964 | checking only the newest prompt trips at some point exactly when some hash occurs threshold times within one history length of consecutive prompts |
| `LoopDetection.DetectionInRuns` | internal/firewall/firewall.go:942-987 | in every run of the firewall some prompt of a run id trips if and only if some hash came threshold times within one history length of its prompts, with no sweep dropping the history between |
| `LoopDetection.HistoryIsSuffix` | internal/firewall/firewall.go:950-957 | the stored history is exactly the newest max(8, 2 x threshold) prompts, that number written out |
| `LoopDetection.RepeatedPromptTrips` | internal/firewall/firewall.go:942-964 | in every run of the firewall a hash that comes threshold times among at most 2 x threshold consecutive prompts of a run trips it |
| `LoopDetection.FirewallFollowsHistory` | internal/firewall/firewall.go:942-987 | in every run of the firewall, among any other operations, the history kept for a run id is that of its prompts since a sweep last dropped it |
| `LoopDetection.LoopsIff` | internal/firewall/firewall.go:942-964 | a request trips the loop check exactly when its prompt trips that history |
| `LoopDetection.LoopsDeny` | internal/firewall/firewall.go:504-539 | a request that trips is denied as killed, and with room in the run budget only such a request is |
| `Sweeps.SweptExactly` | internal/firewall/firewall.go:968-987 | in every run, a sweep comes with the first request at the lock 30 seconds after the last one, or at 50,000 scopes, and drops exactly the scopes with nothing in flight, nothing in their windows and no reservation for two minutes |
| `Sweeps.HistoriesSweptExactly` | internal/firewall/firewall.go:968-987 | and exactly the prompt histories of runs that sent no prompt for two minutes |
| `Sweeps.KillsSweptExactly` | internal/firewall/firewall.go:968-987 | and every expired kill and no other |
| `Firewalls.Firewall.GC` | internal/firewall/firewall.go:968-987 | the sweep over scope objects, loop histories and kills does what the value-level sweep does, at the same times |
| `Firewalls.Firewall.SweepScopes` | internal/firewall/firewall.go:972-980 | exactly the idle scopes go, and every scope is read once, whatever the order |
| `Firewalls.Firewall.EnsureScope` | internal/firewall/firewall.go:911-918 | a scope is found or created and stamped, and no other scope changes |
| `Firewalls.Firewall.CheckVelocities` | internal/firewall/firewall.go:921-937 | the velocity pass stops at the first breach in chain order and skips scopes the instance has not seen |
| `Firewalls.Firewall.CheckReserve` | internal/firewall/firewall.go:573-594 | all scopes are checked before any is reserved |
| `Firewalls.Firewall.RememberPrompt` | internal/firewall/firewall.go:950-963 | the loop counts exactly the occurrences of the newest hash in the kept history |
| `Firewalls.Firewall.TripLoop` | internal/firewall/firewall.go:942-964 | the run's history and verdict after one more prompt |
| `Firewalls.Firewall.CheckBudget` | internal/firewall/firewall.go:556-566 | the estimate is held exactly when the run has room for it |
| `Firewalls.Firewall.CheckLoopBudget` | internal/firewall/firewall.go:546-567 | loop check, then budget check, then the hold, in that order and with nothing else changed |
| `Firewalls.Firewall.Unreserve` | internal/firewall/firewall.go:597-607 | the rollback of a budget hold, floored at zero, on that run alone |
| `Firewalls.Firewall.EnterLocked` | internal/firewall/firewall.go:523-539 | the locked part of admission on the object graph equals its value-level meaning |
| `Firewalls.Firewall.IsKilled` | internal/firewall/firewall.go:274-284 | the local map or the shared answer decides, and an empty run key is never killed |
| `Firewalls.Firewall.EnterCore` | internal/firewall/firewall.go:483-518 | kill check first, estimates floored at zero, a trip turned into a kill |
| `Firewalls.Firewall.Enter` | internal/firewall/firewall.go:420-433 | the flat gate is the two-scope chain of client and run |
| `Firewalls.Firewall.InspectChain` | internal/firewall/firewall.go:460-475 | a chain is refused exactly when a key is empty or too long or two scopes are runs; otherwise its run key and run cap are found |
| `Firewalls.Firewall.EnterChain` | internal/firewall/firewall.go:456-477 | the chain gate equals its value-level meaning, malformed chains included |
| `Firewalls.HeldTicket.Settle` | internal/firewall/firewall.go:705-742 | settling moves every window of the ticket and its run budget from the estimate to the actual, once |
| `Firewalls.HeldTicket.Release` | internal/firewall/firewall.go:746-789 | releasing frees each slot and takes back an unsettled estimate, once |
| `Firewalls.Firewall.ReserveLocal` | internal/firewall/firewall.go:654-660 | in shared mode only the loop and budget checks stay on the instance |
| `Firewalls.Firewall.ReserveScopesLocal` | internal/firewall/firewall.go:666-676 | the fallback checks and reserves locally and rolls the budget back when it denies |
| `RedisStore.ExpiryIsInvisible` | internal/redisstore/scopestore.go:40-101 | expiry of a whole velocity key never drops a second that still counts |
| `RedisStore.PurgeIsInvisible` | internal/redisstore/scopestore.go:49-61 | deleting fields older than the window changes no later sum |
| `RedisStore.ExpiryKeepsHolds` | internal/redisstore/scopestore.go:74-78 | expiry of a whole hold set never drops an unexpired hold while all holds have one lifetime |
| `RedisStore.KeyExpiryIsSafeIff` | internal/redisstore/scopestore.go:74-78 | whole-key expiry is harmless at every time exactly when no member outlasts the key |
| `RedisStore.Redis.SumAndPurge` | internal/redisstore/scopestore.go:49-61 | the loop over a hash returns the window sum of everything ever booked and only forgets what no longer counts |
| `RedisStore.Redis.ReapAndCount` | internal/redisstore/scopestore.go:63-66 | after reaping, the set counts exactly the unexpired holds |
| `RedisStore.Redis.CheckScope` | internal/redisstore/scopestore.go:45-67 | one scope is checked dollars first, then tokens, then concurrency |
| `RedisStore.Redis.Reserve` | internal/redisstore/scopestore.go:40-78 | the reserve script answers and changes the store as the store that forgets nothing does: all scopes or none |
| `RedisStore.Redis.Adjust` | internal/redisstore/scopestore.go:84-101 | the adjust script books the signed difference in the current second, floored, and skips zero differences |
| `RedisStore.Redis.FreeHolds` | internal/redisstore/scopestore.go:105-108 | the release script removes one hold from every set and nothing else |
| `RedisStore.Redis.Release` | internal/redisstore/scopestore.go:155-169 | holds go, and the estimate of an unsettled request is taken back |
| `SharedSpec.HoldTTL` | internal/redisstore/redisstore.go:46-50 | the hold lifetime never falls below its floor |
| `SharedMode.CheckAllPasses` | internal/redisstore/scopestore.go:45-67 | the script admits exactly when every scope passes its own check |
| `SharedMode.RefusalNames` | internal/redisstore/scopestore.go:45-67 | a refusal changes nothing and names the first scope that does not pass, for concurrency exactly when both of its velocity caps have room |
| `SharedMode.ReserveAllHolds` | internal/redisstore/scopestore.go:69-76 | reserving adds the caller's hold to exactly the scopes with a concurrency cap |
| `SharedMode.SharedCaps` | internal/firewall/firewall.go:689-701 | exactly the scopes with a velocity or concurrency cap go to the store, each with its own caps |
| `ClusterBudget.RunAccountExactIff` | internal/firewall/firewall.go:614-789 | on a fleet over a shared store an instance counts, at every point, exactly what a run was billed and what is held on it if and only if no sweep drops the budget while estimates are held on it and no usage is billed to a dropped budget |
| `ClusterBudget.RunWithinCapAndForgotten` | internal/firewall/firewall.go:546-567 | in every run of the fleet, with no bill above its estimate, what a run was billed since its budget was last dropped is at most its cap and what was pending on it at that drop |
| `ClusterBudget.ExactRunWithinCap` | internal/firewall/firewall.go:546-567 | an account that never forgets keeps its run within its cap |
| `ClusterBudget.SlowRunPassesItsCap` | internal/firewall/firewall.go:968-987 | a live request held by the store does not pin its run budget: a run of seven events drops it and bills the run past its cap, each request exactly its estimate |
| `SharedGate.Entrance.CapsFor` | internal/firewall/firewall.go:689-701 | the slices handed to the store |
| `SharedGate.Entrance.FallBack` | internal/firewall/firewall.go:634-642 | an unreachable store means local enforcement, counted as degraded |
| `SharedGate.Entrance.Enter` | internal/firewall/firewall.go:614-648 | admission over instance and store together, with store calls lost before or after taking effect |
| `FleetAdmission.UninterruptedAdmission` | internal/firewall/firewall.go:614-648 | the fleet's separate events, run back to back, are one such admission |
| `SharedAnswers.AnswersSay` | internal/firewall/firewall.go:614-648 | what such an admission answers: a trip is denied without asking the store; the store decides when it answers, and a refusal changes nothing in it, names the first scope that does not pass and gives the run its estimate back; when the call is lost that is counted once and the instance decides on its own readings |
| `ClusterBounds.FleetBound` | internal/redisstore/scopestore.go:40-78 | over every interleaving of requests, releases, crashes and clock ticks on N replicas, requests of a scope younger than the hold lifetime never exceed its cap while store calls succeed |
| `ClusterBounds.FleetBoundWithFaults` | internal/firewall/firewall.go:614-676 | with store calls failing at will, before or after taking effect, they never exceed (N+1) times the cap |
| `ClusterVelocity.FleetVelocityBound` | internal/redisstore/scopestore.go:40-101 | over every interleaving, with crashes and lost calls, the estimates the store admits on a scope in any sixty consecutive seconds total at most its cap and what was adjusted downward on it in those seconds, in dollars and in tokens |
| `Cluster.RunKeepsInv` | internal/firewall/firewall.go:614-789 | in every reachable state of the fleet each instance's counters are exactly its own live requests and every young request in the store still has its hold |
| `Cluster.ReserveKeepsLive` | internal/redisstore/scopestore.go:40-78 | a reservation never pushes the unexpired holds of a scope past its cap |
| `Cluster.FallBackRoom` | internal/firewall/firewall.go:666-676 | an instance never admits past the cap on its own |
| `ClusterHolds.HoldsExact` | internal/redisstore/scopestore.go:40-108 | in every run of the fleet, with crashes and lost calls, the store keeps a hold of a request on a scope exactly when it took the request, has not freed it since, and the request bounds concurrency there |
| `Equivalence.SameVerdictsIff` | internal/firewall/firewall.go:573-594 | in every orderly run one instance and the shared store give the same verdicts, request for request, if and only if the instance never admits a request too large for a scope it has no window for |
| `Equivalence.SameVerdicts` | internal/redisstore/scopestore.go:40-78 | so they do when every estimate fits the caps of its scopes alone |
| `Equivalence.AskAgrees` | internal/firewall/firewall.go:921-937 | one request: the two answers are the same exactly when the instance does not admit a request too large for a scope it has no window for, and then both sides agree on the last minute and the holds afterwards |
| `Equivalence.SettleAgrees` | internal/redisstore/scopestore.go:84-101 | a settle keeps the two sides in agreement, zero differences skipped by one of them included |
| `Equivalence.ReleaseAgrees` | internal/redisstore/scopestore.go:155-169 | a release keeps the two sides in agreement |
| `Equivalence.SweepAgrees` | internal/firewall/firewall.go:968-987 | what the local sweep forgets is nothing the store still counts |
| `Equivalence.FirstOversizedRequestDiffers` | internal/firewall/firewall.go:925-928 | a new instance admits any first request, on any chain; the store admits it exactly when every scope has room for it alone |
| `Guard.SecondClaimAfterExpiry` | internal/server/guard.go:54-84 | whoever wins a second claim of a nonce does so at least a lease after the first, when the token has expired |
| `Guard.AppliedAtMostOnce` | internal/server/guard.go:209-270 | over any replicas and any replay of tokens a reservation is applied at most once, plus once for each claim-store failure on it, unless it is claimed a lease or more after a claim of it was won |
| `Guard.AtMostOnceIff` | internal/server/guard.go:54-70 | while the claim store is up, a reservation is let through at most once if and only if it is never claimed a lease or more after a claim of it was won, and once all handlers are done the same holds of its applications |
| `Guard.PromptIsNeverLate` | internal/server/guard.go:54-84 | handlers of a token that claim before its lease ends are never that late |
| `Guard.OnlyPresentedTokens` | internal/server/guard.go:86-264 | in every run each handler waiting, each one let through and each claim recorded is of a token that was presented before it expired |
| `Guard.ExpiredIsNeverApplied` | internal/server/guard.go:86-264 | a token never presented before it expired is never applied and leaves no claim |
| `Guard.LatePresentationIsNothing` | internal/server/guard.go:86-264 | presenting a token once it has expired, anywhere in a run, leaves the whole rest of the run as it would have been |
| `Guard.HeardIff` | internal/server/guard.go:52-112 | a token is heard for exactly the request timeout and a minute after it was handed out, and hearing it changes nothing else |
| `Guard.FirstIsLetThrough` | internal/server/guard.go:56-68 | in every run the first handler of a token is let through to apply its action, and so is every one whose claim call fails |
| `GuardStalled.StalledHandlerAppliesTwice` | internal/server/guard.go:61-68 | a handler that checks a token in time and stalls past the lease releases its reservation a second time and takes another out of the window: the store then admits the cap and part of it again in one second, none of it reconciled |
| `GuardEffect.EveryApplicationCounts` | internal/server/guard.go:209-270 | in every run, with claims and store calls failing at will and any number of applications, the sum of bookings on a scope in any span of seconds is exactly the estimates held and what every application moved in that span, and no reservation that was given back holds a slot |
| `GuardEffect.ReadsAtLeastBooked` | internal/server/guard.go:209-270 | so the window the store reads holds at least the estimates held in the last minute and what the applications of that minute moved |
| `GuardEffect.ReplaysCountOnce` | internal/server/guard.go:209-270 | with no call lost and no late claim, however tokens are replayed, the sum of bookings on a scope is exactly the estimates of the open reservations and the actuals of the settled ones, and no reconciled reservation holds a slot |
| `GuardEffect.ReconcileMoves` | internal/firewall/firewall.go:836-846 | one application moves the bookings on each scope from the estimate to the actual, or to nothing, and frees the hold, but for the calls lost on the way |
| `Resolution.ResolveIsFullOrError` | internal/policy/policy.go:266-334 | on any well-keyed store, with any records missing, resolution returns the full ancestry ending at an org, root first, with the tightest run cap and the killed node nearest the root, or the error that says why there is none |
| `Resolution.UpFindsAncestry` | internal/policy/policy.go:291-308 | the walk ends and finds the one ancestry of a node exactly when there is one |
| `Resolution.RunCapIsTightest` | internal/policy/policy.go:337-348 | the run cap is zero when no ancestor caps runs and the smallest ancestor cap otherwise |
| `Resolution.KilledByNearestRoot` | internal/policy/policy.go:313-317 | the node reported killed is the one nearest the root |
| `Resolution.RunsAreGrown` | internal/policy/policy.go:147-251 | on every store reached through the API all ids and limits are valid, parents exist and keys point at nodes |
| `Resolution.ResolveNeverBroken` | internal/policy/policy.go:266-334 | on every store reached through the API resolution never reports a broken chain |
| `Resolution.RunKeyInjective` | internal/policy/policy.go:319-332 | the run key determines leaf node, key hash and run id, whatever bytes the hash contains |
| `Resolution.KeyFamiliesDisjoint` | internal/policy/policy.go:67-87 | node keys, policy run keys, flat run keys and client keys never meet |
| `Resolution.ResolvedKeysDistinct` | internal/policy/policy.go:310-332 | a resolved chain names pairwise distinct scopes |
| `PolicySpec.ParentIsOneUp` | internal/policy/policy.go:33-41 | a parent record is one level up, so walking up ends |
| `PolicySpec.RefInjective` | internal/policy/policy.go:67-69 | a node key determines type and id |
| `Policy.Store.Put` | internal/policy/policy.go:180-189 | a node is stored once, under its own key, and nothing else changes |
| `Policy.Store.PutChild` | internal/policy/policy.go:191-203 | a child needs its parent |
| `Policy.Store.CreateOrg` | internal/policy/policy.go:148-156 | validation, then storage |
| `Policy.Store.CreateTeam` | internal/policy/policy.go:159-167 | validation, then storage under an org |
| `Policy.Store.CreateApp` | internal/policy/policy.go:170-178 | validation, then storage under a team |
| `Policy.Store.SetLimits` | internal/policy/policy.go:206-218 | one node's caps change and no other node does |
| `Policy.Store.SetKilled` | internal/policy/policy.go:222-236 | one node's breaker changes and no other node does |
| `Policy.Store.IssueKey` | internal/policy/policy.go:240-251 | a key points at exactly one existing node |
| `Policy.Store.Walk` | internal/policy/policy.go:291-304 | the upward loop over records collects the whole ancestry or reports it missing |
| `Policy.Store.Emit` | internal/policy/policy.go:310-326 | the downward loop emits the scopes root first with breaker and run cap |
| `Policy.Store.Resolve` | internal/policy/policy.go:266-334 | resolution over the record graph equals its value-level meaning |
| `Enforcer.ResolvedChainWellFormed` | internal/enforcer/enforcer.go:32-47 | every resolved chain passes the firewall's checks and carries the policy run key, for key hashes up to 245 characters |
| `Umbrella.UInvHolds` | internal/enforcer/enforcer.go:68-77 | in every reachable state each ticket of a governed key names exactly the key's node and its ancestors, and tickets of other clients name no node |
| `Umbrella.ManagingMovesNothing` | internal/policy/policy.go:147-251 | no management call moves a node that exists |
| `UmbrellaCounts.NodeCountsItsSubtree` | internal/firewall/firewall.go:456-477 | a node's in-flight count is the number of live requests from keys at or under it |
| `UmbrellaCounts.ParentCountsItsChildren` | internal/policy/policy.go:1-13 | a parent's count is at least the sum of any of its children's, and is the sum over all of them plus its own keys' live requests |
| `UmbrellaCounts.SubtreeWithinNodeCap` | internal/firewall/firewall.go:573-594 | a whole subtree never has more in flight than its node's fixed cap |
| `Breaker.DeniedBeforeIff` | internal/enforcer/enforcer.go:68-77 | on every store reached through the API a call is denied before the firewall exactly when its run id is malformed or its key is governed and some node at or above the key's is killed |
| `Breaker.BreakerHolds` | internal/server/server.go:466-486 | in every reachable state a call under a killed node leaves the firewall, every ticket and the tree as they were |
| `Breaker.KilledUntilReset` | internal/policy/policy.go:222-236 | once a node is killed, whatever else is managed or called and until it is reset, every call at or under it is stopped so |
| `Breaker.AskedChain` | internal/enforcer/enforcer.go:32-77 | a governed call asks the firewall for exactly the caps stored of its node and of every node above it, and for its run with the tightest run cap among them |
| `Breaker.AskedFlat` | internal/enforcer/enforcer.go:68-77 | a call whose key the policy does not know asks for its client's own scopes |
| `Breaker.AnsweredAs` | internal/policy/policy.go:71-251 | every management call is answered by what is wrong with it first, a bad id, a negative cap, a missing node or parent, a name taken, all written out; nothing else is refused and a refused call changes nothing |
| `Breaker.SetKilledFelt` | internal/policy/policy.go:222-236 | setting a breaker stops or frees exactly the calls at and under its node |
| `Breaker.SetLimitsFelt` | internal/policy/policy.go:206-218 | setting caps changes what calls at and under the node ask of the firewall to exactly those caps, and nothing else |
| `Breaker.IssueKeyFelt` | internal/policy/policy.go:240-251 | an issued key governs its calls by the node it was issued for, and other keys are as they were |
| `Breaker.CreatedFelt` | internal/policy/policy.go:147-203 | a new node stands directly below its parent, not killed and with the caps it was given |
| `BrokerBound.RequestsWithinQuota` | internal/broker/broker.go:80-151 | over all replicas the requests to a provider let through in any sixty seconds are at most RPM and those given back in these seconds, while store calls succeed |
| `BrokerTokens.TokensBooked` | internal/broker/broker.go:80-151 | the tokens booked on a provider in any span of seconds are the estimates of the leases taken in it and, for each lease reconciled in it, the actual minus the estimate for a settle and minus the estimate for a release |
| `BrokerTokens.TokensWithinQuota` | internal/broker/broker.go:80-151 | over all replicas the token estimates let through in any sixty seconds are at most TPM and what settles and releases took back in these seconds, while store calls succeed |
| `Broker.ReconciledOnce` | internal/broker/broker.go:121-151 | a lease moves the store's windows at most once, however it is settled and released |
| `Broker.Broker.Reserve` | internal/broker/broker.go:80-102 | inactive brokering admits, a store failure admits and is counted, a refusal has a retry hint, and a lease names the dimensions reserved |
| `Broker.Lease.Settle` | internal/broker/broker.go:121-131 | tokens move to what was used, the request stays counted, once |
| `Broker.Lease.Release` | internal/broker/broker.go:137-151 | only reserved dimensions are taken back, once, and nothing after a settle |
| `Dispatch.RunCandidates` | internal/server/server.go:546-608 | the loop does exactly what the candidates up to the first success, terminal error or sent byte call for, and keeps the wait of the last one found at its quota |
| `Dispatch.Try` | internal/server/server.go:571-605 | one dispatch: lease taken before, ended after, kept when bytes were sent |
| `Dispatch.RecordSuccess` | internal/server/server.go:638-658 | a served request is billed its cost, or its estimate when no usage came back |
| `Dispatch.ServeUnary` | internal/server/server.go:660-676 | attempts, then exactly one way of settling |
| `Dispatch.ServeStreaming` | internal/server/server.go:678-716 | attempts, then exactly one way of settling, a broken stream charged its estimate |
| `Dispatch.HandleChat` | internal/server/server.go:427-513 | every return path from the budget reservation to the reply; the reply says 429, with the last wait heard, only when a quota was full and nothing was sent, and 503 only when there was nobody to ask |
| `DispatchProofs.LeasesEndOnce` | internal/server/server.go:546-608 | a candidate is sent the request once if every one before it was skipped or failed in a way that may be retried, and never otherwise; every lease taken ends once, every failure is recorded once, and at most one lease ends settled, that of the candidate that served or broke off, for the tokens it reported or the estimate |
| `DispatchProofs.LeaseAroundSend` | internal/server/server.go:563-598 | a lease is taken just before its request is sent and ended just after |
| `DispatchProofs.SettledExactlyOnce` | internal/server/server.go:384-513 | on every return path the budget reservation is settled exactly once; a finished request is charged the same dollars and tokens in budget, ticket and ledger, those of the candidate that served or the estimate, and any other gives its whole reservation back; a held ticket is released exactly once, last |
| `Controls.RateHolds` | internal/controls/controls.go:219-254 | over any interval at most capacity plus refill times its length calls are admitted |
| `Controls.AdmittedIff` | internal/controls/controls.go:219-254 | with a limit of rpm a call is admitted if and only if, counted from every earlier call, it keeps to a burst of rpm and rpm more a minute |
| `Controls.RateHoldsAnyClock` | internal/controls/controls.go:230-254 | whatever the clock does, back and forth, no more calls are admitted in all than the capacity and what refills from the first reading to the latest |
| `Controls.WaitIsLeast` | internal/controls/controls.go:249-253 | the wait returned on a denial is the least whole number of seconds after which an undisturbed call succeeds |
| `Controls.Bucket.Allow` | internal/controls/controls.go:233-254 | tokens, time and answer after one call, for any clock |
| `Controls.SpendExactIff` | internal/controls/controls.go:151-199 | over any number of months the spend is this month's settled actuals and live estimates at every point if and only if no settle of a reservation that is already settled, or was taken in an earlier month, moves it |
| `Controls.BudgetHolds` | internal/controls/controls.go:151-199 | it then exceeds the budget by no more than settles went above their estimates |
| `Controls.TakeBalances` | internal/controls/controls.go:151-199 | a reservation is held exactly when the month has room for it, and a month begins with nothing spent |
| `Controls.PaidOnceNeverMisbooks` | internal/controls/controls.go:174-184 | settling each reservation at most once and in its own month never moves it so |
| `Controls.SecondSettleIsBooked` | internal/controls/controls.go:174-184 | a run of three calls in which a second settle is booked on top of the first, so that the spend is not what was settled |
| `Controls.LateSettleIsBooked` | internal/controls/controls.go:174-184 | a run of three calls in which a reservation of one month is settled in the next, and the difference is booked on a month that never held its estimate |
| `Controls.ClientState.Reserve` | internal/controls/controls.go:151-169 | the month rolls before the cap is checked, and a refusal holds nothing |
| `Controls.ClientState.Settle` | internal/controls/controls.go:174-184 | the estimate is replaced by the actual, floored at zero, without rolling the month |
| `LedgerWriterProofs.EveryRecordAccountedFor` | internal/pgledger/pgledger.go:119-208 | at every step each record is in exactly one place: flushed, in a failed flush, refused, swept, buffered, in the batch, or between check and send; successful flushes are a subsequence of send order with 1 to batchN records each |
| `LedgerWriterProofs.ExactAfterClose` | internal/pgledger/pgledger.go:187-208 | after Close returns, written = flushed + dropped exactly when no Write is between check and send and none has sent since the sweep |
| `LedgerWriterProofs.CleanCloseStaysExact` | internal/pgledger/pgledger.go:187-208 | if no Write is caught when Close returns, the totals agree ever after |
| `LedgerWriterProofs.SweptIsWhatCameLate` | internal/pgledger/pgledger.go:154-208 | in every run everything sent before the loop ended went into a flush, in the order sent; Close sweeps exactly what was sent after that and before it returned, and what is sent later stays in the buffer |
| `LedgerWriterProofs.TimerFlushes` | internal/pgledger/pgledger.go:143-165 | while the loop runs its timer leaves the batch empty: what it held is one more flush, counted as dropped if that fails |
| `LedgerWriterProofs.LateSendIsLost` | internal/pgledger/pgledger.go:119-129 | a Write that passed its check can send after the sweep; its record is then never flushed and never counted |
| `LedgerWriterProofs.WriteCanOutliveClose` | internal/pgledger/pgledger.go:119-208 | such a run exists: Close returns around a Write preempted between its check and its send |
| `LedgerWriter.Writer.BeginWrite` | internal/pgledger/pgledger.go:119-123 | the closed-check of a Write |
| `LedgerWriter.Writer.Send` | internal/pgledger/pgledger.go:124-128 | the non-blocking send of a Write |
| `LedgerWriter.Writer.DoFlush` | internal/pgledger/pgledger.go:143-151 | a flush empties the batch and counts it when it fails |
| `LedgerWriter.Writer.Take` | internal/pgledger/pgledger.go:154-158 | the loop takes one record and flushes a full batch |
| `LedgerWriter.Writer.Drain` | internal/pgledger/pgledger.go:166-178 | the drain leaves buffer and batch empty and the loop done |
| `LedgerWriter.Writer.Sweep` | internal/pgledger/pgledger.go:196-206 | the sweep counts every record still buffered as dropped |
| `Ledgers.TableSumsToTotal` | internal/ledger/ledger.go:164-179 | despite overflow folding the entries of a table sum exactly to everything added |
| `Ledgers.TableBounded` | internal/ledger/ledger.go:164-179 | a table never holds more than maxTracked + 1 keys |
| `Ledgers.TrackedExactly` | internal/ledger/ledger.go:164-179 | a key with its own entry has all its additions in it; a key without one was first seen when the table was full |
| `Ledgers.EntriesAreSpent` | internal/ledger/ledger.go:129-179 | a client or run with its own entry has exactly its records in it, tokens of every kind counted; records without a client are in the anonymous entry, and records without a run in none |
| `Ledgers.Ledger.Record` | internal/ledger/ledger.go:129-144 | totals, tables and ring after one more record |
| `Ledgers.Ledger.RecentEvents` | internal/ledger/ledger.go:259-270 | the last min(n, 200) records, newest first, each with its ids, status, cost and all its tokens |
| `Ledgers.Ledger.Totals` | internal/ledger/ledger.go:202-206 | the total is the number, tokens of every kind and cost of all records; the client table adds up to it and the run table to the total of the records that name a run |

## Left out

- HTTP, JSON, server-sent events, logging, configuration, metrics text, HTML and the
  wiring in `cmd/heave`.
- HMAC, SHA-256 and token encoding: a token is an unforgeable record, a key hash an
  opaque string. Nonces and hold ids never repeat.
- Float rounding: reals are used throughout. Integer widths: counters are unbounded.
- Clock skew between replicas: the fleet has one clock, as the code assumes.
- One operation of an instance reads the clock once, and its kill check and locked part
  are one step; the code reads the clock separately for the kill map and the windows, and
  another request can come between the kill check and the lock. In `Cluster` the local
  checks, the store call, and the rollback or fallback are separate steps; the kill check
  is not part of that model.
- Loop histories and ledger tables are values in a map that is reassigned, not objects
  updated through pointers. Policy nodes, scopes, windows, leases and tickets are objects.
- The shared kill store: what it answers is a parameter of every check, and its own
  writes are not modelled.
- Velocity windows of local tickets after a crash, and persistence of anything local.
- The dispatch loop sees brokered leases as events; that a lease's own methods move the
  store at most once is proved in `Broker`.
- Calendar day and month caps of policy nodes: the code does not enforce them.
- Policy listings (`Snapshot`, `OverAllocations`), ledger listings sorted for display,
  per-model prices: read-only views whose order and layout matter more than any property.
- `internal/health`, `internal/router`, `internal/cache`, `internal/redact`,
  `internal/cachebench`: health is an arbitrary input of the candidate loop, the rest is
  not part of this model.
- The ledger writer's channel has at least the behaviour of a buffered one; a channel of
  capacity zero, which hands records straight to the loop, is not modelled.
- Broker.Broker.Reserve: the estimate is non-negative, because the server never passes a
  negative one.
- RedisStore.Redis.Reserve: estimates are non-negative, because both callers floor or
  compute them so; the script itself has no floor there.
- Guard.Reconcile: the per-run budget is left out. In the code a reconcile on the replica
  that reserved also moves its run budget, and on another replica moves that replica's
  budget for the run, if it keeps one.
- Guard.DoHold: the store call of a reservation goes through or denies; when it is lost the
  handler releases its local hold and hands out a token that names no scope, as one with no
  caps does here. What a lost call booked anyway stays until it drains.
- Equivalence.SameVerdictsIff: the two may name different scopes when both deny, because the
  instance checks all velocities before any concurrency and the script goes scope by scope.
- ClusterBounds.FleetBound: requests older than the hold lifetime are not counted, because
  their holds are reaped.
- ClusterVelocity.FleetVelocityBound: requests an instance admits while the store is
  unreachable are not counted; each instance bounds its own.
- BrokerBound.RequestsWithinQuota: requests let through while the store is unreachable are
  not counted, because the code holds nothing for them.
- Dispatch.RecordSuccess: the price of a candidate's usage is an input.
