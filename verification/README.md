# Verification of the governed compute and deploy spine

A Dafny model of the stateful Python core under `tools/`, with proofs of what it promises over whole
runs. `dafny verify dfyconfig.toml` checks it.

| component | modules |
|---|---|
| pull/lease scheduler | `LeaseModel` (status machine), `LeaseRuns` (what whole runs keep), `LeaseScheduler` (the class with its five mutable fields, refining the machine), `LeaseFields` (what the fields look like), `LeaseDrain` (the draining loop) |
| quorum and reputation | `WorkUnit`, `Quorum`, `Reputation` |
| governed spine | `Admission`, `AdmissionRuns`, `MeshTelemetry`, `ComputePlane`, `Grant`, `GrantRuns`, `Executor`, `SpineSafety`, `ControlLoop`, `LoopRuns` |
| release ledger | `LedgerNames`, `ReleaseLedger`, `Rollbacks`, `Buildpack`, `PushWebhook`, `Provenance` |
| tokens | `Base64Url`, `Jwt` |
| shared | `Options`, `Basics`, `Orders`, `Sums`, `Bytes` |

## How the model is laid out

Objects that update their fields in place are classes (`Scheduler`, `Record`, `AdmissionController`,
`MeshRegistry`, `ControlLoop`, `ReleaseLog`), and loops over locals are methods with loops. Each such
method is tied to a function or relation on values, and the results are lemmas about that: the scheduler's
fields refine a map from unit to waiting, leased or done; a spine call refines a function to an outcome, a
trace of events and the new books; the ledger's directory of files refines a sequence of releases.

What the specification functions themselves mean is stated by laws that do not name them, in the fields, limits and
constants a caller sees: which subject pays, what a threshold is, which way a ranking goes, what a heartbeat does.

Runs are arbitrary: any calls, by anyone, in any order, with any clock readings. A property that needs
bounds on the readings says so; the cooldown bound holds even when the clock goes backwards.

- Times are whole microseconds (exact numbers of seconds in `Jwt`) and costs are whole 10^-6 units. A score is the
  binary double nearest to verified / total, rounded to three decimals half to even, and a minimum score is a number
  of thousandths. No other floating-point error is modelled.
- Clock readings, drawn ids, the return of a dispatch, sensed conditions, request bodies and the order in
  which dictionaries, nodes and directories are listed are arguments or arbitrary choices.
- SHA-256, HMAC, asymmetric verifiers and the JSON codec are functions given from outside. A lemma
  that needs one to tell two inputs apart, to match its counterpart or to read back what it printed requires just that.

## Where the code and its documentation part

- `place` speaks of falling back to local; the code blocks, and the model follows it.
- `build_plan` calls its digest content-addressed; it covers the paths and the buildpack, not the contents
  (`Buildpack.SameDigestIffSamePaths`).
- The ledger's names keep append order for up to 10^8 releases and lose it at the next one
  (`LedgerNames.SortedIsWritten`, `ReleaseLedger.HeadIsLostBeyondLimit`).
- `rollback(to_digest=...)` looks at the newest release carrying the digest only, so a later record that did
  not run hides one that did (`Rollbacks.ToDigestExactly`, `Rollbacks.HiddenRelease`); logs written by deploys
  and rollbacks alone never hold such a record (`Rollbacks.ToDigestIffRan`, `Provenance.EveryReleaseTraced`).
- `executor_ref` is set only when the caller named no node (`Grant.NamesTheNode`), a grant can be expired the
  moment it is issued (`Grant.BornExpired`), and no default adapter serves k3s-edge (`SpineSafety.EdgeNeverRuns`).
- `verify_and_score` credits the plurality group when there is no quorum too. With distinct workers, who is
  credited, like the whole verdict, is free of the order of arrival exactly when one digest leads strictly
  (`Quorum.OrderFreeIffLeader`, `Reputation.CreditFreeIffLeader`); without, exactly when the leading digests have the
  same voters and, for the verdict, there is no quorum unless there is one leader (`Quorum.OrderFreeIff`,
  `Reputation.CreditFreeIff`).
- `trusted` compares a rounded score: three decimals lift anything above 0.7995 to 0.8, but not 0.7995 itself, whose
  double lies below it, so 1599 of 2000 is not enough (`Reputation.TrustedIff`).
- The control loop seals an entry outside the handler that keeps a bad remediation from ending it. A condition that
  cannot be printed as JSON raises out of the tick after its remediation has run and been charged, and has no entry
  (`LoopRuns.BooksAreTheLedger`, `LoopRuns.PrintableLosesNothing`).
- `admit` and `charge` are separate calls. Quotas hold exactly when every charge would still be admitted when it is
  made, which is when what its check saw leaves room for what was charged and released since
  (`AdmissionRuns.KeptIffStillAdmitted`, `AdmissionRuns.KeptIffRoomSinceCheck`). A check that no other charge to the
  subject overtook is always enough (`AdmissionRuns.BooksBalance`); one that was overtaken may not be
  (`AdmissionRuns.OvertakenCheck`).
- `release` takes any release at all. One that matches no running job clamps at zero, and leaves the counters wrong
  exactly when the subject has other jobs running (`AdmissionRuns.CountedIffHarmless`).
- A signature header that is not ASCII makes the comparison raise; nothing is built then either.

## Model

| member | source | states |
|---|---|---|
| LeaseModel.StepInv | tools/lease_scheduler.py:35-87 | Every call, by any worker with any clock reading, keeps the invariant: live lease ids are distinct and at most the number issued, and nobody holds more leases than the limit. |
| LeaseFields.Partition | tools/lease_scheduler.py:23-62 | The fields refine the statuses: every index is in pending, leased or done and only one of these; pending is strictly ascending with the unit of each index; no two leases are for one index; each in-flight set is exactly the ids leased to the worker, within the limit. |
| LeaseRuns.RunInv | tools/lease_scheduler.py:23-90 | The invariant holds after any interleaving of lease, complete, heartbeat and drained calls. |
| LeaseRuns.AcceptedFinishesOne | tools/lease_scheduler.py:64-72 | A call is answered True exactly when it completes the current lease of a unit, and then it finishes that one unit and no other. |
| LeaseRuns.ExactlyOnce | tools/lease_scheduler.py:64-72 | In any run from the start at most one call finishes a unit; the unit is finished at the end iff some call finished it, and the output kept is that of that call. |
| LeaseRuns.AcceptedCount | tools/lease_scheduler.py:64-72 | The number of completions answered True equals the number of units finished. |
| LeaseRuns.DeadStaysDead | tools/lease_scheduler.py:48-72 | From any point of a run on, a lease id that was handed out and is no longer live never becomes live again: ids are never reissued. |
| LeaseRuns.LateResultDropped | tools/lease_scheduler.py:64-69 | Once a lease was completed or reclaimed, every later completion under its id is answered False and changes nothing. |
| LeaseRuns.DrainedResults | tools/lease_scheduler.py:85-90 | When drained answers True, results_in_order has one entry per unit and entry i is the output of the accepted completion of unit i, in whatever order completions came. |
| LeaseRuns.PullGets | tools/lease_scheduler.py:48-62 | A pull of n returns exactly max(0, min(n, limit minus held, waiting after reclaim)) leases, each under the next fresh id, for a waiting unit, due one TTL from now. |
| LeaseRuns.PullTakesSmallest | tools/lease_scheduler.py:48-62 | The pulled units are the smallest waiting indices in ascending order, and no other unit changes status. |
| LeaseRuns.KeptAlive | tools/lease_scheduler.py:38-38 | A lease due no earlier than t + TTL survives every call with a clock reading in t .. t + TTL, with its id and worker. |
| LeaseRuns.HeartbeatExtends | tools/lease_scheduler.py:74-80 | A heartbeat leaves every unit leased to the worker, and under the id named if one is, leased under the same id and due exactly one TTL from now; every other unit and the id counter are as they were. |
| LeaseRuns.BeatenSurvives | tools/lease_scheduler.py:74-80 | In any run a lease beaten by its holder at t, however close its deadline was, survives every call with a reading in t .. t + TTL that does not complete it. |
| LeaseRuns.BeatenThenSilent | tools/lease_scheduler.py:35-46 | And a holder that then falls silent loses it iff a reclaiming call comes with a reading past t + TTL. |
| LeaseRuns.LostAfterDeadline | tools/lease_scheduler.py:35-46 | An uncompleted, unbeaten lease changes status in a run iff some lease or drained call came with a clock reading past its deadline; heartbeats and completions alone never reclaim. |
| LeaseScheduler.Scheduler.constructor | tools/lease_scheduler.py:24-33 | The fields start as the spelling of a model in which every unit waits. |
| LeaseScheduler.Scheduler.Reclaim | tools/lease_scheduler.py:35-46 | The in-place loop over five fields refines taking every overdue unit of the model back to waiting, and reports the expired ids. |
| LeaseScheduler.Scheduler.Lease | tools/lease_scheduler.py:48-62 | The pop loop over the sorted list refines the lease step of the model and hands out the units and ids of its reply. |
| LeaseScheduler.Scheduler.Complete | tools/lease_scheduler.py:64-72 | Refines the complete step of the model; the deadline plays no part. |
| LeaseScheduler.Scheduler.Heartbeat | tools/lease_scheduler.py:74-80 | Refines the heartbeat step: the matching leases of the worker, and only those, are due one TTL from now. |
| LeaseScheduler.Scheduler.Drained | tools/lease_scheduler.py:85-87 | After reclaiming, empty pending and leased fields mean exactly that every unit of the model is done. |
| LeaseScheduler.Scheduler.ResultsInOrder | tools/lease_scheduler.py:89-90 | Visiting the done map in any order and sorting gives the outputs of the finished units by index. |
| LeaseScheduler.NotFinished | tools/lease_scheduler.py:42-43 | No unit out on a lease is in the done map, so the membership test in the reclaim loop and the setdefault in complete never make a difference. |
| LeaseDrain.DrainBy | tools/lease_scheduler.py:103-116 | Pulling k and completing each until drained, with every outstanding lease overdue at the first reading, takes exactly ceil(r / min(k, limit)) rounds for r unfinished units, whatever the clock reads later, and finishes them all with the outputs of the worker. |
| LeaseDrain.CeilDivMeaning | tools/lease_scheduler.py:103-116 | The round count is r / q rounded up. |
| WorkUnit.RedundantQuorum | tools/work_unit.py:57-76 | The grouping loop returns the verdict for a digest nobody outvotes and that came first among equals, with both worker lists sorted and complete. |
| Quorum.VerifiedIff | tools/work_unit.py:60-72 | Verified holds iff some returned digest reaches the threshold, and the accepted digest is one that does. |
| Quorum.ThresholdMeans | tools/work_unit.py:59-76 | For replication factor n, and no threshold or zero, the threshold is n / 2 + 1, and verified holds iff so many results have one digest, the accepted one; without a factor the number of results stands for n, and a threshold that is given and not zero is taken as it is; received is the number of results. |
| Quorum.HalfIsNotEnough | tools/work_unit.py:59-68 | By default n / 2 results or fewer are never verified. |
| Quorum.ListsAccount | tools/work_unit.py:62-73 | The agreeing list holds each worker as often as it returned the digest on top, which no digest outnumbers and which came in first among those as many; the disagreeing list the rest; both are sorted. |
| Quorum.OneVerdict | tools/work_unit.py:57-76 | The same results in the same order have one verdict. |
| Quorum.UniqueIffFewer | tools/work_unit.py:60-68 | No two digests can both reach a threshold t exactly when there are fewer than 2t results. |
| Quorum.DefaultIsMajority | tools/work_unit.py:60-61 | By default there are fewer results than twice the threshold whenever there are at most replication many. |
| Quorum.OrderIndependent | tools/work_unit.py:57-76 | Every permutation of the results gives the same yes or no; with fewer results than twice the threshold a yes is the same verdict, worker lists included. |
| Quorum.OrderFreeIff | tools/work_unit.py:57-76 | The whole verdict, worker lists included, is the same for every permutation of the results iff any two digests that nobody outvotes are one, or there is no quorum and the same workers, each as often, voted for both; workers may repeat. |
| Quorum.OrderFreeIffLeader | tools/work_unit.py:57-76 | With distinct workers that condition is: one digest has strictly more votes than every other, quorum or not. |
| Quorum.TwiceAnswered | tools/work_unit.py:57-76 | With a repeated worker it is not: one worker with two different answers and a threshold above one gives no strict leader and one verdict for every order. |
| Quorum.LeaderForcesVerdict | tools/work_unit.py:57-76 | A digest with strictly more votes than every other gets the same verdict in every order, whoever the workers are. |
| Quorum.TieFollowsOrder | tools/work_unit.py:67-69 | The smallest instance of the negative half of Quorum.OrderFreeIffLeader: two results, no quorum, and the agreeing worker is whoever came first. |
| Quorum.HonestMajorityForces | tools/work_unit.py:57-76 | For n the replication factor, or the number of results without one, n / 2 + 1 honest workers that agree on d force d to be accepted by default, whatever the others return, as long as there are fewer than 2 (n / 2 + 1) results. |
| Quorum.AcceptedNeedsMajority | tools/work_unit.py:57-76 | With distinct workers an accepted digest was returned by at least floor(n/2)+1 of them. |
| Quorum.DishonestMinorityCannotForge | tools/work_unit.py:57-76 | With distinct workers and at most floor(n/2) dishonest ones nothing but the digest of the honest is ever accepted. |
| Reputation.Record.VerifyAndScore | tools/work_unit.py:111-119 | The counters move by exactly the agreeing and disagreeing workers of the verdict, quorum or not. |
| Reputation.CreditPerWorker | tools/work_unit.py:94-100 | Each worker is credited once per appearance and nobody else moves. |
| Reputation.AgreeIsPlurality | tools/work_unit.py:67-74 | The agreeing workers are a largest group and the two lists together are as long as the results. |
| Reputation.CreditFreeIff | tools/work_unit.py:111-119 | What scoring credits to whom is the same for every order of the results, quorum or not, iff the same workers, each as often, voted for any two digests that nobody outvotes; workers may repeat. |
| Reputation.CreditFreeIffLeader | tools/work_unit.py:111-119 | With distinct workers that condition is: one digest has strictly more votes than every other. |
| Reputation.RunAccounts | tools/work_unit.py:85-119 | Over any sequence of scorings verified is at most total per worker, totals grow by the results received and verified counts by the sizes of the plurality groups. |
| Reputation.TrustedIff | tools/work_unit.py:102-108 | With the default arguments a worker is trusted iff total is at least 3 and verified / total is at least halfway from the double of 0.7995 to the next double; for totals up to 10^13 that is 2000 verified greater than 1599 total, so that 1599 of 2000 is not enough. |
| Reputation.ScoreIsNearest | tools/work_unit.py:102-104 | For totals up to 9 10^12 the score is the success rate to the nearest thousandth, for all the rounding in between. |
| Reputation.Record.Trusted | tools/work_unit.py:106-108 | Trusted needs the samples and the rounded score; asking changes no counter. |
| Admission.AdmissionController.Admit | tools/admission.py:75-88 | Admitted exactly when all three axes stay within the quota of the subject; the failing axes are listed in order; usage does not move. |
| Admission.AdmissionController.Charge | tools/admission.py:90-97 | Puts one job, its GPU and its cost on the record of the subject and touches no other. |
| Admission.AdmissionController.Release | tools/admission.py:99-105 | Takes the job and its GPU off again, clamped at zero, and keeps the cost. |
| Admission.QuotaLayers | tools/admission.py:48-70 | An explicit override wins axis by axis over the tier, and an unlisted subject has the default quota. |
| Admission.ExceededExactly | tools/admission.py:77-88 | The axes listed are exactly those the job would take over the limit, in the order of their names. |
| AdmissionRuns.KeptIffStillAdmitted | tools/admission.py:68-105 | From any ledger within quota, a subject is within all three limits after every prefix of a run iff each charge to it is one that admit would still admit when it is made, whatever was checked before and whatever is released. |
| AdmissionRuns.KeptIffRoomSinceCheck | tools/admission.py:68-105 | With counters that are right and releases that match, that is iff for each charge the usage at its check, or at any earlier time, the net of what was charged and released since, and the job together are within the three limits. |
| AdmissionRuns.BooksBalance | tools/admission.py:68-105 | So in every run, from any ledger with right counters and within limits, in which each charge follows an admitted check of the same subject, workload and cost not overtaken by another charge, no axis passes its limit, and the counters stay right if no release misses. |
| AdmissionRuns.CountedIffHarmless | tools/admission.py:90-105 | A call keeps right counters right iff it is not a release that misses: one of a subject with running jobs, none of them of the kind released. |
| AdmissionRuns.CountsAreRunning | tools/admission.py:90-105 | From any ledger where concurrent and gpu are the counts of running jobs they are so after every run of checks, charges and releases in whatever order in which no release misses. |
| AdmissionRuns.OvertakenCheck | tools/admission.py:75-97 | Two of a job checked one after the other, both admitted, and then both charged stay within quota iff there is room for it twice on all three axes; the run is never a guarded one. |
| AdmissionRuns.ClampsNeverFire | tools/admission.py:99-105 | After every such run a release of a running job takes off exactly what its charge put on: the clamps at zero change nothing. |
| AdmissionRuns.SpendOnlyGrows | tools/admission.py:95-105 | With costs that are not negative, spend never decreases over a run. |
| AdmissionRuns.OthersUntouched | tools/admission.py:72-105 | A run leaves the usage and the running jobs of every subject it charges and releases nothing for as they were. |
| AdmissionRuns.FreeTierHasNoGpu | tools/admission.py:24-31 | A free-tier subject without a GPU override and with no GPU job running never has one running in a run whose charges follow checks not overtaken. |
| MeshTelemetry.MeshRegistry.Heartbeat | tools/mesh_telemetry.py:30-32 | Overwrites the entry of the node and no other. |
| MeshTelemetry.MeshRegistry.Availability | tools/mesh_telemetry.py:52-57 | Visiting the live nodes in any order gives the same table: the backends with a live node, each with the sum of the capacities of its live nodes. |
| MeshTelemetry.LooksUpFree | tools/mesh_telemetry.py:52-57 | Looking any backend up in that table, zero if absent, gives its live capacity. |
| MeshTelemetry.NeverRises | tools/mesh_telemetry.py:48-57 | Between heartbeats, with capacities that are not negative, the live capacity of a backend never rises as time passes. |
| MeshTelemetry.HeartbeatMoves | tools/mesh_telemetry.py:30-57 | An empty registry has no capacity, and each heartbeat replaces what its node counted for by what it counts for now: its capacity on its backend while its beat is no older than the TTL. |
| MeshTelemetry.PresentIff | tools/mesh_telemetry.py:48-57 | A backend is in the table iff one of its nodes beat no longer than the TTL ago. |
| MeshTelemetry.CapacityIsBacked | tools/mesh_telemetry.py:30-57 | After any run of heartbeats positive capacity means a node of that backend whose last heartbeat is within the TTL and announced a positive capacity. |
| MeshTelemetry.SilenceIsAbsence | tools/mesh_telemetry.py:48-57 | A backend all of whose nodes last beat longer than the TTL ago is not in the table. |
| ComputePlane.NeedsMet | tools/compute_plane.py:58-69 | The loop collects the unmet needs in order. |
| ComputePlane.UnmetExactly | tools/compute_plane.py:58-69 | The unmet list names exactly the needs the backend does not provably provide. |
| ComputePlane.FirewallMeans | tools/compute_plane.py:58-69 | A need is unmet iff the value attested is missing, false or empty when it is asked to be there, is not one of those listed, or is not the very value asked for. |
| ComputePlane.RefusedIffUnfit | tools/compute_plane.py:97-110 | The first-failure chain passes a backend exactly when it meets the conjunction of all hard constraints. |
| ComputePlane.FirstFailure | tools/compute_plane.py:97-110 | The reason given is the first of the five tests the backend fails, each exactly when the earlier ones pass. |
| ComputePlane.Place | tools/compute_plane.py:77-150 | The loops and the choice compute the decision the lemmas below are about. |
| ComputePlane.CandidatesAndExcluded | tools/compute_plane.py:95-110 | Over a table of distinct ids every backend is either a candidate or excluded with the first test it fails, never both, and nothing else is listed. |
| ComputePlane.PlacementMeans | tools/compute_plane.py:116-148 | Scheduled iff some backend meets every hard constraint, and the choice meets them all. It is the earliest preferred backend that fits; without one, scalable work goes to the highest elasticity, then the largest free capacity, and other work to the lowest elasticity, the earliest in the table deciding ties; the reason given is that of the branch. |
| ComputePlane.AlternativesMean | tools/compute_plane.py:144-144 | The alternatives are the ids of the other backends that fit, sorted. |
| ComputePlane.SensitiveStaysTrusted | tools/compute_plane.py:105-106 | Sensitive work never lands on an untrusted backend while the policy forbids it. |
| ComputePlane.OthersDoNotMatter | tools/compute_plane.py:125-138 | Taking any backends that were not chosen out of the mesh leaves the choice and its reason unchanged. |
| ComputePlane.AskingMoreShrinks | tools/compute_plane.py:95-121 | Adding needs, a GPU or sensitivity only shrinks the candidates, so blocked work stays blocked. |
| Grant.IssueGrant | tools/mcp_a2a_grant.py:77-137 | The steps of minting compute the grant, or the refusal, the lemmas below are about. |
| Grant.MintedIff | tools/mcp_a2a_grant.py:93-107 | A grant is minted iff both attestation results hold, a backend with a name was scheduled and any quorum demanded is there, two signatures unless another number is given; otherwise the refusal is for the first of the three that fails. |
| Grant.FreshGrantVerifies | tools/mcp_a2a_grant.py:77-174 | With matching keys a fresh grant passes the gate iff the session is its own, the check comes no later than its truncated expiry and effect and operation are within the request. |
| Grant.MintedCarries | tools/mcp_a2a_grant.py:109-137 | A minted grant carries the three named keys of the binding, the capability with its executor or the chosen node, the constraints without the directives of the authority and with a lifetime, truncated times, the quorum proof, and the evidence of the caller with exactly the four missing entries filled in. |
| Grant.PolicyHashBinds | tools/mcp_a2a_grant.py:127-128 | With a hash that tells the two policies apart, two grants share a policy hash iff they agree on the whole binding asked for, capability, enforceable constraints, backend and whole attestation results. |
| Grant.LifetimeWithinASecond | tools/mcp_a2a_grant.py:45-46 | Printing in whole seconds costs a grant less than a second of its lifetime, never adds any, and leaves a whole second. |
| Grant.LifetimeTold | tools/mcp_a2a_grant.py:112-113 | The lifetime told to the node is cut towards zero to whole seconds. |
| Grant.BornExpired | tools/mcp_a2a_grant.py:124-125 | A grant is already expired when issued iff its lifetime ends before the next whole second. |
| Grant.NamesTheNode | tools/mcp_a2a_grant.py:109-110 | The grant names the chosen node iff the caller named none or the same one. |
| Grant.TamperingIsRefused | tools/mcp_a2a_grant.py:158-161 | A signature carried over to a body the key signs differently is refused whatever else holds. |
| Grant.ExpiryIsFinal | tools/mcp_a2a_grant.py:164-165 | A grant found expired is not valid at any later time under any request. |
| Grant.PassesIffOpens | tools/mcp_a2a_grant.py:140-174 | For any grant at all the chain of checks passes iff signature, session, time, attestation, effect and operation are all in order. |
| Grant.FindingMeans | tools/mcp_a2a_grant.py:157-174 | The finding is the first thing wrong with the grant, in the order signature, session, expiry, attestation, effect, operation; only an expired one is flagged expired and only one with nothing wrong valid. |
| GrantRuns.OnlyMintedPass | tools/mcp_a2a_grant.py:77-174 | In any run in which only the authority makes signatures of its key, a grant that passes was minted earlier with that very body for a request that was attested, placed and backed by its quorum, and passes within the session, lifetime, effect and operations of that request. |
| Executor.ExecuteJob | tools/executor.py:197-222 | Checks the grant, looks up the adapter and dispatches, in that order, stopping at the first failure. |
| Executor.RunSpine | tools/executor.py:225-251 | Against a live registry and quota controller, the outcome, the event trace and the new books are those of the specification the lemmas below are about. |
| SpineSafety.EffectsAreOrdered | tools/executor.py:234-251 | Effects come in the order admit, place, mint, check, dispatch, charge, each at most once; dispatch needs all of the earlier ones for that grant; charge happens exactly once and only for ran; blocked calls mint nothing and denied ones do nothing. |
| SpineSafety.RunsIff | tools/executor.py:225-251 | With matching keys a call ends in ran iff subject, quota, placement, attestation, no demanded quorum, session, time, effect, adapter and dispatch are all in order. |
| SpineSafety.StoppedIff | tools/executor.py:234-242 | A call is denied iff its quota is exceeded, blocked iff it is not denied and no backend fits, and fails for want of an identity iff there is none. |
| SpineSafety.WhoPays | tools/executor.py:232-251 | With a quota controller a non-empty admission key, or else the spiffe id of the binding, is the subject whose quota decides denied, over exactly the limits listed, and the only one whose usage moves: by one job, its GPU and its cost if the call ran. With neither the call raises and nobody pays. |
| SpineSafety.OutcomesMean | tools/executor.py:232-251 | Denied, blocked and ran each with its exact condition in terms of quota, fitting backends and the steps after placement; what ran names the chosen backend and the id of its grant. |
| SpineSafety.RaisesMean | tools/executor.py:197-251 | Every exception of a call with a known subject is about the first of granting, session, expiry, effect, adapter and dispatch that does not go well. |
| SpineSafety.TraceIsTrue | tools/executor.py:197-251 | Every event of a trace is true of the call: placed on the chosen backend; the grant minted answers the binding, capability, attestation and constraints of the call for fifteen minutes; the check found what the gate finds in it then; dispatched to the chosen backend through its adapter. |
| SpineSafety.InTime | tools/mcp_a2a_grant.py:124-165 | Checking no later than the lifetime minus one second after issue is always in time. |
| SpineSafety.EdgeNeverRuns | tools/executor.py:189-194 | With the default adapters, a call placed on k3s-edge is denied or raises, whatever the keys. |
| SpineSafety.PlacementIsLive | tools/executor.py:240-242 | Every placement scheduled from live availability, run or not, is on a backend that meets every hard constraint and has a node whose last heartbeat was fresh and announced a positive capacity. |
| SpineSafety.RanOnLiveTrustedBackend | tools/executor.py:240-248 | So whatever ran, ran on such a backend with a registered adapter, never untrusted for forbidden sensitive work. |
| SpineSafety.OnlyRunsAreCharged | tools/executor.py:235-251 | Usage moves by exactly the charge of a run, for its subject only, and by nothing for every other outcome. |
| ControlLoop.ControlLoop.Respond | tools/control_loop.py:60-83 | One condition: held back with nothing changed, or acted on with the cooldown stamped and, if it can be printed, one ledger entry appended; if not, the sealing raises after the remediation. |
| ControlLoop.ControlLoop.Tick | tools/control_loop.py:56-84 | A tick gives exactly one report per sensed condition, each as if the conditions before it had been handled first, unless it reaches one to act on that cannot be printed, which it acts on and then raises. |
| ControlLoop.ControlLoop.RunRounds | tools/control_loop.py:86-91 | Successive ticks are one run over all their conditions, up to the first that raises. |
| LoopRuns.ActedIsLast | tools/control_loop.py:61-76 | The cooldown map always holds, for each key, the time of the last action for it. |
| LoopRuns.LedgerIsRecorded | tools/control_loop.py:76-83 | The ledger holds exactly the actions whose condition can be printed, in their order. |
| LoopRuns.PrintableLosesNothing | tools/control_loop.py:76-83 | With conditions that can all be printed the ledger is all of the actions and no tick raises. |
| LoopRuns.NeverTwiceInACooldown | tools/control_loop.py:61-82 | Whatever the clock does, two actions for one key, and so two entries, are at least a cooldown apart. |
| LoopRuns.RateBound | tools/control_loop.py:56-84 | Any closed window of length w holds at most floor(w / cooldown) + 1 actions for one key, duplicates, failed, denied or blocked remediations and lost entries included, and no more ledger entries. |
| LoopRuns.ActedIffCooledDown | tools/control_loop.py:60-84 | A condition is acted on iff every action for its key is at least a cooldown old; otherwise it is reported suppressed and nothing changes; it raises iff it is acted on and cannot be printed. |
| LoopRuns.EveryVisitAnswered | tools/control_loop.py:60-84 | In every run each condition is held back, with nothing changed, iff some action for its key is less than a cooldown ago; otherwise one entry says what became of it: error if no job could be built or something raised, denied, blocked or ran each under the exact condition of the spine at that moment, with the backend and grant of what ran. |
| LoopRuns.BooksAreTheActions | tools/control_loop.py:67-83 | Over any run the usage of the subject has grown by exactly the jobs, GPUs and costs of the actions that ran, recorded or not, and no other usage has moved. |
| LoopRuns.BooksAreTheLedger | tools/control_loop.py:67-83 | The usage of the subject has grown by exactly the jobs, GPUs and costs of its ran ledger entries iff nothing ran for a condition that cannot be printed. |
| LoopRuns.QuotaHolds | tools/admission.py:75-97 | Usage that starts within quota stays within quota on all three axes over any run. |
| LoopRuns.LedgerGrows | tools/control_loop.py:82-82 | The ledger is append-only. |
| LedgerNames.NamesOrdered | tools/release_ledger.py:69-71 | Below 10^8 the smaller number gives the strictly smaller file name, whatever stamps and ids follow. |
| LedgerNames.NameTellsNumber | tools/release_ledger.py:69-71 | The number can be read back from the name, so no two files share one. |
| LedgerNames.SortedIsWritten | tools/release_ledger.py:63-73 | Sorting the names gives the order of writing exactly as long as there are at most 10^8 files. |
| ReleaseLedger.HistoryIsLogBackwards | tools/release_ledger.py:87-98 | Up to 10^8 releases history is the log, newest first. |
| ReleaseLedger.HeadIsLostBeyondLimit | tools/release_ledger.py:101-104 | With one release more the newest is no longer at the head. |
| ReleaseLedger.ReleaseLog.Record | tools/release_ledger.py:63-73 | Appends exactly one release to the log, under a name no file has. |
| ReleaseLedger.ReleaseLog.History | tools/release_ledger.py:87-98 | Listing the directory in any order and sorting reads the same history. |
| ReleaseLedger.ReleaseLog.Current | tools/release_ledger.py:101-104 | The current release is the head of the history, and up to the limit the last one recorded. |
| ReleaseLedger.ReleaseLog.Rollback | tools/release_ledger.py:118-172 | The answer is the one decided on the history; the log grows by the new head iff the rollback was effective. |
| Rollbacks.TargetFromHistory | tools/release_ledger.py:107-159 | An effective rollback goes to a release of the history that ran, with an image different from the one served, and links the new head to both. |
| Rollbacks.EffectIsOneEntry | tools/release_ledger.py:128-159 | Blocked and no-op calls leave the log unchanged; effective ones append exactly one linked entry. |
| Rollbacks.AnswersMean | tools/release_ledger.py:128-152 | There is no answer but no-history without a release; a no-op writes nothing, and an effective rollback serves another image than before. |
| Rollbacks.RanMeans | tools/release_ledger.py:138-140 | A release ran iff its status is deployed or rolled-back and it has a digest. |
| Rollbacks.StepsServe | tools/release_ledger.py:114-115 | rollback(steps=k) serves the image of history[k] iff that release ran, and is blocked otherwise. |
| Rollbacks.NegativeStepsCountFromOldest | tools/release_ledger.py:114-115 | A negative step count goes by the oldest release, and raises past the end. |
| Rollbacks.ToIdExactly | tools/release_ledger.py:109-110 | rollback(to_release_id=r), whatever digest or steps come with it, succeeds iff the newest release named r ran, and then serves its image; otherwise, an unknown r included, it is blocked. |
| Rollbacks.OneStepUndoes | tools/release_ledger.py:118-172 | rollback(steps=1) after an effective rollback restores the image served before iff the release it replaced had run. |
| Rollbacks.ToDigestExactly | tools/release_ledger.py:111-113 | rollback(to_digest=d) succeeds iff the newest release below the head that carries d ran, and then serves d; otherwise it is blocked. |
| Rollbacks.ToDigestIffRan | tools/release_ledger.py:111-113 | On a log of releases that ran it succeeds iff a release below the head ran d. |
| Rollbacks.HiddenRelease | tools/release_ledger.py:111-142 | A concrete log on which a later record that did not run hides the release that did. |
| Rollbacks.StaysRan | tools/release_ledger.py:137-159 | Rollbacks keep every release of a log one that ran. |
| Buildpack.DetectsFirst | tools/buildpack.py:41-47 | Detection is the first buildpack of the table with a signal among the files, or none iff none has. |
| Buildpack.BuildMeans | tools/buildpack.py:50-66 | An image is built iff some buildpack of the table has a signal among the files; then with the first such, named after the app and the first twelve digits of the hash of the sorted paths and that buildpack. |
| Buildpack.ManifestsMean | tools/buildpack.py:28-38 | Which manifest makes which build: python before node before go before rust before static. |
| Buildpack.Reproducible | tools/buildpack.py:50-66 | The same paths in any order build the same image. |
| Buildpack.SameDigestIffSamePaths | tools/buildpack.py:60-64 | With a hash that tells them apart, two builds share a digest iff their paths are the same up to order: app name and file contents play no part. |
| Buildpack.NamedAfterApp | tools/buildpack.py:69-76 | The workload carries the name of the app iff that has no at-sign in it. |
| PushWebhook.BothStylesOpen | tools/push_webhook.py:61-68 | Both header styles verify, with any white space around the hex. |
| PushWebhook.DoorMeans | tools/push_webhook.py:61-68 | The door opens iff secret, header and body are not empty and the signature provided is the MAC of the body; comparing a text that is not ASCII raises. |
| PushWebhook.StripMeans | tools/push_webhook.py:67-68 | Stripping takes all the white space off both ends and leaves the rest as it is. |
| PushWebhook.SpacesMean | tools/push_webhook.py:67-68 | Which ASCII characters count as white space. |
| PushWebhook.CarriedOverIsRefused | tools/push_webhook.py:61-68 | A signature carried over to a body with another MAC is refused. |
| PushWebhook.ChangedFilesExactly | tools/push_webhook.py:76-80 | The changed files are the paths some commit added or modified, each once, sorted. |
| PushWebhook.PayloadMeans | tools/push_webhook.py:71-158 | A push is to a branch iff its ref starts with refs/heads/, what follows being the branch; the branch is gone iff it is said to be deleted or left at forty zeros; the files are those of the checkout, or without one those the push touched. |
| PushWebhook.DeployedIff | tools/push_webhook.py:106-171 | A delivery deploys iff its signature verifies, it is a push to a branch of a named repository that was not deleted, and a buildpack matches. |
| PushWebhook.VerdictsMean | tools/push_webhook.py:121-163 | Each other verdict is given exactly for the first thing wrong with the delivery. |
| PushWebhook.HandlePush | tools/push_webhook.py:106-171 | The ledger grows by the release of a deployed delivery and is unchanged by every other. |
| Provenance.AppendOnly | tools/release_ledger.py:63-73 | Under any interleaving of deliveries and rollbacks the log only grows at its end. |
| Provenance.EveryReleaseTraced | tools/push_webhook.py:165-170 | Every entry ran, every deploy entry comes from an accepted and built delivery, and every image was deployed no later than the entry that carries it. |
| Provenance.HistoryWasBuilt | tools/release_ledger.py:87-104 | The same holds of every release the history shows, in whatever order it lists them. |
| Provenance.ServedImageWasBuilt | tools/release_ledger.py:101-172 | What is serving, the head of the history however many releases there are, carries an image built for a delivery with a valid signature, on a branch that was not deleted, from files a buildpack matches. |
| Provenance.DeployedMeans | tools/deploy_flow.py:17-34 | The build a deployed delivery records is the build plan for repository, branch and source files, and the release carries its digest. |
| Provenance.OneStepBackWorks | tools/release_ledger.py:118-172 | On such a log one step back succeeds and serves the entry before, once there are two entries. |
| Base64Url.RoundTrip | tools/sso.py:37-44 | Unpadded encode then decode is the identity on every byte string; the text between is of the 64-character alphabet, without full stop or padding, and has ceil(4n/3) characters. |
| Base64Url.ScansPadded | tools/sso.py:37-40 | The lenient decoding loop reads a padded encoding back exactly. |
| Base64Url.Padding | tools/sso.py:40-44 | The padding put back by -len % 4 is exactly the padding that was stripped. |
| Base64Url.EncodeInjective | tools/sso.py:43-44 | Different byte strings have different encodings. |
| Base64Url.AlphabetMeans | tools/sso.py:37-44 | The 64 characters in the order of table 2 of RFC 4648, each read back as its value; the decoder also takes + and / for the last two, and nothing else. |
| Base64Url.EncodesBits | tools/sso.py:43-44 | Character i of an encoding is the character for the i-th six bits of the input. |
| Base64Url.DecodesIff | tools/sso.py:37-40 | A text of the alphabet decodes iff its length is not one more than a multiple of four. |
| Base64Url.DecodesBits | tools/sso.py:37-40 | It then decodes to the bits of its characters in order, eight at a time. |
| Base64Url.PassesOver | tools/sso.py:37-40 | A text that is not ASCII never decodes; in any other the characters outside the alphabet are passed over. |
| Jwt.DecodesEncoded | tools/sso.py:113-134 | With a codec that reads these two objects back, decoding a minted token gives back its header, its payload, the exact signing input and the signature over it. |
| Jwt.DecodesIffParts | tools/sso.py:122-134 | A text decodes iff it is three parts without full stops, joined by them, the first two encoding JSON objects and the third any bytes; what is signed is the first two as they stand. |
| Jwt.SomeCodecReadsBack | tools/sso.py:113-134 | Whatever the header and payload, there is a codec that reads both back, so that requirement can always be met. |
| Jwt.MintedTokenVerifiesIff | tools/sso.py:137-192 | A token minted under a secret verifies under it iff the secret is not empty and the claims pass issuer, audience, time and nonce checks, and returns its own claims. |
| Jwt.ClaimsMean | tools/sso.py:168-192 | The early-return chain over the claims finds the first thing wrong in the order issuer, audience, party, expiry, not-before, issue time, nonce; it raises for a time that is no number or a nonce that cannot be compared, and passes claims iff they are in force. |
| Jwt.SignatureMeans | tools/sso.py:153-166 | What is found wrong with a signature, each with its exact condition; nothing iff the header names an algorithm, not none, and the signature is right for it. |
| Jwt.OtherSecretRefused | tools/sso.py:158-163 | Under a secret whose MAC differs the token is refused for its signature. |
| Jwt.UnsignedRefused | tools/sso.py:154-157 | A token whose header names no algorithm, or none, is refused whatever else holds. |
| Jwt.ValidIff | tools/sso.py:137-192 | Any token at all is valid iff it decodes, is signed under the algorithm it names with the key that algorithm calls for, and its claims are in force; malformed, badly signed and refused claims are told apart. |

## Left out

- LeaseScheduler.Scheduler.Complete: lease ids are the numbers behind the text `lease-`, so a malformed id cannot be passed.
- LeaseDrain.DrainBy: the draining loop is the usage shown beside the scheduler, with one worker.
- Admission.AdmissionController.Charge: does not model the saved ledger file; costs are exact.
- Executor.RunSpine: an absent quota controller is a flag, and the adapters' own work is one choice, to return or to raise.
- ControlLoop.ControlLoop.RunRounds: the pauses between ticks are not modelled, the mesh stays as it is during one call, and a sensor that raises ends the loop before any of it; keys are texts or missing, and entries keep the exact clock reading.
- Grant.IssueGrant: the keys of a dictionary that the code does not look at are carried as one map of texts.
- ReleaseLedger.ReleaseLog.History: files that cannot be read or parsed are not modelled, and one log stands for one tenant and app.
- PushWebhook.HandlePush: payload fields have the types a git host gives them; the preview manifests, the receipt file and the HTTP server are not modelled.
- Buildpack.NamedAfterApp: a process or Procfile given by the caller is not modelled, because `on_push` gives none.
- Jwt.DecodesEncoded: JSON text itself is not modelled; the codec is required to read back the objects it prints.
- Sealed receipts and their digests, other than those a grant binds, are not modelled: they are computed from what is.
- `allowed_backends` of an account tier is not wired into `run_spine`; a caller's policy stands for it.
- Calls into one object are atomic: the Python classes have no locks, and only whole calls interleave.
- `spot_check`, `mint_work_unit`, `progress`, `backends_view`, `nodes` and `summary` are one-expression views.
- WebAuthn, PKCE, login sessions, availability, inference, provisioning and the promotion gate are one-branch checks or lookups.
- The Go services, manifest and script builders, portal, charts, schemas and policies are configuration or plumbing.
