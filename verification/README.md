# A verified model of the Cloudflare IP scanner

The repository scans Cloudflare addresses from a fleet of agents. A center stores jobs, tasks, results and a
blacklist, hands tasks out under short leases, ranks address prefixes in a three-tier league, and enrolls new
agents over an unreliable network. This project models that logic in Dafny and proves what it keeps over all
inputs and all runs. Each store method is one transaction, modelled as one atomic step: the specification
functions say what a step does to the tables, class methods written like the source update the tables in place
and are proved equal to those functions, and lemmas state what every run of such steps guarantees. What a step or a
decision comes to is stated once more in plain figures, row by row or event by event, without the specification
functions (`ScanEffects`, `RecheckOutcome`, `EnrollmentReplies`, `LoginReference` and lemmas beside the others).

| area | files |
|---|---|
| leases, results, counters, blacklist | `ScanState`, `ScanInvariants`, `ScanCreation`, `ScanRuns`, `ScanEffects`, `ScanBlacklist`, `ScanStore` |
| blacklist rechecks and their LIMIT | `RecheckSelection`, `RecheckGrouping`, `Rechecks`, `RecheckOutcome`, `RecheckReach` |
| the agent's worker pool and the whole cycle | `AgentPool`, `AgentCycle` |
| choosing addresses | `Cidr`, `Probes`, `Sampler`, `OnePerPrefix`, `Sampling` |
| the prefix league | `League`, `LeagueRuns`, `LeagueItems`, `LeaguePlan`, `RoundRobin`, `Weave`, `PlanAgent`, `LeagueStore`, `LeagueStoreRuns`, `Percentile` |
| enrollment | `Enrollment`, `EnrollmentReplies`, `EnrollmentRuns`, `EnrollmentStore`, `EnrollmentClient`, `EnrollmentProgress` |
| limiters | `RateLimiter`, `LoginLimiter`, `LoginReference`, `LoginTraces` |
| common | `Wrappers`, `Cardinality`, `Sorting` |

Conventions. Identifiers and hashes are natural numbers compared only for equality. Times are integers
(microseconds in the stores, nanoseconds in the limiters). Floating-point columns are reals. Strings that are
parsed (addresses, prefixes) are a parse result plus the spelling used, spelling 0 being the canonical one.
SHA-256 enters as arbitrary functions, so every theorem holds for every hash. Rows that another transaction has
locked are passed as sets (`busyJobs`, `busyTasks`), and query answers whose order the SQL leaves open are
parameters. The schema contributes only the uniqueness constraints the code relies on.

Findings worth knowing, with the lemmas that prove them:

- The LIMIT pushed into the recheck query is invisible exactly when `20000 * fraction > max_targets - 1`, over
  arbitrary rows and over the rows of reachable tables alike (`LimitExactIff`, `ReachableLimitIff`). Inside the
  accepted settings the cap of 20000 can therefore lose targets, for instance with `fraction = 0.1` and
  `max_targets = 5000`.
- A replayed result batch never changes a table, but it is not confirmed again: it is answered with an error,
  except that a batch for a job stopped in the meantime is confirmed without effect (`ReplayAnswer`). A finished
  job changes only through an empty batch sent to a completed job, which sets its finish time to the present
  (`FinishedStep`).
- The server accepts a batch exactly if every task in it is still held by some grant (`BatchAcceptedIff`); a
  grant is held until a stop of the job, a completion, or a committed claim of the same agent after the three
  minutes (`LeasedIff`).
- Choosing one address per prefix, most specific first, misses no choice when each prefix's digests reach one
  address more than there are earlier prefixes inside it, or its whole block (`ThoroughIsExact`). For every
  possible hash it misses none exactly when no address could go to two prefixes, or no choice exists anyway
  (`AlwaysOptimalIff`).
- A bad recent window does not stop a promotion (`BadWindowsDoNotStopPromotion`), and an observation entry's
  streak is unbounded (`ObservationStreakUnbounded`).
- The login limiter with at least two permitted failures m records at most 2m - 2 of them per window exactly when
  the block lasts as long as the window, and at most 2m - 1 exactly when it lasts half as long (`SharpIff`,
  `TwiceIff`); with the limits in use that is 14 in any five minutes.

## Model

| member | source | states |
|---|---|---|
| ScanStore.Store.CreateScanJob | internal/store/postgres/store.go:443-528 | job creation inserts all tasks or nothing; it succeeds exactly when every set names an agent and at least one admitted pair is new, and the stored total is the number of task rows |
| ScanStore.Store.InsertAgentTargets | internal/store/postgres/store.go:477-507 | the inner insert loop skips unusable and blacklisted addresses and pairs already present |
| ScanStore.Store.ClaimTasks | internal/store/postgres/store.go:732-795 | claiming expires the agent's old leases, picks the selected job's candidates up to the clamped limit and leases them; returning nothing leaves every table untouched |
| ScanStore.Store.SubmitResults | internal/store/postgres/store.go:797-899 | a batch is absorbed completely, with counters recounted and status updated, or rejected without any effect |
| ScanStore.Store.AbsorbResults | internal/store/postgres/store.go:813-877 | the loop over results stops at the first probe that no longer fits a leased task of the sender |
| ScanStore.Store.WriteBlacklist | internal/store/postgres/store.go:851-877 | a bad result adds or counts up the entry, a good one deletes it |
| ScanStore.Store.StopScanJob | internal/store/postgres/store.go:558-585 | stopping cancels exactly the open tasks of a stoppable job |
| ScanStore.Store.CreateBlacklistRechecks | internal/store/postgres/store.go:1226-1364 | the whole recheck run skips iff asked to and a recheck is active; otherwise it makes exactly the jobs of the reference selection, in order and under fresh ids, with the settings in force, and reports their number and size |
| ScanStore.Store.CreateRecheckJob | internal/store/postgres/store.go:1321-1353 | one agent's recheck job: its tasks, its total and the pushed-back retry times |
| ScanCreation.CreatedTasks | internal/store/postgres/store.go:443-528 | a task exists in a created job iff its (agent, address) pair was requested and admitted; refusal means no such pair, and then no change |
| ScanEffects.CreateStores | internal/store/postgres/store.go:443-528 | creation happens iff every set names an agent and some pair is admitted; the new rows are exactly the admitted pairs, waiting, each with the prefix of the first target naming it, and the job starts with the given limits |
| ScanEffects.RecheckAdds | internal/store/postgres/store.go:1321-1353 | a recheck job gets one waiting task per address in order, and starts with the given limits |
| ScanEffects.RecheckPostpones | internal/store/postgres/store.go:1340-1350 | a recheck moves exactly the retry times of its addresses, to its minutes from now |
| ScanInvariants.CreateKeeps | internal/store/postgres/store.go:443-528 | job creation keeps the table invariant |
| ScanInvariants.ClaimKeeps | internal/store/postgres/store.go:732-795 | claiming keeps the table invariant |
| ScanInvariants.SubmitKeeps | internal/store/postgres/store.go:797-899 | submitting keeps the table invariant, whatever is submitted |
| ScanInvariants.StopKeeps | internal/store/postgres/store.go:558-585 | stopping keeps the table invariant |
| ScanInvariants.RecheckKeeps | internal/store/postgres/store.go:1321-1353 | creating a recheck job keeps the table invariant |
| ScanInvariants.AbsorbAllMeaning | internal/store/postgres/store.go:813-848 | an accepted batch completes exactly its tasks; none had a result before, so the upsert's conflict branch is never taken |
| ScanEffects.SubmitDecides | internal/store/postgres/store.go:797-827 | a batch is confirmed without effect iff its job was stopped, and accepted iff the job exists, every probe names a leased task of sender and job with its address, and no task is named twice |
| ScanEffects.SubmitStores | internal/store/postgres/store.go:813-848 | the rows after an accepted batch, with every result as reported |
| ScanEffects.SubmitFinishes | internal/store/postgres/store.go:879-897 | an accepted batch completes the job, finishing it now, iff all its tasks are completed, and leaves it running otherwise |
| ScanInvariants.StoredAsReported | internal/store/postgres/store.go:826-848 | every accepted result is stored as reported, with address and prefix of its task |
| ScanEffects.CountsRows | internal/store/postgres/store.go:879-894 | total, completed, success and failed count the job's tasks, its completed tasks, and those within and beyond its thresholds |
| ScanEffects.StopStores | internal/store/postgres/store.go:558-585 | stopping cancels exactly the open tasks of a pending or running job and finishes it now; otherwise nothing changes |
| ScanInvariants.ReasonIsFailed | internal/store/postgres/store.go:851-894 | the Go test for a bad result and the two SQL filters agree on every accepted result |
| ScanInvariants.CountersAgree | internal/store/postgres/store.go:879-894 | success + failed = completed = number of result rows of the job |
| ScanEffects.GrantsExactly | internal/store/postgres/store.go:743-785 | a grant is the free unlocked tasks of the agent with the lowest ids, up to the limit, 32 without a limit and never more than 512 |
| ScanEffects.ClaimIsFair | internal/store/postgres/store.go:743-770 | a job may be served iff it has free tasks for the agent, is held by nobody, and none such is older |
| ScanEffects.ClaimFindsWork | internal/store/postgres/store.go:743-770 | whenever a job held by nobody has free tasks for the agent, some job is found to serve |
| ScanEffects.ClaimStores | internal/store/postgres/store.go:732-795 | the rows after a claim: three minutes for the grant, overdue leases of the agent taken back, the job running from its first grant; nothing if nothing is granted |
| ScanRuns.InvAlways | internal/store/postgres/store.go:443-899 | every reachable state satisfies the invariant, over any interleaving of all operations and time |
| ScanRuns.CountersAlways | internal/store/postgres/store.go:443-899 | in every reachable state total, completed, success, failed and status of each job agree with its rows, and no finished job has an open task |
| ScanEffects.JobStory | internal/store/postgres/store.go:443-795 | over any run each job was made by one event, keeps its limits and creation time, and counts as started from the first claim that handed out one of its tasks |
| ScanRuns.TaskStep | internal/store/postgres/store.go:443-899 | exactly what one transaction does to a task's status, case by case; nothing else of a task ever changes |
| ScanRuns.GrantIsSafe | internal/store/postgres/store.go:732-795 | tasks are granted only to their own agent, from one pending or running job, without repeats, at most the clamped limit, for three minutes |
| ScanRuns.LeaseExclusive | internal/store/postgres/store.go:743-785 | two grants of one task are more than three minutes apart with no completion or cancellation in between |
| ScanRuns.Absorbing | internal/store/postgres/store.go:558-899 | completed and cancelled tasks never change again |
| ScanRuns.AcceptedAtMostOnce | internal/store/postgres/store.go:813-827 | over any run each task is accepted at most once |
| ScanRuns.ReplayChangesNothing | internal/store/postgres/store.go:813-827 | resending any accepted result later, by anybody, in any batch, changes no table |
| ScanRuns.ReplayAnswer | internal/store/postgres/store.go:797-827 | such a batch is refused iff the job it names is not stopped at that moment, and confirmed without effect iff it is |
| ScanRuns.LeasedIff | internal/store/postgres/store.go:732-827 | in every reachable state a task is leased iff some grant of it has since met no stop of its job, no completion and no committed claim of its agent after three minutes |
| ScanRuns.AllOrNothing | internal/store/postgres/store.go:797-827 | a batch with a repeated id, a task that is not leased to the sender, a wrong address, or a stopped or unknown job changes nothing |
| ScanRuns.FinishedJobsStay | internal/store/postgres/store.go:558-899 | over any run a completed or stopped job keeps every field; only empty batches for a completed job can move its finish time |
| ScanRuns.FinishedStep | internal/store/postgres/store.go:558-899 | one transaction sets a finished job's finish time to now iff it is an empty batch for a completed job, and otherwise leaves the job as it is |
| ScanBlacklist.BlacklistRefinesLog | internal/store/postgres/store.go:851-894 | the incremental blacklist equals what the log of accepted results and rechecks implies: an entry iff the last result was bad by its job's thresholds, with that result's time and reason text, the length of the trailing bad run, and a retry time the stated minutes after the last result or recheck |
| ScanBlacklist.TrailingBadUnique | internal/store/postgres/store.go:857-877 | the trailing run has one length, so the count is determined by the log |
| RecheckSelection.LimitExactIff | internal/store/postgres/store.go:1265-1275 | the pushed-down LIMIT never changes the selection, for all tables, exactly when 20000 * fraction > max_targets - 1, which covers every uncapped limit |
| RecheckSelection.LimitKeepsSelection | internal/store/postgres/store.go:1265-1320 | under that condition the selection from the limited rows is the selection from all rows, entry by entry |
| RecheckSelection.CapLosesTargets | internal/store/postgres/store.go:1265-1275 | otherwise there are rows, all of one agent, that fill the budget without the LIMIT and fall short of it with the LIMIT |
| RecheckReach.ReachableLimitIff | internal/store/postgres/store.go:1265-1275 | the same exact condition when only answers of the query in reachable states count; the failing half builds the run that lists the addresses |
| RecheckSelection.CutIsHarmless | internal/store/postgres/store.go:1265-1320 | cutting rows is harmless as soon as the quota of what remains covers the budget, for any quota that rounds like ceil |
| RecheckSelection.SelectedTotal | internal/store/postgres/store.go:1301-1320 | the number selected is min(budget, sum over agents of the rounded-up share) |
| RecheckSelection.QuotaRounds | internal/store/postgres/store.go:1307-1316 | the rounded-up share of an agent has the splitting property the LIMIT proof needs |
| RecheckGrouping.GroupRows | internal/store/postgres/store.go:1283-1296 | the grouping loop collects each agent's rows in order and the agents in order of appearance |
| RecheckGrouping.GroupingIsSelection | internal/store/postgres/store.go:1283-1320 | on ordered rows the loop over the grouping map computes the block-wise reference selection |
| Rechecks.RunIgnoresLimit | internal/store/postgres/store.go:1226-1358 | a whole run selects as if there were no LIMIT and fills the budget whenever the demand allows |
| RecheckOutcome.RunSelects | internal/store/postgres/store.go:1228-1320 | with each setting as configured or its default, each agent in turn gives its first rows, its fraction rounded up, and the number selected is the smaller of budget and all shares of the rows read |
| RecheckOutcome.RunSelectsFromAll | internal/store/postgres/store.go:1228-1320 | when 20000 * fraction > max_targets - 1 the shares of all candidates count |
| RecheckOutcome.RunCreates | internal/store/postgres/store.go:1321-1353 | every pick becomes a job with one waiting task per chosen address, under the latency, loss and minutes in force |
| RecheckOutcome.RunIsDone | internal/store/postgres/store.go:1226-1358 | selection and jobs together, for every answer of the candidate query |
| RecheckOutcome.EarliestAreTaken | internal/store/postgres/store.go:1259-1317 | of the rows read for an agent those with the earlier retry time are taken, ties by more failures, and only due ones if only due ones were asked for |
| AgentPool.InvAlways | cmd/agent/main.go:120-157 | every interleaving of producer, workers and cancellation keeps the pool invariant: each task is unsent, held by one worker, or reported once |
| AgentPool.SendNeverBlocks | cmd/agent/main.go:128-137 | a worker with a result can always send it; the buffer is never full |
| AgentPool.NeverStuck | cmd/agent/main.go:131-150 | until all workers are done some step other than a cancellation is possible |
| AgentPool.ScheduleBound | cmd/agent/main.go:131-150 | every schedule ends after at most 3n + 2 steps |
| AgentPool.BatchResults | cmd/agent/main.go:120-157 | exactly one result per task, or at most one under cancellation, with the task's id and address |
| AgentPool.BusyAtMost | cmd/agent/main.go:120-137 | at any moment at most the concurrency, at least one and never more than the tasks, probe |
| AgentPool.AllMayBeBusy | cmd/agent/main.go:128-150 | some schedule has that many probing at once |
| AgentCycle.BatchAcceptedIff | cmd/agent/main.go:94-118 | the reports of a claimed batch are accepted iff each of their tasks is still held, by that claim or a later one, whatever the agent and everybody else did in between |
| AgentCycle.BatchIsAccepted | cmd/agent/main.go:94-118 | in particular they are accepted while the granting claim's leases are held |
| AgentCycle.CycleLowersOpenTasks | cmd/agent/main.go:94-118 | a claim-probe-submit cycle is accepted iff all its tasks are held, and lowers the job's open tasks by the batch size iff accepted, otherwise by nothing |
| Cidr.MaskedRange | internal/targets/sample.go:145-160 | a masked block is exactly base .. base + size - 1, and every such address fits in 32 or 128 bits |
| Cidr.NestedOrDisjoint | internal/targets/sample.go:50-52 | blocks sharing an address are nested |
| Cidr.BlockSizes | internal/targets/sample.go:135-150 | a prefix of n bits holds the 2^n-th part of the 2^32 or 2^128 addresses of its family |
| Cidr.AddressForInside | internal/targets/sample.go:135-170 | the chosen address is inside the block and fits; for an IPv4 block wider than /31 it is base + 1 + d mod size mod (size - 2) for every digest d, so never network or broadcast address, and base + d mod size otherwise |
| Cidr.ChosenIffNamed | internal/targets/sample.go:135-170 | an address is chosen iff the digest lies in its residue class |
| Cidr.NamedBySomeOfAnySize | internal/targets/sample.go:135-170 | exactly the eligible addresses are named by digests, each by arbitrarily large ones |
| Cidr.NoChoiceExists | internal/targets/sample.go:50-78 | if earlier, longer prefixes used up a whole block then no choice of distinct addresses exists |
| Probes.FreshMeaning | internal/targets/sample.go:94-107 | the addresses a prefix offers are distinct, unseen, inside it, and miss no unseen digest |
| Probes.FreshInOrder | internal/targets/sample.go:94-107 | each address is that of a round all of whose earlier rounds gave used addresses or earlier picks |
| Probes.PassesMeaning | internal/targets/sample.go:25-43 | sampling in rounds gives distinct addresses inside the prefixes recorded with them |
| Probes.PassesCover | internal/targets/sample.go:27-43 | sampling in rounds misses no digest of any prefix in any round |
| Sampler.ChooseAddress | internal/targets/sample.go:135-170 | the in-place offset arithmetic computes the specified address |
| Sampler.FromPrefix | internal/targets/sample.go:82-108 | the result is the specified draw (count first, then the parse error) and the shared map grows by exactly the returned addresses, or a private map is used |
| Sampler.FromTextMeaning | internal/targets/sample.go:82-108 | at most count targets, canonical, distinct, unseen, inside the masked prefix; fewer only if all 4096 digests are taken |
| Sampler.FromTextReaches | internal/targets/sample.go:82-108 | an address is returned only if one of 4096 digests names it and it is unused, and while fewer than count are returned every such address is |
| Sampler.UsablePrefixes | internal/targets/sample.go:110-133 | exactly the masked blocks of wanted rows, each once; or the first wanted row that does not parse; or nothing wanted |
| OnePerPrefix.OnePerPrefix | internal/targets/sample.go:53-78 | the addresses are those served in sorted order, one distinct in-prefix address per usable prefix on success; failure on an exhausted prefix proves that no choice exists; with thorough digests the call succeeds iff a choice exists |
| OnePerPrefix.ServedFirst | internal/targets/sample.go:64-76 | each prefix gets the address of its first round, of 4096, whose address no earlier prefix holds |
| OnePerPrefix.ExhaustedIsImpossible | internal/targets/sample.go:50-78 | a prefix whose addresses are all taken rules out every choice for the input |
| OnePerPrefix.ThoroughIsExact | internal/targets/sample.go:67-76 | if a prefix's digests reach its block, or one address more than there are earlier prefixes inside it, finding nothing means the block is exhausted |
| OnePerPrefix.AlwaysOptimalIff | internal/targets/sample.go:50-78 | on distinct masked prefixes, for every hash the call succeeds or no choice exists, iff no address is eligible for two prefixes or no choice exists |
| OnePerPrefix.GreedyIsNotOptimal | internal/targets/sample.go:50-78 | a concrete input on which the most-specific-first order fails for every hash although a choice exists |
| Sampling.SampleRound | internal/targets/sample.go:28-42 | one round serves prefixes in turn and stops at the limit |
| Sampling.Sample | internal/targets/sample.go:15-48 | with a limit in 1..10000 and usable prefixes, between 1 and limit distinct in-prefix targets in round order, all named by digests, and short of the limit only if every address named in any round is there; the "could not sample" branch is unreachable |
| Sampling.SampleReaches | internal/targets/sample.go:27-43 | rounds pick only named addresses, and all of them while there is room |
| Sorting.SortSlice | internal/targets/sample.go:58-63 | a rearrangement, sorted if the comparison orders the elements given; ties may fall either way |
| League.EvaluateIdempotent | internal/league/league.go:32-38 | without a strictly newer result only a missing tier is filled in; evaluating twice changes nothing more, under any thresholds |
| League.StreakAfterEvaluation | internal/league/league.go:56-90 | after a fresh evaluation a champion or challenger has streak 0 or 1 |
| League.LegalMoves | internal/league/league.go:32-95 | every tier move and the streak afterwards, each with its exact condition in the figures of the statistics; observation never jumps to champion |
| League.BadWindowsDoNotStopPromotion | internal/league/league.go:40-90 | under any usable thresholds entries with a bad recent window are promoted, from observation and from challenger |
| League.PromotableNeverBad | internal/league/league.go:40-53 | statistics fit for promotion are never bad, exactly when the loss threshold lies in -10..100 |
| LeagueRuns.StreakRemembers | internal/league/league.go:56-90 | over any history a streak of 1 in the upper tiers means the last fresh evaluation was bad in that tier |
| LeagueRuns.DemotionNeedsTwoBadWindows | internal/league/league.go:62-84 | a non-severe demotion happens iff this fresh evaluation and the fresh one before it were bad in the same tier and no promotion takes precedence |
| LeagueRuns.ObservationStreakUnbounded | internal/league/league.go:56-90 | for every n there is a history that leaves an observation entry with streak n |
| LeagueRuns.EvaluatedAtGrows | internal/league/league.go:92-94 | the evaluation time never decreases |
| LeagueRuns.MovesAtMostResultTimes | internal/league/league.go:36-94 | tier moves are at most the distinct result times |
| LeagueItems.AnchoredMeaning | internal/league/league.go:150-163 | anchors are the first usable candidates: distinct, unseen, inside the prefix, and one is left out only when the limit is used up before it |
| LeagueItems.ItemsByTier | internal/league/league.go:140-170 | a champion gets 6 targets, a challenger 3, others 1, the first 2, 1 or 0 of them anchors and the rest named by digests of the prefix; fewer only if all named addresses are in use |
| LeagueItems.TakeAnchors | internal/league/league.go:149-163 | the candidate loop yields exactly the specified anchors and marks them seen |
| LeagueItems.CollectItems | internal/league/league.go:140-167 | one entry's items and the shared map after it |
| LeagueItems.ItemsMeaning | internal/league/league.go:140-170 | at most 6/3/1 targets inside the block, first at most 2/1/0 candidates, then generated ones, all distinct and unseen |
| LeagueItems.ShortOnlyWhenExhausted | internal/league/league.go:164-167 | an entry falls short of its number only when all its digests are used up |
| LeaguePlan.Budget | internal/league/league.go:108-110 | the budget is the requested one iff that lies in 1..10000, and 10000 otherwise |
| LeaguePlan.QueuesNoClash | internal/league/league.go:139-171 | no two queued targets of any tiers share an address text |
| LeaguePlan.QueuesSourced | internal/league/league.go:139-171 | every queued group is the contribution of a due entry, in that entry's tier |
| LeaguePlan.QueuesComplete | internal/league/league.go:139-171 | every processed entry has its contribution queued in its own tier's lane |
| LeaguePlan.QueuesOneGroup | internal/league/league.go:139-171 | with distinct prefixes each prefix has at most one group |
| RoundRobin.Flatten | internal/league/league.go:173-190 | the unbounded round loop ends and lists every item of every group exactly once, by round and then by group |
| RoundRobin.GroupOrderKept | internal/league/league.go:178-189 | every output prefix takes an initial part of every group |
| RoundRobin.Balanced | internal/league/league.go:178-189 | in every output prefix a group that still has items is at most one item behind any other |
| Weave.Interleave | internal/league/league.go:197-218 | the position-counting loop computes the reference plan |
| Weave.PlanLength | internal/league/league.go:197-218 | the plan has min(budget, total queued) entries |
| Weave.PlaceInPlan | internal/league/league.go:197-218 | the exact place of every queued item: what three champion, two challenger and one observation places per round serve before it, as far as the queues reach; or the budget cuts it off |
| Weave.NoStarvation | internal/league/league.go:197-218 | item j of a tier appears by its slot 6(j/3)+j%3, 6(j/2)+3+j%2 or 6j+5, whatever the other queues hold |
| Weave.PicksAreInOrder | internal/league/league.go:200-213 | each tier's picks are an in-order prefix of its queue |
| Weave.SmallerBudgetIsPrefix | internal/league/league.go:197-218 | the plan for a smaller budget is a prefix of the plan for a larger one |
| PlanAgent.FlattenGroups | internal/league/league.go:173-190 | groups are arranged by score and listed completely, round by round |
| PlanAgent.QueueAll | internal/league/league.go:139-171 | the loop over due entries builds the specified queues with one shared map |
| PlanAgent.PlanAgent | internal/league/league.go:107-219 | the planner is filter, sort, queue, flatten per tier and interleave with every intermediate value as specified, the due entries sorted whenever the comparison orders them; the result fits the budget, repeats no address text, and every target lies in the prefix of an active due entry |
| PlanAgent.ServesExactlyTheDue | internal/league/league.go:97-120 | the entries served are exactly the active ones that are forced, never scheduled, or scheduled an hour, six hours or a day ago by tier, as often as they are listed |
| PlanAgent.ServesInFull | internal/league/league.go:107-219 | a plan shorter than its budget holds every due prefix's full 6, 3 or 1 targets, unless all addresses its digests name are in the plan |
| PlanAgent.CandidatesComeFirst | internal/league/league.go:149-163 | in a plan shorter than its budget a candidate of a due prefix is passed over only for the 2, 1 or 0 earlier candidates its tier allows |
| PlanAgent.ServedNarrowestFirst | internal/league/league.go:121-171 | when the due prefixes parse, more specific ones are served first and ties by score, so the addresses already taken when an entry is served belong to entries at least as specific |
| PlanAgent.PlanLength | internal/league/league.go:107-219 | the plan has min(budget, queued targets) entries |
| PlanAgent.TextsDistinct | internal/league/league.go:139-219 | no two planned targets have the same address text, unconditionally |
| PlanAgent.AddressesDistinct | internal/league/league.go:139-219 | with canonical candidates the planned addresses are distinct across anchors and samples |
| PlanAgent.TargetsBelongToDueEntries | internal/league/league.go:115-171 | every planned target lies inside its recorded prefix, which belongs to an active due entry |
| PlanAgent.QuotaPerPrefix | internal/league/league.go:139-219 | with distinct prefixes at most 6/3/1 targets per prefix, at most 2/1/0 of them not generated, and those are candidates |
| LeagueStore.Entries.PlanLeagueTargets | internal/store/postgres/league.go:74-160 | the stored table afterwards, the two error cases without effect, and one plan per agent that is a correct plan of that agent's active entries |
| LeagueStore.Entries.UpsertAll | internal/store/postgres/league.go:99-116 | the upsert loops activate or add exactly the wanted keys, or report a prefix the column cannot take |
| LeagueStore.AskedRows | internal/store/postgres/league.go:91-116 | a key is asked for iff its agent and profile are, and an active prefix of an admitted family names its block |
| LeagueStore.ActiveIffAsked | internal/store/postgres/league.go:91-128 | in scope an entry is active iff asked for; everything out of scope is untouched and deactivated entries keep their history |
| LeagueStore.ReplanningMovesNothing | internal/store/postgres/league.go:118-128 | planning again without a newer result moves no tier and no streak |
| LeagueStore.StoredPlansKeepQuotas | internal/store/postgres/league.go:137-159 | the per-prefix quotas hold for every stored plan without further conditions |
| LeagueStore.AskedIsServedWhenDue | internal/store/postgres/league.go:137-159 | a prefix asked for is in its agent's plan order iff forced, never scheduled, or its tier's wait is over; so a new one always is |
| LeagueStoreRuns.StoredEntriesAreHistories | internal/store/postgres/league.go:118-128 | over any run of requests every stored entry lives through a history of evaluations, so the laws of histories hold of stored tiers and streaks |
| LeagueStore.StoredPlansServeNarrowestFirst | internal/store/postgres/league.go:137-159 | stored prefixes always parse, so every stored plan serves the narrowest prefixes first |
| Percentile.WithinRange | internal/store/postgres/league.go:533-548 | a percentile lies between the first and the last value |
| Percentile.GrowsWithQuantile | internal/store/postgres/league.go:533-548 | percentiles grow with the quantile, also across segment boundaries |
| Percentile.Interpolates | internal/store/postgres/league.go:533-548 | the percentile is linear between the values around (n - 1) * quantile; zero of nothing, the value of one |
| Percentile.TrendLatencies | internal/store/postgres/league.go:498-531 | the trend's two figures come from the sorted available latencies and P50 <= P95 |
| Enrollment.ClaimBinds | internal/store/postgres/enrollments.go:118-196 | a successful claim ties enrollment, agent and credential together |
| Enrollment.BoundDecidesClaims | internal/store/postgres/enrollments.go:132-140 | once bound, the same credential gets the same agent and creates nothing, whatever the clocks say; any other is refused without effect |
| Enrollment.ClaimAddsAtMostOne | internal/store/postgres/enrollments.go:118-196 | a claim adds exactly one agent and one credential if it is the first success, and otherwise changes nothing at all |
| Enrollment.FirstClaimIff | internal/store/postgres/enrollments.go:142-185 | a first claim succeeds iff it is approved, unexpired on both clocks, and neither name nor credential id is taken |
| EnrollmentReplies.ClaimReplies | internal/store/postgres/enrollments.go:118-185 | every answer to a claim under its exact condition on stored status, both clocks, name and credential |
| EnrollmentReplies.FirstClaimStores | internal/store/postgres/enrollments.go:158-196 | what the first success stores: agent under the enrollment's terms, credential, refreshed software, claimed enrollment, and nothing else |
| EnrollmentReplies.CreateStores | internal/store/postgres/enrollments.go:34-49 | a device enrollment waits, a preauthorized one is approved at once; a used token is refused |
| EnrollmentReplies.DecisionStores | internal/store/postgres/enrollments.go:81-116 | decisions by token or id take effect iff pending and unexpired, an approval sets exactly terms and time, and every refusal names its state |
| EnrollmentReplies.LoginStores | internal/store/postgres/enrollments.go:198-210 | a login succeeds iff the credential is live and the secret right, and touches only its last use |
| EnrollmentReplies.ApprovedTerms | internal/store/postgres/enrollments.go:81-98 | over any run the terms of a device enrollment past approval are those of the one approval that decided it, in time |
| Enrollment.BoundAuthenticates | internal/store/postgres/enrollments.go:198-210 | a bound credential logs in as its agent, and only with its own secret |
| Enrollment.ClaimKeeps | internal/store/postgres/enrollments.go:118-196 | claiming keeps the one-to-one correspondences |
| EnrollmentStore.Registry.CreateAgentEnrollment | internal/store/postgres/enrollments.go:34-49 | the insert, refused for a used token |
| EnrollmentStore.Registry.ApproveAgentEnrollment | internal/store/postgres/enrollments.go:81-98 | approval applies to pending unexpired rows only; otherwise the error follows from the displayed state |
| EnrollmentStore.Registry.RejectAgentEnrollment | internal/store/postgres/enrollments.go:100-116 | rejection, likewise |
| EnrollmentStore.Registry.ApproveAgentEnrollmentByID | internal/store/postgres/enrollments.go:240-257 | approval by id is approval of the row with that id |
| EnrollmentStore.Registry.RejectAgentEnrollmentByID | internal/store/postgres/enrollments.go:259-275 | rejection by id, likewise |
| EnrollmentStore.Registry.ClaimAgentEnrollment | internal/store/postgres/enrollments.go:118-196 | the claim transaction with its branch order; a failed insert rolls everything back |
| EnrollmentStore.Registry.AuthenticateAgentCredential | internal/store/postgres/enrollments.go:198-210 | the login update touches one credential's last use, or nothing |
| EnrollmentRuns.InvAlways | internal/store/postgres/enrollments.go:34-275 | every reachable state keeps all correspondences and unique names |
| EnrollmentRuns.OneToOne | internal/store/postgres/enrollments.go:118-196 | in every reachable state claimed enrollments, agents and credentials are matched one to one and equally many |
| EnrollmentRuns.RetriesAfterSuccess | internal/store/postgres/enrollments.go:132-140 | at any time after a success, the same credential is answered with the same agent and any other with "already claimed"; no table changes |
| EnrollmentRuns.ExactlyOneAgent | internal/store/postgres/enrollments.go:118-196 | two successful claims share the agent iff they share the enrollment iff they share the credential |
| EnrollmentRuns.LoginsAfterSuccess | internal/store/postgres/enrollments.go:198-210 | after a success the credential logs in as that agent forever |
| EnrollmentRuns.LoginsComeFromClaims | internal/store/postgres/enrollments.go:118-210 | every successful login traces back to a successful claim with exactly that credential |
| EnrollmentRuns.OneDecisionWins | internal/store/postgres/enrollments.go:81-116 | of all approvals and rejections of one enrollment, by token or by id, at most one succeeds |
| EnrollmentRuns.ClaimNeedsApproval | internal/store/postgres/enrollments.go:142-156 | a device enrollment is claimed only after its approval and never after a rejection |
| EnrollmentClient.WaitForEnrollment | cmd/agent/cli.go:155-185 | the loop resends one credential, updates the interval and ends as specified |
| EnrollmentProgress.PendingIsAwaited | cmd/agent/cli.go:155-185 | while every request that arrives finds the enrollment pending and in time, the client never gives up: it waits until told to stop, at the center's interval but at least a second |
| EnrollmentProgress.AnswerDecides | cmd/agent/cli.go:155-185 | which delivered answers end the exchange and which make the client ask again |
| EnrollmentProgress.ApprovedIsAccepted | cmd/agent/cli.go:155-185 | if the first request not finding it pending finds it approved, in time and unobstructed, the exchange ends accepted under the approved terms iff an answer gets through before a stop |
| EnrollmentClient.ExchangeIsSafe | cmd/agent/cli.go:155-185 | whatever is lost and whatever else happens, an accepted client owns its enrollment's agent and a refused one left nothing behind |
| EnrollmentClient.AtMostOneOwnAgent | cmd/agent/cli.go:155-185 | all rounds together create at most one agent for the client |
| EnrollmentClient.CommittedIsAccepted | cmd/agent/cli.go:155-185 | once the claim is committed, the exchange ends in the acceptance as that agent iff an answer gets through before the client is told to stop, and never in a refusal |
| RateLimiter.RateLimiter.Allow | internal/enrollment/limiter.go:29-44 | admits, counts and resets as specified and touches no other key |
| RateLimiter.AdmittedIff | internal/enrollment/limiter.go:29-44 | over any trace a call is admitted iff it opens a window or fewer calls than the limit preceded it there, and the wait a refusal states, told from the calls alone |
| RateLimiter.LessThanTwiceTheLimit | internal/enrollment/limiter.go:29-44 | over any trace with non-decreasing time at most 2 * limit - 1 admissions per key in any half-open window (and one if the limit is not positive) |
| RateLimiter.RetrySuffices | internal/enrollment/limiter.go:38-40 | waiting as long as a refusal says is enough, and that is at least a second |
| LoginLimiter.LoginLimiter.Allow | internal/auth/limiter.go:31-46 | blocks exactly until the stored time and forgets outdated attempts |
| LoginLimiter.LoginLimiter.Failure | internal/auth/limiter.go:48-61 | counts within the window and blocks from the maximum on |
| LoginReference.RefusedIff | internal/auth/limiter.go:31-68 | over any trace an attempt is refused iff the window since the last success holds the permitted failures and the latest is less than the block ago |
| LoginReference.LoginRefusedIff | internal/auth/limiter.go:23-25 | for the limiter in use: eight failures in five minutes, ten minutes |
| LoginLimiter.FailureBound | internal/auth/limiter.go:31-61 | with m = max(maxFailures, 1), any half-open window of one key records at most m + max(m - 2, 0) failures if the block is as long as the window, and at most 2m - 1 if m >= 2 and it is half as long |
| LoginLimiter.LoginBound | internal/auth/limiter.go:23-25 | the limiter in use records at most 14 failures per key in any five minutes |
| LoginTraces.SharpIff | internal/auth/limiter.go:31-61 | over all limits, m + max(m - 2, 0) bounds every trace iff the window is not positive or the block is at least as long |
| LoginTraces.TwiceIff | internal/auth/limiter.go:31-61 | over all limits, 2m - 1 bounds every trace iff the window is not positive or, for m = 1, the block is as long as the window, and for larger m at least half as long |
| LoginTraces.SharpIsReached | internal/auth/limiter.go:31-61 | the sharp bound is reached by some trace whenever the window has room for two instants |

## Left out

- Storage of `ip_targets`, job display columns, last-scheduled marks and audit columns: no modelled decision reads them.
- Existence of agents behind foreign keys: a missing agent makes the insert fail and roll back.
- SQL isolation and row-lock mechanics: a transaction is one atomic step; rows locked by others appear as sets.
- Gaps in generated ids: new ids are the next numbers, and only their order and freshness are used.
- Non-canonical spellings inside the database: `inet` and `cidr` columns hold canonical values.
- Floating-point rounding: latencies, losses and fractions are reals.
- SHA-256, random credentials and text forms of prefixes: arbitrary functions or parameters.
- HTTP handlers, JSON, real probing, cron schedules, users, dashboards and the web interface.
- Sorting algorithms: only the rearrangement and, for a comparison that orders the elements, the order are promised.
- The agent's decision when to claim: runs contain claims at arbitrary times.
- EnrollmentStore.Registry.CreateAgentEnrollment: takes the mode and derives the initial status from it, as both callers do (`internal/api/enrollments.go:57-61` and `internal/api/enrollments.go:204-208`); other combinations are not modelled.
- LeagueStore.Entries.PlanLeagueTargets: aggregates and candidate rankings over results are parameters, so their SQL is not modelled.
- ScanStore.Store.CreateBlacklistRechecks: treats the whole recheck run as uninterrupted and at one instant; the source reads the candidates first and then commits one transaction per agent, so other transactions may fall in between and each has its own time. What one such transaction does at any time is `CreateRecheckJob`, and runs (`ScanRuns`) interleave them freely.
