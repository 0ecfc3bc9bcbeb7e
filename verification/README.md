# raglogs, modelled in Dafny

raglogs ingests logs, groups them into clusters, compares time windows and ranks root-cause
candidates. This project models the parts of it whose correctness depends on whole runs, on
interleavings or on sums over whole lists, and proves what those parts are for. Code that works by
changing things step by step (union-find, the graph searches, the paging loops, the token bucket,
the aggregation and diff loops) is modelled by methods and classes, each proved against a
specification; the two concurrent protocols are modelled as step relations, and their theorems range
over every run of any number of participants.

| file | models |
|---|---|
| `Sequences.dfy`, `Reals.dfy`, `Clusters.dfy` | sums, flattening, stable sorting; products and quotients; cluster records, summed dictionaries, seen-ranges |
| `DisjointSets.dfy`, `SemanticMerge.dfy` | union-find with path halving; merging similar clusters by connected component |
| `CallGraph.dfy`, `Identifiability.dfy`, `OnsetMeaning.dfy`, `Resolver.dfy`, `FullPropagation.dfy` | caller reachability and hop distances; predictions, signatures, distinguishers, elimination; what ranks and survival say of the observations; outcomes; when a fault is identified |
| `WorkerQueue.dfy`, `WorkerOutcomes.dfy` | claiming, executing, committing and announcing jobs, with crashes; how each job comes about and ends |
| `IdempotentEnqueue.dfy`, `IdempotencyWindows.dfy`, `IdempotentAnswers.dfy`, `IdempotencyRace.dfy` | concurrent POSTs that share Idempotency-Keys: the protocol, when one job is bound at a time, what requests are told, and a run that binds two |
| `RateLimiter.dfy` | the token bucket and the store of buckets |
| `CriReassembly.dfy`, `CriInterruptions.dfy`, `DatadogReader.dfy`, `LokiReader.dfy` | stream readers |
| `Clusterer.dfy`, `ClusterBuilder.dfy`, `ClusterRecords.dfy`, `Ranking.dfy` | the row scan, the server-side aggregation that replaced it, their records against the rows, the ranking cap |
| `WindowDiff.dfy`, `DiffEntries.dfy`, `DiffTotals.dfy`, `DiffMirror.dfy` | window diff: the five lists, their entries by counts, what they add up to, what swapping the windows does |
| `Calibration.dfy`, `GroupingAccuracy.dfy` | the evaluation scores |

`dafny verify dfyconfig.toml` checks everything.

## Findings

Where a promise does not hold of the code on all inputs, the project states exactly when it does.

- One Idempotency-Key can end up bound to two live jobs. `store_idempotency_key` tests the row it read, but
  its DELETE goes by primary key (`src/core/ingestion/idempotency.py:85-90`) and removes whatever row is
  committed by then. Two requests that have read the same expired row can therefore both answer 202: the
  second deletes the live row the first has just committed (`IdempotencyRace.TwoLiveJobs`, `BothCanBind`).
  The windows of a key's jobs follow one another in commit order if and only if no DELETE that goes on to
  commit removes a row active at its request's clock reading (`IdempotencyWindows.WindowsFollowIff`);
  for requests that finish within one lifetime the same condition is equivalent to windows that never
  overlap (`WindowsDisjointIff`). It holds whenever every DELETE removes the row its request had read
  (`UndisturbedIsCareful`), and a second job needs an expired row to begin with (`SecondJobReadExpired`).
- A crash returns a claimed job to the queue if and only if its committed row still reads "pending".
  The purge body commits on its way (`src/core/retention/purge.py:589` and `604`), which commits
  "running" and drops the row lock. A worker that dies after that leaves a row that nobody ever
  claims again, and no idle poll that reads while it is there schedules another purge
  (`WorkerQueue.CrashLeavesClaimable`, `OrphanIsForever`, `LatePurgeReadBefore`, `OrphanedOnlyByCrash`,
  `PurgeCrashExample`).
- The Loki reader loses entries if and only if two entries with the same timestamp stand astride a
  multiple of the page limit, counted from the first entry of the range: the next request starts one
  nanosecond after the last entry of a full page (`LokiReader.CompleteIff`, `SkippedIff`,
  `SameInstantIsLost`). The guard against a stuck cursor is never taken.
- CRI reassembly loses whitespace. The reader joins the `msg` groups of the CRI pattern, whose greedy `\s+`
  behind the tag (`src/core/parsing/text_parser.py:46`) takes all whitespace a fragment begins with, while
  kubelet cuts at any byte: `connection` and ` refused` come back as `connectionrefused`, although the
  docstring promises fingerprints one-to-one with the original (`CriReassembly.SpaceAtTheCutIsLost`). Lines
  come back exactly if and only if none was cut into fragments one of which begins with whitespace
  (`ReassemblyUndoesSplitting`), and with their own `msg` group if and only if no fragment behind the first
  visible character does (`MessageSurvivesIff`). Nothing else is ever lost (`ReassemblyKeepsPayload`,
  `LosslessIff`).
- CRI reassembly rejoins a line only if its fragments are consecutive. Full or partial records of the other
  stream, or foreign lines, between fragments make one piece more than there are interruptions; the line
  comes back as one record if and only if there is none (`CriInterruptions.InterruptedLineComesBackInPieces`,
  `OneRecordIff`, `ComesBackIff`). A record of its stream left open before it swallows it
  (`OpenRecordIff`).
- Swapping the windows of a diff mirrors all five lists if and only if no fingerprint of both windows has
  at most one line in all; otherwise the guard against division by zero shows (`WindowDiff.MirrorIff`,
  `DiffMirror.ListsMirrorIff`).
- The counts in a diff add up to the lines of a window if and only if, among its clusters that are not
  collapsed, one that shares its fingerprint with a later one is empty, and so is one whose fingerprint is
  the label of a collapsed group that exists (`DiffTotals.SumsAreTotalsIff`).
- `merged_fingerprints` together with the fingerprint recovers the members' fingerprints if and only if
  no other member shares the canonical one (`SemanticMerge.FingerprintsRecovered`).
- Once a fault's symptoms have spread everywhere they can, presence alone identifies it if and only if
  its service shares no call cycle with another one (`FullPropagation.IdentifiedIff`).
- The docstring of `_aggregate_groups` calls the id sample a deterministic prefix; the query has no
  `ORDER BY` inside `array_agg`, so the model lets the sample be any capped sub-multiset.

## Model

| member | source | states |
|---|---|---|
| `DisjointSets.ChaseIsRep` | src/core/clustering/semantic_merge.py:48-52 | on every parent array the forest describes, following parent links from any node terminates at its representative, which is a root |
| `DisjointSets.HalvingStep` | src/core/clustering/semantic_merge.py:50 | replacing a parent by the grandparent leaves every representative and the rank order as they were |
| `DisjointSets.HalvingKeepsRoots` | src/core/clustering/semantic_merge.py:48-52 | any two parent arrays of one forest lead every node to the same root, so path halving never changes a root |
| `DisjointSets.Find` | src/core/clustering/semantic_merge.py:48-52 | terminates although linking is not monotone in the index, returns the root that plain chasing finds, and changes no root |
| `DisjointSets.LinkStep` | src/core/clustering/semantic_merge.py:58 | hanging one root under another keeps a rank that strictly increases along parent links |
| `DisjointSets.Union` | src/core/clustering/semantic_merge.py:54-59 | joins exactly the two classes and reports whether they were different |
| `DisjointSets.AddEdge` | src/core/clustering/semantic_merge.py:54-59 | joining the classes of a and b turns "same class iff chained" for a graph into the same for the graph with that edge |
| `SemanticMerge.LinkSimilar` | src/core/clustering/semantic_merge.py:61-72 | after the pair loops two indices share a root exactly when a chain of eligible, similar pairs joins them; nothing was linked if the flag stays down |
| `SemanticMerge.GroupByRoot` | src/core/clustering/semantic_merge.py:77-79 | the dictionary holds every index once, under its root, ascending, keys in order of smallest member |
| `SemanticMerge.Components` | src/core/clustering/semantic_merge.py:77-82 | the parts list every index exactly once, one part per root, ordered by smallest member |
| `SemanticMerge.CanonicalIsFirstMinimum` | src/core/clustering/semantic_merge.py:172-175 | the canonical member is outranked by nobody and strictly outranks everybody before it |
| `SemanticMerge.CollectIds` | src/core/clustering/semantic_merge.py:188-192 | the ids are those of the canonical member followed by those of the others in member order |
| `SemanticMerge.MergeComponent` | src/core/clustering/semantic_merge.py:171-222 | the merged record, field by field, through the summing loops |
| `SemanticMerge.MergedClusterIdentity` | src/core/clustering/semantic_merge.py:172-199 | fingerprint, message and leading ids come from the member of greatest importance, among those of greatest count, among those of least fingerprint, among those the first; trigger iff a member is one or its message reads like one; merged fingerprints sorted |
| `SemanticMerge.MergedClusterScore` | src/core/clustering/semantic_merge.py:178-206 | change ratio and importance of a merged record are those of its own summed counts, levels, services and trigger flag |
| `Clusters.StrLessIff` | src/core/clustering/semantic_merge.py:172-175 | fingerprints compare by their first difference, where one ends or has the smaller character |
| `SemanticMerge.MergedClusterConserves` | src/core/clustering/semantic_merge.py:176-192 | count, baseline, every per-service, per-level and per-service-error count and every id multiplicity is the sum over the members |
| `SemanticMerge.MergedClusterHull` | src/core/clustering/semantic_merge.py:183-186 | first and last seen are the exact hull of what the members report, absent only if none reports |
| `SemanticMerge.FingerprintsRecovered` | src/core/clustering/semantic_merge.py:194-196 | fingerprint and merged fingerprints recover the members' fingerprints iff no other member shares the canonical one |
| `SemanticMerge.MergeSemanticClusters` | src/core/clustering/semantic_merge.py:23-90 | errors exactly if the numbers differ or the embeddings do not share one positive dimension; otherwise one cluster per connected component of the similarity graph, ordered by smallest member, lone clusters unchanged |
| `SemanticMerge.MergedIffSimilar` | src/core/clustering/semantic_merge.py:61-72 | a cluster ends up merged iff another one exists such that both reach the minimum count, have a message that is not blank and an embedding that is not all zero, and are at least as similar as the threshold |
| `SemanticMerge.MergeConserves` | src/core/clustering/semantic_merge.py:77-90 | over the whole list every summable measure and the multiset of ids are those of the input |
| `SemanticMerge.MergeKeepsFingerprints` | src/core/clustering/semantic_merge.py:194-196 | with distinct, not yet merged fingerprints the output carries exactly the input fingerprints |
| `Clusters.SumCounts` | src/core/clustering/semantic_merge.py:163-168 | the accumulation loop yields, key by key, the sum over all dictionaries |
| `Clusters.SeenIsHull` | src/core/clustering/semantic_merge.py:183-186 | minimum and maximum are attained, bound every known time, and are absent only if none is known |
| `CallGraph.CallerIndexMeans` | scripts/spike_signature_sensitivity.py:97-99 | the index relates exactly the given caller-callee pairs |
| `CallGraph.TransitiveCallers` | scripts/spike_signature_sensitivity.py:96-107 | terminates on every graph and returns exactly the services at least one caller hop away, the start itself included only on a cycle |
| `CallGraph.Relax` | scripts/spike_signature_sensitivity.py:115-118 | every caller gets the lower of its label and the offer; exactly the services whose label changed are stacked, with their new label |
| `CallGraph.RelaxKeepsInv` | scripts/spike_signature_sensitivity.py:113-118 | labels stay lengths of real chains and every label is either still stacked or respected by all callers, stale entries notwithstanding |
| `CallGraph.RelaxProgress` | scripts/spike_signature_sensitivity.py:113-118 | each iteration labels a new service, lowers the label sum, or shrinks the stack |
| `CallGraph.HopDist` | scripts/spike_signature_sensitivity.py:110-119 | terminates on every graph, cycles included, and labels exactly the reachable services with the least number of caller hops |
| `CallGraph.HopDomain` | scripts/spike_signature_sensitivity.py:96-119 | the labelled services are the start and its transitive callers, and only the start has label 0 |
| `CallGraph.LabelsAreMinimal` | scripts/spike_signature_sensitivity.py:110-119 | once no caller can be relaxed, no chain is shorter than its label |
| `Identifiability.Predict` | scripts/spike_signature_sensitivity.py:146-176 | through both searches, each service gets the forecast for its exact hop distance, or the all-absent one |
| `Identifiability.SameSignatureIff` | scripts/spike_signature_sensitivity.py:236-288 | two hypotheses share a signature iff none of their distinguishers is usable |
| `Identifiability.SameRows` | scripts/spike_signature_sensitivity.py:246-248 | presence rows agree iff no presence distinguisher is usable |
| `Identifiability.SameTails` | scripts/spike_signature_sensitivity.py:249-251 | the source-tagged onset parts agree iff no onset distinguisher is usable |
| `Identifiability.SameOrder` | scripts/spike_signature_sensitivity.py:250-251 | onset lists agree iff every service has the same onset in both |
| `Identifiability.DistinctAreDistinguishable` | scripts/spike_signature_sensitivity.py:259-283 | any two different hypotheses have a distinguisher |
| `Identifiability.SilentVersusLoud` | scripts/spike_signature_sensitivity.py:158-163 | a loud and a silent error of one service differ exactly in its own error log and error rate |
| `Identifiability.ObservedOnsetRanks` | scripts/spike_signature_sensitivity.py:191-211 | the loop computes the rank map that RanksMean characterises |
| `OnsetMeaning.OrderedMeans` | scripts/spike_signature_sensitivity.py:195-204 | the sorted onsets hold each service with a known onset of that source once, with that onset, in order of time |
| `OnsetMeaning.RanksMean` | scripts/spike_signature_sensitivity.py:191-211 | exactly the services with a known onset of that source are ranked, and one ranks below another iff some observed onset from the first up to before the second is followed by silence for longer than the tolerance |
| `Identifiability.RankMeans` | scripts/spike_signature_sensitivity.py:204-210 | one onset ranks below another iff some onset in between is followed by a quiet stretch longer than the tolerance |
| `Identifiability.Consistent` | scripts/spike_signature_sensitivity.py:214-233 | a hypothesis passes iff no hard prediction is contradicted by a usable observation, in presence or in onset order |
| `OnsetMeaning.CellMeans` | scripts/spike_signature_sensitivity.py:146-176 | an observed or missing symptom contradicts a prediction iff it is missing at the cause, present beyond what may spread to callers, or present where no caller chain leads |
| `OnsetMeaning.SurvivesMeans` | scripts/spike_signature_sensitivity.py:214-233 | a hypothesis survives iff every usable symptom fits and, if the onsets of its kind are usable, no service nearer to the cause is seen to fail a quiet stretch after one farther away |
| `Identifiability.MoreUsableRefines` | scripts/spike_signature_sensitivity.py:236-252 | making more observables usable only splits signature classes |
| `Identifiability.LargerToleranceMoreSurvivors` | scripts/spike_signature_sensitivity.py:191-233 | growing the onset tolerance only adds survivors |
| `Resolver.RanksBySource` | scripts/spike_signature_sensitivity.py:294-297 | ranks exist for exactly the usable onset sources |
| `Resolver.CollectSurvivors` | scripts/spike_signature_sensitivity.py:298-307 | the survivors, in order, are exactly the hypotheses no usable observation contradicts, each with its signature |
| `Resolver.Classes` | scripts/spike_signature_sensitivity.py:308-310 | each signature's class holds exactly the survivors that carry it, in order |
| `Resolver.MissingDistinguishers` | scripts/spike_signature_sensitivity.py:324-331 | the union, over all pairs of members, of their distinguishers that were not usable |
| `Resolver.Resolve` | scripts/spike_signature_sensitivity.py:291-331 | survivors, outcome and missing distinguishers as specified, on every well-formed case |
| `Resolver.UncertainIff` | scripts/spike_signature_sensitivity.py:311-318 | UNCERTAIN iff two survivors differ at a usable coordinate |
| `Resolver.NonIdentifiableNamesWhatIsMissing` | scripts/spike_signature_sensitivity.py:320-331 | NON_IDENTIFIABLE always comes with a non-empty set of missing coordinates, none of them usable, holding every distinguisher of any two members |
| `Resolver.EverythingUsableIdentifies` | scripts/spike_signature_sensitivity.py:311-331 | with everything usable the outcome is never NON_IDENTIFIABLE |
| `Resolver.MoreUsableOnlyNarrows` | scripts/spike_signature_sensitivity.py:298-318 | making more observables usable only eliminates survivors; NONE stays NONE, and IDENTIFIED stays with the same hypothesis unless that is eliminated |
| `FullPropagation.SurvivesIff` | scripts/spike_signature_sensitivity.py:146-176 | for a fully spread fault judged by presence, exactly the true hypothesis and, on a call cycle through it, the loud alternatives survive |
| `FullPropagation.SurvivorsAreRivals` | scripts/spike_signature_sensitivity.py:214-233 | whatever onsets are usable as well, nothing else can survive |
| `FullPropagation.IdentifiedIff` | scripts/spike_signature_sensitivity.py:291-318 | the true hypothesis always survives, and is the sole survivor (IDENTIFIED) iff its service shares no call cycle with another |
| `FullPropagation.IdentifiedWithOnsets` | scripts/spike_signature_sensitivity.py:291-318 | with onsets usable too, a true hypothesis no onset order contradicts is identified off a cycle |
| `WorkerQueue.StepKeepsInv` | src/worker/runner.py:163-205 | every step of every worker, crashes included, keeps locks, phases, rows and callbacks in agreement |
| `WorkerQueue.InvHolds` | src/worker/runner.py:163-205 | hence the invariant holds in every state of every run |
| `WorkerQueue.NoDoubleClaim` | src/worker/runner.py:21-41 | no two live workers have the same job; a claimed job still reads pending to others and its row is locked by the claimant; only a purge is ever seen running |
| `WorkerQueue.StepForward` | src/worker/runner.py:163-198 | a row changes only by a commit of the worker that has it, never backwards and never out of a terminal status |
| `WorkerQueue.StatusOnlyMovesForward` | src/worker/runner.py:163-198 | over any stretch of a run no job is lost, status only moves forward, and done or failed is final |
| `WorkerQueue.CommittedOnce` | src/worker/runner.py:195-198 | a job's terminal status is committed at most once |
| `WorkerQueue.TerminalWasCommitted` | src/worker/runner.py:195-198 | every terminal row goes back to a commit step by the worker that had the job |
| `WorkerOutcomes.EndedAsReached` | src/worker/runner.py:172-198 | a row that reads done or failed goes back to the end of the job's body in the hands of the worker that later committed it, with no crash in between: done iff the body ended well |
| `WorkerOutcomes.ClaimedJobCanEnd` | src/worker/runner.py:163-204 | whoever has claimed a job, whether or not its body committed on its way, can end it either way: exactly its row changes, its lock goes, and an ingest job is announced |
| `WorkerOutcomes.PurgeCanCommitOnItsWay` | src/core/retention/purge.py:589-605 | a purge can commit on its way as often as it likes: its row then reads running and is locked by nobody |
| `WorkerOutcomes.NewRowIs` | src/core/retention/purge.py:608-659 | a row appears exactly when an enqueue, an idle poll or a purge's follow-up asks for it, pending, with that kind and time |
| `WorkerOutcomes.TwoPollsTwoPurges` | src/core/retention/purge.py:628-659 | an idle poll may schedule a purge iff it finds none pending or running; two polls that read before either inserts schedule two purges, both claimable |
| `WorkerQueue.CallbackAfterCommit` | src/worker/runner.py:195-204 | a callback is attempted only for an ingest job whose terminal status an earlier step committed, and never twice |
| `WorkerOutcomes.FinishedIsAnnounced` | src/worker/runner.py:195-204 | every finished ingest job has been announced or is about to be, unless its worker died between commit and announcement |
| `WorkerQueue.CrashLeavesClaimable` | src/db/session.py:33-44 | a crash leaves the job claimable iff its committed row reads pending, so always unless it is a purge |
| `WorkerQueue.OrphanIsForever` | src/core/retention/purge.py:628-659 | a running row without a worker is never claimed or finished, and no idle poll that reads from then on schedules a purge |
| `WorkerQueue.LatePurgeReadBefore` | src/core/retention/purge.py:640-659 | a purge scheduled after that comes from a poll that had already read, at most one per worker |
| `WorkerQueue.OrphanedOnlyByCrash` | src/core/retention/purge.py:589-605 | that happens only by a crash of a purge worker after the body has committed |
| `WorkerQueue.PurgeCrashExample` | src/core/retention/purge.py:566-605 | a concrete run that ends there |
| `WorkerQueue.ReclaimNeedsCrash` | src/worker/runner.py:21-41 | between two claims of one job the first claimant has crashed |
| `WorkerQueue.EveryJobIsSomewhere` | src/worker/runner.py:163-205 | in every reachable state a job is claimable, held, finished or orphaned, and these exclude one another; one of unknown type is never done |
| `IdempotentEnqueue.StepKeepsInv` | src/api/routes/ingestions.py:551-612 | every step of every request, deletes by key, unique violations and crashes included, keeps key rows, jobs, open inserts and answers in agreement |
| `IdempotentEnqueue.InvHolds` | src/api/routes/ingestions.py:551-612 | hence the invariant holds in every state of every run |
| `IdempotentEnqueue.TablesGrow` | src/core/ingestion/idempotency.py:85-110 | no step changes or removes a committed job or leaves a key without a row |
| `IdempotentEnqueue.JobsPersist` | src/api/routes/ingestions.py:586-612 | over any stretch of a run a committed job stays as it is |
| `IdempotencyWindows.CarefulIff` | src/core/ingestion/idempotency.py:85-100 | a commit replaces a row active at the request's clock reading iff that request's DELETE had removed one |
| `IdempotencyWindows.WindowsFollowIff` | src/core/ingestion/idempotency.py:85-110 | in every run the windows of a key's jobs follow one another in commit order iff no DELETE that goes on to commit removes a row active at its request's clock reading |
| `IdempotencyWindows.WindowsDisjointIff` | src/core/ingestion/idempotency.py:85-110 | for requests that do not outlive a window, the windows of a key's jobs never overlap iff no DELETE that goes on to commit removes an active row |
| `IdempotencyWindows.WindowsApart` | src/core/ingestion/idempotency.py:85-110 | while no DELETE that goes on to commit removes an active row, any two jobs of a key have windows apart |
| `IdempotencyWindows.RowIsLast` | src/core/ingestion/idempotency.py:92-99 | while no commit replaces an active row, the row of a key belongs to the job whose window comes last |
| `IdempotencyWindows.OneLiveJobPerKey` | src/db/models.py:379-393 | while no DELETE that goes on to commit removes an active row, at any instant at most one surviving job is bound to a key |
| `IdempotencyWindows.UndisturbedIsCareful` | src/core/ingestion/idempotency.py:85-90 | no active row is removed if every DELETE removes the row its request had read |
| `IdempotencyWindows.SecondJobReadExpired` | src/core/ingestion/idempotency.py:85-110 | a second job under a key needs a request that read an expired row; without one at most one job is ever created |
| `IdempotencyRace.BothCanBind` | src/core/ingestion/idempotency.py:85-100 | from any reachable state in which two requests have read an expired row and nobody holds the key, both can answer 202 with different jobs over overlapping windows |
| `IdempotencyRace.TwoLiveJobs` | src/core/ingestion/idempotency.py:85-100 | a concrete reachable state with two live jobs under one key, both announced |
| `IdempotentAnswers.AcceptedNamesOwnJob` | src/api/routes/ingestions.py:295-317 | a 202 names a surviving job created under the request's own key and scope, with its mode |
| `IdempotentAnswers.AnswersAgree` | src/api/routes/ingestions.py:376-407 | while no DELETE that goes on to commit removes an active row, two 202 answers for one key name the same job or jobs whose windows do not overlap |
| `IdempotentAnswers.MeetingIsAnswered` | src/api/routes/ingestions.py:352-407 | a request that meets an active row of its key, at the replay check, after adding its own job or as the loser of the race, is told for the rest of every run, unless it dies, that row's job with its mode if the job has its scope, and a conflict otherwise |
| `IdempotentAnswers.ConflictMeansOtherScope` | src/api/routes/ingestions.py:363-405 | nobody is told of a conflict unless the request met a row whose job has another scope |
| `IdempotentAnswers.FailureWasLostRace` | src/core/ingestion/idempotency.py:100-110 | a request fails only if its INSERT met another row of the key and, when it read the key again, the row there had expired at its own clock reading |
| `IdempotentAnswers.JobIsAsRequested` | src/api/routes/ingestions.py:586-606 | a committed job has the key, scope and mode its creator asked for, and its window begins at the clock reading with which the creator read the key and lasts for the configured lifetime |
| `IdempotentAnswers.EveryJobWasAnnounced` | src/db/session.py:33-44 | every surviving job has one creator of its own, which was or is about to be told of it or has died since; a request told anything else left no job behind |
| `IdempotentAnswers.RetryIsAnswered` | src/api/routes/ingestions.py:352-373 | once a job is committed under a key, even if its creator died before replying, every later lookup before it expires is answered with it or with a conflict, never refused, while no DELETE that goes on to commit removes an active row |
| `IdempotentAnswers.RefusedOnlyUnbound` | src/api/routes/ingestions.py:551-558 | a request is refused for a full queue only after a lookup that found no live binding |
| `IdempotentAnswers.FullIsRefused` | src/api/routes/ingestions.py:556-558 | a request that finds the queue full is told so, unless it dies, for the rest of every run |
| `IdempotentAnswers.RefusedWasFull` | src/api/routes/ingestions.py:556-558 | a request is told so only if it found the queue full |
| `RateLimiter.TokenBucket.Consume` | src/api/ratelimit.py:43-61 | the object's new state and decision are those of the pure step |
| `RateLimiter.TokenBucket.constructor` | src/api/ratelimit.py:36-41 | a new bucket is unconfigured and empty |
| `RateLimiter.Limiter.AllowRequest` | src/api/ratelimit.py:107-117 | only the bucket of the call's key changes, created on first use |
| `RateLimiter.TokenIffFits` | src/api/ratelimit.py:58-61 | a token is available iff the log of accepted calls has room for one more |
| `RateLimiter.BucketRefinesLog` | src/api/ratelimit.py:43-61 | the lazily refilled counter decides, on every run, exactly as a limiter that remembers every accepted call and checks every window |
| `RateLimiter.ReconfiguredStartsOver` | src/api/ratelimit.py:48-61 | whatever a bucket held, after a change of rate or capacity it decides as a limiter that remembers no accepted call |
| `RateLimiter.SwitchedOffLeavesNoTrace` | src/api/ratelimit.py:44-45 | calls made while the limit is switched off pass and leave the bucket as if they had not been made |
| `RateLimiter.RateIsBounded` | src/api/ratelimit.py:43-61 | the accepted calls from one to another number at most max(burst, 1) + rate times the time between |
| `RateLimiter.IntervalBound` | src/api/ratelimit.py:43-61 | the calls accepted in any interval number at most max(burst, 1) + rate times its length |
| `RateLimiter.SpacedCallsPass` | src/api/ratelimit.py:43-61 | calls spaced at least 1/rate apart are never refused |
| `RateLimiter.RefusedCallsLeaveNoTrace` | src/api/ratelimit.py:43-61 | with all refused calls deleted every other call is decided as before |
| `RateLimiter.TokensInRangeForEver` | src/api/ratelimit.py:43-61 | over any run, configuration changes included, the fill level stays within [0, capacity] |
| `RateLimiter.KeysAreIndependent` | src/api/ratelimit.py:107-117 | the decisions for one (kind, identity) are those of its own calls alone |
| `RateLimiter.InterleavingIrrelevant` | src/api/ratelimit.py:107-117 | interleavings that agree on a key's calls give it the same answers |
| `RateLimiter.KeyIntervalBound` | src/api/ratelimit.py:43-117 | in any interleaving with other keys the accepted calls of one key in any interval number at most max(burst, 1) + rate times its length |
| `RateLimiter.KeySpacedCallsPass` | src/api/ratelimit.py:43-117 | whatever other keys do, a caller spaced at least 1/rate apart is never refused |
| `CriReassembly.ReassembleFragments` | src/adapters/k8s/adapter.py:197-260 | the one-pass reader with pending parts computes the block-by-block join of messages, lines that are not joined staying as they are |
| `CriReassembly.CutsComeBack` | src/adapters/k8s/adapter.py:197-203 | lines cut in any legal way come back one for one, in order, with the first fragment's timestamp and their joined messages |
| `CriReassembly.ReassemblyUndoesSplitting` | src/adapters/k8s/adapter.py:197-203 | they come back exactly iff no line was cut into fragments one of which begins with whitespace |
| `CriReassembly.MessagesIff` | src/core/parsing/text_parser.py:44-47 | joined messages are the text that was cut iff no piece begins with whitespace |
| `CriReassembly.MessageSurvivesIff` | src/core/parsing/text_parser.py:44-47 | the rejoined line has the original `msg` group iff it was not cut or no fragment behind its first visible character begins with whitespace |
| `CriReassembly.SpaceAtTheCutIsLost` | src/adapters/k8s/adapter.py:223-254 | a concrete legal cut that glues two words together |
| `CriReassembly.ReassemblyKeepsPayload` | src/adapters/k8s/adapter.py:218-260 | for arbitrary input the output holds the characters of the input in order, each in its stream, with every foreign line in place, less the whitespace at the start of joined records; no partial record survives |
| `CriReassembly.LosslessIff` | src/adapters/k8s/adapter.py:218-260 | nothing at all is lost iff no joined record begins with whitespace |
| `CriReassembly.FixedIffWhole` | src/adapters/k8s/adapter.py:218-260 | input is left alone iff it holds no partial record; a second pass is the identity |
| `CriInterruptions.PiecesCount` | src/adapters/k8s/adapter.py:218-260 | records end exactly where a line does not continue the one before it: two pieces of input reassembled apart give the records of the whole, one too many if the cut fell inside a record |
| `CriInterruptions.PiecesIff` | src/adapters/k8s/adapter.py:218-260 | input may be reassembled in pieces iff no piece ends inside a record |
| `CriInterruptions.InterruptionEndsRecord` | src/adapters/k8s/adapter.py:219-250 | whatever does not begin in the stream of a begun record ends it, in any surrounding input |
| `CriInterruptions.WovenComesBack` | src/adapters/k8s/adapter.py:218-260 | fragments with gaps among them: those with nothing between them are joined, and every gap is reassembled for itself |
| `CriInterruptions.InterruptedLineComesBackInPieces` | src/adapters/k8s/adapter.py:219-250 | a line interrupted any number of times, in any surrounding input, yields exactly one record of its stream more than there are interruptions |
| `CriInterruptions.OneRecordIff` | src/adapters/k8s/adapter.py:219-254 | wherever what came between may stand, the line is one record of the output iff nothing came between, and that record is the joined line |
| `CriInterruptions.ComesBackIff` | src/adapters/k8s/adapter.py:197-260 | the line comes back as it was iff nothing came between its fragments and it was not cut in front of whitespace |
| `CriInterruptions.OpenRecordIff` | src/adapters/k8s/adapter.py:237-241 | consecutive fragments are a record of their own iff no record of their stream was left open before |
| `DatadogReader.YieldPage` | src/adapters/datadog/adapter.py:344-356 | hands out exactly the objects of the part of the page it consumed, and the whole page unless the consumer stops, which it does exactly when it has what it wanted |
| `DatadogReader.ReadPage` | src/adapters/datadog/adapter.py:338-366 | one request either ends the read honestly or moves cursor and lines forward together |
| `DatadogReader.Read` | src/adapters/datadog/adapter.py:301-366 | terminates; lines are exactly the objects from the saved cursor up to where it got, at most max_rows; the cursor left never lies beyond them; abandoned iff the consumer has as many lines as it wanted, failed only at the request that fails, no page larger than asked for |
| `DatadogReader.ChainedReadsAreExact` | src/adapters/datadog/adapter.py:359-366 | reads chained by the saved cursor concatenate to the server's objects with no gap and no repeat |
| `DatadogReader.InterruptionsLoseNothing` | src/adapters/datadog/adapter.py:331-366 | however reads are interrupted, resuming from the saved cursor never loses an event |
| `LokiReader.Fetch` | src/adapters/loki/adapter.py:177-237 | one request brings the next page and moves the start strictly forward if the page was full |
| `LokiReader.Read` | src/adapters/loki/adapter.py:148-237 | terminates, hands out the specified pages, leaves the specified cursor, and after a failed request leaves one from which exactly the missing pages follow |
| `LokiReader.LatestOfPage` | src/adapters/loki/adapter.py:204-218 | the largest timestamp seen is that of the page's last entry, however streams are grouped |
| `LokiReader.NeverTwice` | src/adapters/loki/adapter.py:177-237 | pages follow one another and never overlap |
| `LokiReader.SkippedIff` | src/adapters/loki/adapter.py:228-237 | an entry is skipped iff it lies behind a full page whose last entry has its timestamp |
| `LokiReader.NoPageSplitsIff` | src/adapters/loki/adapter.py:228-237 | nothing is skipped iff no full page ends between two equal timestamps |
| `LokiReader.CompleteIff` | src/adapters/loki/adapter.py:228-237 | nothing is skipped iff no two entries of the range with equal timestamps stand astride a multiple of the limit, a condition on the log alone |
| `LokiReader.DistinctTimestampsComplete` | src/adapters/loki/adapter.py:228-237 | distinct timestamps give a complete read |
| `LokiReader.SameInstantIsLost` | src/adapters/loki/adapter.py:228-237 | a concrete log that loses an entry |
| `LokiReader.ResumeContinues` | src/adapters/loki/adapter.py:165-175 | resuming at the cursor left after a full page continues the same sequence of pages |
| `Clusterer.GroupRows` | src/core/clustering/clusterer.py:59-93 | the scan files every row under its fingerprint and counts exactly what each row contributes |
| `Clusterer.CountBySnoc` | src/core/clustering/clusterer.py:79-92 | counting one row at a time is grouping by key |
| `Clusterer.PivotIsCountBy` | src/core/clustering/clusterer.py:170-192 | the answer of a grouped query, pivoted, is the dictionary the scan counts up |
| `Clusterer.ErrorsAnswered` | src/core/clustering/clusterer.py:170-183 | the filtered count of the service query answers the grouped count of problem lines |
| `Clusterer.BestMessages` | src/core/clustering/clusterer.py:201-205 | keeps, per fingerprint, an answer row of highest count |
| `Clusterer.BestIsMostCommon` | src/core/clustering/clusterer.py:194-206 | that row names a most common message, and is missing only if no row has a message |
| `Clusterer.AggregateGroups` | src/core/clustering/clusterer.py:114-208 | from any correct answers to the four queries, one group per fingerprint with true counts, bounds, a capped sample and a most common message |
| `ClusterBuilder.LeaderIsMostFrequent` | src/core/clustering/clusterer.py:249-253 | the representative is at least as frequent as any other message |
| `ClusterBuilder.SortedEnds` | src/core/clustering/clusterer.py:243-272 | the ends of the sorted timestamps are attained bounds |
| `ClusterBuilder.AggregationRefinesScan` | src/core/clustering/clusterer.py:124-279 | from the same rows both paths build clusters equal in count, services, levels, errors, bounds, baseline and ratio; both choose a most common message; ids are a capped sample |
| `ClusterRecords.ScanRecord` | src/core/clustering/clusterer.py:232-279 | the record built from scanned rows, against the rows: per service, per level and per failing service the number of rows that carry it, least and greatest time, a most common message, the ids in order, the baseline of the fingerprint, (count + 1) / (baseline + 1), the trigger pattern of the message and the score of these |
| `ClusterRecords.AggregateRecord` | src/core/clustering/clusterer.py:114-279 | the same for the record built from the answers of the four queries, with a capped sample of the ids |
| `ClusterBuilder.UniqueMessageAgrees` | src/core/clustering/clusterer.py:194-279 | with a unique most common message the clusters differ only in the id sample |
| `Ranking.Candidate` | src/core/clustering/clusterer.py:442-445 | no cluster has a larger single-service error count, none with the same one a larger count, and none before it equals it in both |
| `Ranking.RankAndCap` | src/core/clustering/clusterer.py:436-454 | a permutation sorted by importance, clusters of equal importance in their old order; the first max_clusters of it, followed by the strongest error cluster iff its error count is positive and it is not among them, so that the largest single-service error count of the whole list is kept |
| `WindowDiff.CollapseClusters` | src/core/compare/differ.py:45-94 | the collapsed list, through the classifying pass |
| `WindowDiff.CollapseConserves` | src/core/compare/differ.py:66-94 | collapsing keeps the total count and every per-service count |
| `WindowDiff.MirrorIff` | src/core/compare/differ.py:107-118 | swapping counts mirrors the direction iff one is absent or they sum to at least 2 |
| `WindowDiff.CompareWindows` | src/core/compare/differ.py:157-217 | the five lists hold exactly the diffs that belong there, each in its display order |
| `DiffEntries.ListsByCounts` | src/core/compare/differ.py:107-212 | new entries have a count in A only, disappeared ones in B only; of those in both windows the increased have at least 3 lines in A to 2 in B, the decreased at most 2 to 3, the stable neither; a window without lines counts as one |
| `DiffEntries.EntryMeans` | src/core/compare/differ.py:184-198 | an entry has the counts its fingerprint has in either window, and message and services of the cluster in A if there is one, else of that in B |
| `DiffEntries.EveryFingerprintListed` | src/core/compare/differ.py:184-212 | every fingerprint of either window has an entry |
| `DiffEntries.ShownByLines` | src/core/compare/differ.py:214-217 | new and disappeared entries are shown by most lines, increased and decreased ones by greatest change |
| `DiffEntries.IndexMeans` | src/core/compare/differ.py:181-182 | the dictionary holds, for exactly the fingerprints that occur, the last cluster that has each |
| `DiffEntries.CollapsedMeans` | src/core/compare/differ.py:45-94 | collapsing keeps every cluster whose message is neither of a retry nor of a growing queue, in order, and puts one cluster behind them for each of the two groups that exists, with summed counts, the hull of the times and nothing else |
| `WindowDiff.EveryFingerprintOnce` | src/core/compare/differ.py:184-212 | every fingerprint of either window lies in exactly one list, exactly once, and nothing else does |
| `DiffTotals.DiffConservesCounts` | src/core/compare/differ.py:178-212 | the counts in the five lists, plus the lines of replaced clusters, are the input totals of both windows |
| `DiffTotals.DistinctKeepsAll` | src/core/compare/differ.py:181-182 | distinct fingerprints replace nothing |
| `DiffTotals.NothingShadowedIff` | src/core/compare/differ.py:181-182 | the dictionary loses no line iff it replaces empty clusters only; without empty clusters, iff fingerprints are distinct |
| `DiffTotals.CollapsedHarmlessIff` | src/core/compare/differ.py:45-94 | what collapsing hands to the dictionary loses nothing iff a condition on the clusters of the window holds |
| `DiffTotals.SumsAreTotalsIff` | src/core/compare/differ.py:157-212 | the sums equal a window's total iff, among its normal clusters, those that share a fingerprint with a later one or carry the label of a group are empty |
| `DiffMirror.WindowsMirrorIff` | src/core/compare/differ.py:184-212 | swapping the windows swaps new and disappeared, increased and decreased, and fixes stable, iff no common fingerprint has at most one line in all |
| `DiffMirror.ListsMirrorIff` | src/core/compare/differ.py:157-212 | the lists of two comparisons with the windows swapped mirror each other entry by entry, counts swapped, iff no common fingerprint has at most one line in all |
| `DiffMirror.CompareTriggers` | src/core/compare/differ.py:219-241 | the two loops report exactly the triggers whose key the other window lacks |
| `DiffMirror.TriggersMirror` | src/core/compare/differ.py:219-241 | swapping the windows swaps new and dropped triggers; no key is both; a window against itself reports nothing |
| `Calibration.Ece` | src/eval/frozen.py:94-108 | the loop sums the bin terms; 0 without pairs or bins |
| `Calibration.ExactlyOneBin` | src/eval/frozen.py:101-102 | a probability of at most 1 lies in exactly one bin: the first if it is not positive, else number b with b < p * bins <= b + 1 |
| `Calibration.BinsPartition` | src/eval/frozen.py:100-104 | any additive measure splits over the bins without loss |
| `Calibration.TermIsGap` | src/eval/frozen.py:105-107 | a bin's term is, as a share of all pairs, how far the number of its correct predictions is from the sum of its probabilities |
| `Calibration.EceBounds` | src/eval/frozen.py:94-108 | for probabilities in [0, 1]: distance of mean accuracy from mean confidence <= error <= 1 |
| `GroupingAccuracy.Accuracy` | src/eval/loghub.py:62-83 | error exactly on unequal lengths; otherwise the share of lines whose two groups coincide |
| `GroupingAccuracy.PerfectIff` | src/eval/loghub.py:62-83 | the score is 1 iff both labelings induce the same partition |
| `GroupingAccuracy.SamePartitionRatio` | src/eval/loghub.py:86-91 | the same partition forces a template-count ratio of 1 |
| `GroupingAccuracy.RatioMeans` | src/eval/loghub.py:86-91 | a labeling that only splits ground-truth groups has ratio at least 1, one that only merges them at most 1, and either has exactly 1 iff it is the same partition |
| `GroupingAccuracy.RenamingKeepsScore` | src/eval/loghub.py:62-91 | injective renaming of ground-truth and predicted labels changes neither the correct lines nor the template-count ratio |

## Left out

- Worker queue and idempotent enqueue: modelled on values, one step per database action, so that every
  interleaving can be quantified over; update of session objects in place, flush order within one step
  and timestamps other than creation and expiry are not captured.
- The worker's poll, shutdown and tail-tick loop, the interval test for idle purges, and delivery retries
  of callbacks.
- The source row that a losing tail request leaves behind; only jobs and key rows are modelled.
- Queue depth: whether the queue is full is an input of the step that asks.
- Idempotent enqueue assumes the database's default READ COMMITTED level, which the session factory does not
  change; deadlocks cannot arise over the one key a request locks and are not modelled.
- WindowsDisjointIff: assumes that no request replaces a row bound a whole lifetime or more after that request
  read the clock, since then the late window may lie entirely before the replaced one; WindowsFollowIff
  needs no such assumption.
- HTTP clients, retries, headers, JSON decoding, SQL and transactions other than as sequences of rows, lock
  maps and commit steps. The readers assume a server that answers in order, within the limit, with
  cursors that advance; malformed timestamps and wrong Loki result types are not modelled.
- CRI headers: several spaces between timestamp, stream and tag, which joining normalises to one, are not
  told apart; bodies hold no line breaks.
- Aggregation: the four queries are taken to see the same rows. Each is a statement of its own, and at READ
  COMMITTED rows may arrive between them.
- Loki: within one page only the multiset of entries is stated, since the response groups them by stream.
- Cosine similarity, the logarithmic importance formula, trigger, retry and queue patterns, trigger keys
  and the case-insensitive error-level test are given as functions.
- Observed presence and onsets per service are inputs of the resolver; thresholds on metrics, onset
  jitter, loading of cases and the scoring of outcomes against ground truth are not modelled. Services
  are taken as distinct and in the sorted order that the loader produces, with an observation for each.
- `maybe_semantic_merge`, which leaves the clusters unchanged when the provider is missing or fails.
- List members that are the same object are told apart by position in the list.
- A negative `max_clusters`, and the order of services in a diff.
- Floating-point rounding: rates, ratios, importance and calibration use exact reals.
- Clocks, generated identifiers and randomness are parameters of the steps that use them.
- Fingerprint normalisation, regular expressions and time parsing: lines and rows arrive parsed.
- Role maps, reports, web UI, CLI, schemas and migrations: lookup tables and presentation, with no state or
  loop of their own.
