# Verified model of the quota-based autoscaler

A Dafny 4.11 project that models the two-cluster GitOps autoscaler and proves properties of the model.
`dafny verify dfyconfig.toml` checks everything.

The system: a controller on the workload cluster notices that a ResourceQuota denies pods, or that a workload is
short of nodes, and POSTs the object it would like to see. A server on the management cluster clones a git
repository, scans it for the matching manifests, rewrites them, and pushes.

| file | what it models |
|---|---|
| `Manifests.dfy` | manifest files, the two rewrites (`UpdateResourceQuota`, `UpdateResourceReplicasMachineDeployment`) as imperative methods on a work tree, and the laws of the rewrites |
| `Scanner.dfy`, `ScannerRuns.dfy`, `ScannerAnswers.dfy`, `ScannerLeaks.dfy` | the concurrent scanner: walker, N workers, closer, collector `select`, bounded channels of any capacity C >= 1, lossy error slot, cancellation; what its answer is worth, and what becomes of its goroutines after the return |
| `FanOut.dfy`, `FanOutRuns.dfy` | the fan-out of one handler: a goroutine per match, two-slot semaphore, WaitGroup, error channel; reads and writes of a file are separate steps |
| `Server.dfy` | the same handler as a sequential, imperative program: the yardstick for the interleaved runs |
| `Publish.dfy`, `PublishRuns.dfy`, `PublishReach.dfy` | any number of handlers over one branch: clone, scan, fan-out, error gate, non-forced push as compare-and-swap; the sequential order they amount to; what they can bring about |
| `Limiter.dfy` | `allowScale` as a class, and whole lifetimes of calls |
| `QuotaTrigger.dfy`, `QuotaLoop.dfy`, `QuotaLoopRuns.dfy` | `TriggerScaleUpResourceQuota`, and the feedback loop over workload value, git value, requests in flight, limiter and clock |
| `Delivery.dfy`, `DeliveryReach.dfy` | both sides together: the feedback loop whose requests reach git through the concurrent handlers, and back: every behaviour of the loop realised by handlers |
| `Capacity.dfy`, `CapacityLaws.dfy` | `computeClusterFree` with its loops, against an order-free specification |
| `Reconciler.dfy`, `ReconcilerLaws.dfy` | denial and shortage detection, and the reconcile decision |
| `ManifestCases.dfy`, `ScannerCases.dfy`, `PublishCases.dfy`, `CapacityCases.dfy`, `ReconcilerCases.dfy` | the definitions of the other files spelled out in the repository's own words: kinds, names, namespaces, file endings, taints, messages, ages, and what follows from each on the branch or for the decision |
| `Singleton.dfy` | the check-lock-check `GetClient` |
| `Text.dfy`, `Options.dfy`, `Numbers.dfy` | string operations, an option type, minimum and maximum |

The layers compose. A handler of `Publish` may only continue with a list that some run of `Scanner` over its clone
returns, and what it pushes is the directory of a `FanOut` state embedded in it. The distinctness the fan-out needs is
proved of the scanner. `Delivery` runs `Publish` and `QuotaLoop` side by side: an accepted quota push that lists the file
is the loop's delivery of a request, every other step of the server is invisible to the loop, and so the bounds of the loop
hold of the file on the branch. `DeliveryReach` goes the other way: every timely run of the loop is what it sees of some run
of both sides, so what can go wrong in the loop goes wrong on the branch. The limiter of `QuotaLoop` is that of `Limiter`, shared with other namespaces, and the
decision of `Reconciler` uses `Capacity`.

## What the code does not promise

Five expectations a reader may have are false of the code. Each is stated with the exact condition under which it
holds, or with a counterexample.

- **A scan that returns no error is complete.** `close(matchCh)` and `close(done)` come one after the other, so the
  `select` may leave through `done` while matches wait in `matchCh`. Over all runs, success implies completeness exactly
  when the tree has no match (`SuccessIsCompleteIffNothingMatches`). Over a tree without faults what
  is lost fits in matchCh, and some scan loses that much (`LossIsBounded`, `LossIsReached`).
- **A fault in the tree fails the scan.** It may, but every tree also admits a scan that succeeds
  (`FaultsMayBeSwallowed`).
- **k matches in one MachineDeployment file add k replicas.** Under every schedule that passes, only if k = 1 or the
  first addition already reaches maxNodes; whatever else is listed, and in which order (`RepeatedMatchesCountIff`). Such
  lists do arise: a file with k wanted documents can be listed k times, and on the branch every match counts exactly
  when the file has at most one wanted document or r + 1 >= maxNodes (`EveryMatchCountsIff`).
- **The quota stays below maxQuota.** The repository's README says so, but the live path never reads `maxQuota`: a bound on
  limits.cpu or limits.memory holds over all runs exactly when the start meets it and the step is not positive
  (`BoundedIffNoStep`, and on the branch `BranchBoundedIff`).
- **Git never goes back to a smaller quota.** For runs whose requests all stay younger than some delay and whose reads lag
  at most some number of versions, this holds exactly when the step is zero, or no request can exist, or the step is
  positive, the delay is at most the limiter's minute and reads are current (`GitNeverFallsIff`). The minute is sharp:
  requests that live one nanosecond longer can overtake each other (`LatePostLowersGit`), and a read one version behind
  has the same effect (`StaleReadLowersGit`). The same condition decides whether any push to the branch ever lowers the
  limit in the file (`BranchNeverLoweredIff`).

Where comments, log lines and code disagree the model follows the code. A log line of `Reconcile` says the quota patch is
skipped when nothing is schedulable; the code raises the quota there, and does nothing when the requests fit. The comment
above the test speaks of a single pod; the code compares the sum over all pods of the namespace, finished ones included,
with maxima that may come from different nodes (`MisfitWithoutRaise`). A failing `computeClusterFree` leaves a nil result
whose fields are read at once; the model has a decision `NilDereference` for it. Denial reads the status keys `cpu` and
`memory`, not `limits.cpu` and `limits.memory`.

## Model

| member | source | states |
|---|---|---|
| Manifests.WorkTree.UpdateResourceQuota | reconcilers/git/gitea.go:436-470 | the whole effect of one call on the directory: which error, or which rewritten file, in the code's order of checks; nothing else in the tree changes |
| Manifests.WorkTree.UpdateResourceReplicasMachineDeployment | reconcilers/git/gitea.go:350-393 | the same for the replica update, with 0 and maxNodes left untouched and the result capped |
| Manifests.QuotaTouchesOnlyHard | reconcilers/git/gitea.go:457-469 | a successful quota update sets spec.hard to the posted map and keeps every other key of the first document |
| Manifests.FailureIsStable | reconcilers/git/gitea.go:447-455 | updating a file any number of times neither repairs nor breaks it |
| Manifests.QuotaIdempotent | reconcilers/git/gitea.go:436-470 | any positive number of quota updates equals one |
| Manifests.ReplicaIteration | reconcilers/git/gitea.go:371-385 | from 1 <= r <= maxNodes, j updates give min(r + j, maxNodes) and change nothing else of the first document |
| Manifests.ReplicaBound | reconcilers/git/gitea.go:376-384 | one update ends within maxNodes unless the count is 0 and maxNodes negative; inside 1..maxNodes it stands still only at maxNodes |
| Manifests.OtherDocumentsKept | reconcilers/git/gitea.go:356-359 | documents after the first survive an update exactly when there are none or nothing is written |
| ManifestCases.MachineDeploymentScales | reconcilers/git/gitea.go:361-388 | for every replica count, what the update makes of a document of kind MachineDeployment: one more, maxNodes from above, 0 left alone, all else kept |
| ManifestCases.ResourceQuotaIsSet | reconcilers/git/gitea.go:457-464 | a document of kind ResourceQuota gets the posted map and keeps all else |
| ManifestCases.ThreeKindsSupported | reconcilers/git/gitea.go:472-479 | a document is refused as unsupported exactly when its kind is none of MachineDeployment, NamespaceQuota and ResourceQuota |
| ManifestCases.Refusals | reconcilers/git/gitea.go:356-375 | the exact condition of every other refusal of a document |
| Scanner.StepKeepsConserved | reconcilers/git/gitea.go:84-196 | every step of every goroutine keeps the count of each path over collected, buffered, in-progress, queued and unwalked matches |
| Scanner.StepTracesFaults | reconcilers/git/gitea.go:94-121 | as long as no error was offered, every fault of the tree is still ahead and workers leave only a closed, empty fileCh |
| Scanner.StepKeepsInv | reconcilers/git/gitea.go:77-196 | all scanner invariants are kept by every step |
| ScannerRuns.ChannelSafety | reconcilers/git/gitea.go:77-79 | no channel exceeds its capacity and no send follows the close of fileCh or matchCh |
| ScannerRuns.OnePlacePerFile | reconcilers/git/gitea.go:87-165 | in every reachable state every file is in at most one place: unwalked, queued or held |
| ScannerRuns.OneWorkerPerFile | reconcilers/git/gitea.go:87-89 | along every run, the receives of one file from fileCh by all workers together number at most one |
| ScannerRuns.Conservation | reconcilers/git/gitea.go:77-196 | in every reachable uncancelled state, faults or not: collected + buffered + to be emitted equals the declared multiset of matches; with cancellation it never exceeds it |
| ScannerRuns.ExactExit | reconcilers/git/gitea.go:179-196 | fault-free and uncancelled: the scan never fails, the exit through closed matchCh returns exactly the declared matches, the exit through done all but what is left in matchCh |
| ScannerRuns.LossIsBounded | reconcilers/git/gitea.go:173-196 | fault-free and uncancelled, a scan that succeeds misses at most `capacity` matches |
| ScannerAnswers.LossIsReached | reconcilers/git/gitea.go:173-196 | every fault-free tree has a successful scan that misses a full matchCh, or all matches if they are fewer |
| ScannerAnswers.CompleteScanExists | reconcilers/git/gitea.go:84-196 | every fault-free tree has a scan that ends at the closed matchCh and returns every declared match |
| ScannerRuns.DocMatchesMeaning | reconcilers/git/gitea.go:103-140 | a file reports its path exactly when a matching document precedes any undecodable one, at most once per matching document |
| ScannerRuns.CollectedAreMatches | reconcilers/git/gitea.go:161-196 | every returned path was walked, passes the extension test and has a matching document; with at most one match per file there are no duplicates |
| ScannerRuns.StepLowersMeasure | reconcilers/git/gitea.go:84-196 | every step lowers a measure read off the tree and the live goroutines |
| ScannerRuns.RunsAreBounded | reconcilers/git/gitea.go:84-196 | every run of the scanner is finite, with an explicit bound |
| ScannerRuns.Progress | reconcilers/git/gitea.go:84-196 | in every reachable state where the collector has not returned, some step other than a cancellation is enabled |
| ScannerRuns.Scan | reconcilers/git/gitea.go:49-197 | executed under any scheduler the scan returns and its answer obeys the conservation law for the exit taken |
| ScannerAnswers.LateCollectorRun | reconcilers/git/gitea.go:179-195 | from any running, uncancelled state in which matchCh is full or nothing was collected yet, the collector can be scheduled to leave through done in such a state again, without ever reading errCh |
| ScannerLeaks.LeaksIff | reconcilers/git/gitea.go:145-189 | after the collector has returned, with nothing faulty ahead: on every uncancelled run that has come to rest a worker waits at its send for good if and only if more matches are outstanding than matchCh has room for; otherwise every goroutine has ended |
| ScannerLeaks.LeakHappens | reconcilers/git/gitea.go:94-189 | for every capacity: an unreadable file and one with more matches than that let the scan fail so that every run from there leaves a worker behind |
| ScannerCases.UndecodableCutsFile | reconcilers/git/gitea.go:103-140 | a file reports every match before its first undecodable document and none behind it |
| ScannerCases.WalkErrorCutsWalk | reconcilers/git/gitea.go:153-160 | matches are declared by the files before a walk error and by none behind it |
| ScannerCases.CancellationReturns | reconcilers/git/gitea.go:180-181 | from any running state a cancellation can come, and the collector can return with it |
| ScannerCases.CancelledWorkersFinish | reconcilers/git/gitea.go:87-92 | along every run from a cancelled context, what a worker decodes it was decoding then: no new file is started |
| ScannerCases.WalkerFillsQueue | reconcilers/git/gitea.go:77-167 | up to its capacity, fileCh can hold any number of walked files that nobody has received |
| ScannerAnswers.SuccessIsCompleteIffNothingMatches | reconcilers/git/gitea.go:173-196 | for every tree: all successful uncancelled scans are complete if and only if nothing matches |
| ScannerAnswers.FaultsMayBeSwallowed | reconcilers/git/gitea.go:96-121 | an uncancelled scan can fail if and only if the tree has a fault, and every tree admits a scan that succeeds |
| FanOut.StepKeepsInv | restapi/restapi_server.go:285-309 | every step keeps the slot and error counts and, per file, the number of updates its content has seen |
| FanOutRuns.ResourceBounds | restapi/restapi_server.go:286-298 | at most two updates run at once, and no send on the error channel can block |
| FanOutRuns.TwoRunAtOnce | restapi/restapi_server.go:286-296 | two goroutines can be inside at the same time |
| FanOutRuns.ReadMayFail | reconcilers/git/gitea.go:351-354 | a read may fail for any list, and then no continuation passes |
| FanOutRuns.WriteMayFail | reconcilers/git/gitea.go:392 | a write may fail and leave any content behind, and then no continuation passes |
| FanOutRuns.RunsAreBounded | restapi/restapi_server.go:289-302 | every schedule of the fan-out ends |
| FanOutRuns.Progress | restapi/restapi_server.go:289-302 | until the handler has its verdict some goroutine can move |
| FanOutRuns.PassedMeansRewritten | restapi/restapi_server.go:443-468 | for every schedule, also with repeated paths: a fan-out that passes met no I/O fault, updated each listed file between once and as often as listed, and left every other file alone |
| FanOutRuns.VerdictIsScheduleFree | restapi/restapi_server.go:296-309 | without I/O faults the fan-out passes if and only if every listed file exists and can be updated |
| FanOutRuns.DistinctRewriteIsApplied | restapi/restapi_server.go:289-301 | over distinct paths the directory is exactly the pointwise update |
| FanOutRuns.QuotaRewriteIsApplied | restapi/restapi_server.go:296-298 | a posted quota gives the pointwise update even when paths repeat |
| FanOutRuns.ReplicaRewriteRange | restapi/restapi_server.go:448-460 | a file listed k times ends in min(r+1, max) .. min(r+k, max) replicas, nothing else changed |
| FanOutRuns.AllUpdatesCount | restapi/restapi_server.go:448-460 | for any list of files that can be updated, repeated or not, some schedule ends in the sequential result, where every mention counts |
| FanOutRuns.OneUpdateCounts | restapi/restapi_server.go:448-460 | for any such list, some schedule loses all but one update of a file, whatever else is listed and in which order |
| FanOutRuns.RepeatedMatchesCountIff | restapi/restapi_server.go:448-460 | in any list, a file named k times ends at min(r+k, max) under every schedule that passes if and only if k = 1, or r + 1 >= max, or some listed file cannot be updated and no schedule passes |
| Server.Branch.UpdateMatches | restapi/restapi_server.go:289-302 | the sequential loop computes the update of all matches, and reports no failure if and only if all can be updated |
| Server.NothingToCommitIff | reconcilers/git/gitea.go:376-379 | the sequential result is the cloned directory exactly when every match already is as the update would leave it: a count that moves never comes back |
| Server.Branch.Handle | restapi/restapi_server.go:271-317 | one handler alone publishes all matches or leaves the branch as it was: it publishes if and only if every match can be updated and the update changes one of them |
| Manifests.ApplyAllIterates | restapi/restapi_server.go:289-301 | sequentially every mention of a path counts |
| Server.SequentialIsARewrite | restapi/restapi_server.go:289-301 | the sequential result is among those the concurrent fan-out may produce |
| Server.DistinctRewriteIsSequential | restapi/restapi_server.go:289-301 | over distinct paths every schedule agrees with the sequential loop |
| Publish.StepKeepsInv | restapi/restapi_server.go:271-317 | every step of every handler keeps the history genuine and each handler tied to the tip it cloned |
| Publish.AllOrNothing | restapi/restapi_server.go:429-482 | in every run of concurrent handlers each tip is its parent with one handler's update applied to every path its scan returned, and only published handlers appear in the history, once |
| Publish.FailedUpdateLeavesBranch | restapi/restapi_server.go:304-309 | in every continuation of every run, a handler one of whose updates failed is never the author of a commit |
| Publish.RefusedPushMeansOtherPublished | reconcilers/git/gitea.go:513-525 | a push is refused only if another handler published after this one cloned |
| Publish.PublishedQuotaIsInGit | restapi/restapi_server.go:296-317 | after a quota push every file of the scan carries exactly the posted spec.hard |
| Publish.ScanFindsWanted | reconcilers/git/gitea.go:133-165 | the server only rewrites .yaml or .yml files of the clone with a document of the wanted kind, name and namespace |
| Publish.WholeScanFindsAll | reconcilers/git/gitea.go:84-196 | a walk of the whole tree without fault or cancellation that ends at the closed matchCh names exactly the files with a wanted document |
| PublishCases.QuotaListsItsObject | reconcilers/git/gitea.go:124-136 | a single-document file can be listed for a posted quota if and only if it ends in .yaml or .yml and holds that kind and name in that namespace, where none means default |
| PublishCases.NodeScalingListsItsPool | reconcilers/git/gitea.go:283-286 | a single-document file can be listed for a node scaling if and only if it ends in .yaml or .yml and holds the MachineDeployment named after the cluster with -md-0 |
| PublishCases.YamlIff | reconcilers/git/gitea.go:164-166 | a file is looked at if and only if its name ends in .yaml or .yml in whatever case |
| PublishCases.OtherNamespaceNeverListed | reconcilers/git/gitea.go:124-136 | over any tree, a quota of the same name in another namespace is never listed |
| PublishCases.OtherTeamIsUntouched | restapi/restapi_server.go:271-317 | in every tip of every run in which all posts are quotas for one namespace, the quota of the same name in another namespace is as it was |
| PublishCases.NodeScalingIsPublished | restapi/restapi_server.go:429-482 | the MachineDeployment of a pool in a .yaml file can end on the branch with exactly one more replica |
| PublishCases.QuotaIsPublished | restapi/restapi_server.go:271-317 | a ResourceQuota in a .yml file can end on the branch with exactly the posted map |
| PublishCases.AnyHandlerMayGiveUp | restapi/restapi_server.go:271-317 | a handler that is not through may give up at any time, and then no continuation has a commit of its |
| Publish.ScanIsDistinct | reconcilers/git/gitea.go:283-289 | over single-document files the scanner's list has no duplicates |
| PublishRuns.Linearizable | restapi/restapi_server.go:271-317 | over single-document manifests, or with quotas only, every tip equals the sequential application of the published requests in push order |
| PublishRuns.ReplicaCountAfterPushes | restapi/restapi_server.go:430-482 | with 1 <= r0 <= maxNodes the branch holds exactly r0 + k replicas after k replica-changing pushes, which is min(r0 + scaling pushes, maxNodes), with quota pushes mixed in |
| PublishReach.ScanNamesAtMost | reconcilers/git/gitea.go:133-165 | whatever the schedule and the faults, a returned list names no file more often than it has wanted documents |
| PublishReach.WholeScanReturns | reconcilers/git/gitea.go:84-196 | every decodable tree has a scan whose list names each .yaml or .yml file exactly as often as it has wanted documents, and nothing else |
| PublishReach.PublishRun | restapi/restapi_server.go:271-317 | from every reachable state, whatever a passing fan-out over a returnable list ends in can become the next tip |
| PublishReach.PostCanBePublished | restapi/restapi_server.go:429-482 | over a decodable tip whose wanted files can all be updated, an idle handler may publish the update of every one of them |
| PublishReach.EveryMatchCountsIff | restapi/restapi_server.go:443-482 | on the branch: in every run of the concurrent server, a first commit of this handler adds one replica for each time it lists the file, up to the maximum, if and only if the file has at most one wanted document or r + 1 >= max |
| Limiter.RateLimiter.AllowScale | internal/controller/namespacequota_controller.go:965-979 | the answer, and the whole map afterwards |
| Limiter.Serve | internal/controller/namespacequota_controller.go:965-979 | over a lifetime of calls of any namespaces the calls answered true are exactly the grants |
| Limiter.GreedyStaysAhead | internal/controller/namespacequota_controller.go:972-977 | no spaced choice of calls is ahead of the grants, in number or, at equal number, in time |
| Limiter.GreedyIsOptimal | internal/controller/namespacequota_controller.go:965-979 | for any nondecreasing clock the grants of a namespace are pairwise at least minInterval apart and of maximum size |
| Limiter.NamespacesAreIndependent | internal/controller/namespacequota_controller.go:969-977 | calls of other namespaces never influence a grant |
| QuotaTrigger.TriggerScaleUpResourceQuota | internal/controller/namespacequota_controller.go:692-807 | throttled exactly when the namespace was granted less than 60 seconds ago; the limiter is charged even if the call then fails; the exact condition of each failure; posts exactly when nothing fails: limits.cpu raised by the cpu step, limits.memory by the memory step, every other key as fetched |
| QuotaLoop.LevelValues | internal/controller/namespacequota_controller.go:769-782 | level j has limits.cpu and limits.memory j of their own steps above the initial values and every other key unchanged |
| QuotaLoop.GrowthBound | internal/controller/namespacequota_controller.go:692-807 | with posts delayed, reordered, dropped or read stale, every git and workload value is the initial one raised by at most as many steps as grants, and grants <= 1 + whole minutes since the first |
| QuotaLoopRuns.RequestsAreAccounted | internal/controller/namespacequota_controller.go:692-807 | along every run the grants are the requests still out, delivered and dropped: none is lost or made up |
| QuotaLoopRuns.GrowthInNumbers | internal/controller/namespacequota_controller.go:697-699 | both limits stay within init .. init + step * (1 + minutes since the first grant) |
| QuotaLoopRuns.TimelyRunInStep | internal/controller/namespacequota_controller.go:692-807 | timely runs keep git in step with the workload at every moment |
| QuotaLoopRuns.NoDoubleStep | internal/controller/namespacequota_controller.go:697-801 | if every granted request is done within its minute and reads are current: at most one request in flight, git is the workload's value or one step ahead, and a limit whose step is not negative never falls in git between any two moments |
| QuotaLoopRuns.RepeatedTriggerPostsTheSame | internal/controller/namespacequota_controller.go:769-801 | until the sync catches up a trigger posts what git already holds |
| QuotaLoopRuns.GitNeverFallsIff | internal/controller/namespacequota_controller.go:697-801 | for every bound on the age of requests and on the lag of reads: no step of any such run lowers the limit in git if and only if the step is 0, or no request can exist, or the step is positive, requests stay younger than the minute and reads are current |
| QuotaLoopRuns.LatePostLowersGit | internal/controller/namespacequota_controller.go:798-801 | with current reads and any delay bound above the minute, a post overtaken by the next takes git from two steps up back to one |
| QuotaLoopRuns.StaleReadLowersGit | internal/controller/namespacequota_controller.go:769-782 | so does one read a single version behind, even if every request is over in an instant |
| QuotaLoopRuns.BoundedIffNoStep | internal/controller/namespacequota_controller.go:754-801 | limits.cpu and limits.memory each are bounded over all runs if and only if they start within the bound and their step is not positive |
| Delivery.CommitOnHard | reconcilers/git/gitea.go:457-469 | a commit puts the posted map into spec.hard of a file its quota scan listed and leaves spec.hard of every other file alone; node scalings never touch it |
| Delivery.StepOnHard | restapi/restapi_server.go:271-317 | no step of any handler other than an accepted push of a quota that lists the file changes its spec.hard on the branch |
| Delivery.ForeignQuotaNeverDelivers | reconcilers/git/gitea.go:133-165 | over single-document files a quota of another kind, name or namespace never touches the file, in any run |
| Delivery.StepKeepsLinked | internal/controller/namespacequota_controller.go:798-801 | step simulation: a delivering push of the concurrent server is the loop's delivery, every other server step a stutter |
| Delivery.BranchGrowth | restapi/restapi_server.go:271-317 | end to end: in every tip of every joint run the file holds the initial quota raised by at most as many steps as grants, at most one per minute |
| Delivery.BranchNeverFalls | restapi/restapi_server.go:271-317 | end to end: if every request is over within its minute and reads are current, no push ever lowers a limit whose step is not negative, and the tip is the workload's value or one step ahead |
| DeliveryReach.EveryLoopRunReachesBranch | restapi/restapi_server.go:271-317 | every timely run of the quota loop is what it sees of a timely run of loop and server together, whose tip holds git as the loop ends with it |
| DeliveryReach.BranchNeverLoweredIff | restapi/restapi_server.go:271-317 | over all servers and handlers: no push ever lowers a limit in the file if and only if the step is 0, or no request can exist, or the step is positive, requests stay younger than the minute and reads are current |
| DeliveryReach.BranchBoundedIff | internal/controller/namespacequota_controller.go:754-801 | over all servers and handlers: a limit in the file stays within a bound if and only if it starts there and its step is not positive |
| Capacity.WorkerNodes | internal/controller/namespacequota_controller.go:368-397 | the filter loop yields the map of schedulable nodes without control-plane taint |
| Capacity.UsedPerNode | internal/controller/namespacequota_controller.go:404-426 | the accumulating loops give each worker the sum over its live pods of all init and app containers |
| Capacity.Accumulate | internal/controller/namespacequota_controller.go:428-468 | for any iteration order of the map the fields are the sum and the maximum of the clamped per-node amounts |
| Capacity.ComputeClusterFree | internal/controller/namespacequota_controller.go:362-471 | all six fields meet the order-free specification |
| Capacity.SumAny | internal/controller/namespacequota_controller.go:430-456 | a sum over a set of nodes does not depend on which node is taken first |
| CapacityCases.ExcludedNodeCountsForNothing | internal/controller/namespacequota_controller.go:368-395 | a cordoned node, or one tainted with a control-plane key and NoSchedule or PreferNoSchedule, changes none of the six fields |
| CapacityCases.WorkerCounts | internal/controller/namespacequota_controller.go:384-467 | any other node adds what its pods leave of it, never below zero, to each total and takes part in each maximum |
| CapacityCases.PodTakes | internal/controller/namespacequota_controller.go:409-426 | a pod takes all its init containers and containers from the node it is bound to, unless it has succeeded or failed or is bound elsewhere |
| CapacityLaws.OrderDoesNotMatter | internal/controller/namespacequota_controller.go:362-471 | permuted nodes, pods and containers, and any map order, give the same six fields |
| CapacityLaws.CapacityIsConserved | internal/controller/namespacequota_controller.go:439-467 | cluster free plus what pods take (capped per node) is all worker allocatable; MaxNode <= Cluster <= workers * MaxNode |
| CapacityLaws.BindingLowers | internal/controller/namespacequota_controller.go:409-425 | binding a listed pending pod to a node never raises a field |
| CapacityLaws.AddingPodLowers | internal/controller/namespacequota_controller.go:409-425 | one more pod never raises a field |
| CapacityLaws.FinishingRaises | internal/controller/namespacequota_controller.go:410-412 | a pod that succeeds or fails never lowers a field |
| CapacityLaws.CordoningLowers | internal/controller/namespacequota_controller.go:381-383 | cordoning a node never raises a field |
| CapacityLaws.AddingNodeRaises | internal/controller/namespacequota_controller.go:379-397 | a new node never lowers a field |
| CapacityLaws.AccountingIsCautious | internal/controller/namespacequota_controller.go:419-425 | per node, in total and at most, no more is reported free than under max(largest init container, sum of app containers) |
| Reconciler.DetectQuotaExceeded | internal/controller/namespacequota_controller.go:560-621 | the nested searches with early exits equal existentials over their lists; failed lists count as no evidence |
| Reconciler.DetectWorkloadShortage | internal/controller/namespacequota_controller.go:818-852 | true exactly when some failing ReplicaSet short of ready pods is blamed by an event |
| Reconciler.RequestedByNamespace | internal/controller/namespacequota_controller.go:147-156 | the loop computes the sum of all requests of the namespace's pods |
| Reconciler.Reconcile | internal/controller/namespacequota_controller.go:73-196 | exactly when each decision is taken |
| ReconcilerCases.DenialIff | internal/controller/namespacequota_controller.go:560-621 | a denial is seen if and only if one of five signals is there: cpu or memory used up in the status, a ReplicaFailure condition whose message names the quota, or a FailedCreate or exceeded-quota warning at most 120 seconds old |
| ReconcilerCases.AddNodeIff | internal/controller/namespacequota_controller.go:179-192 | a node is added if and only if no denial is seen and some ReplicaSet short of ready pods reports ReplicaFailure True and a warning about it names the quota, insufficient resources or the nodes |
| ReconcilerCases.EarlyDecisions | internal/controller/namespacequota_controller.go:76-146 | the decision in every case that does not reach the capacity test |
| ReconcilerCases.RequestCountsEveryPod | internal/controller/namespacequota_controller.go:147-156 | every pod of the namespace counts, whatever its phase and node, with all its containers |
| ReconcilerCases.OneWorkerDecides | internal/controller/namespacequota_controller.go:135-178 | in figures, for one free worker: a denied namespace has its quota raised if and only if its requests exceed what the worker has left in some dimension |
| ReconcilerLaws.RaiseIff | internal/controller/namespacequota_controller.go:135-178 | the quota is raised if and only if it was denied, the lists came back, and in one dimension no single worker has room for the whole request |
| ReconcilerLaws.FitMeansNoRaise | internal/controller/namespacequota_controller.go:167-171 | if one worker has room for the whole request the quota is not raised |
| ReconcilerLaws.SplitFitMeansIgnore | internal/controller/namespacequota_controller.go:167-171 | if each dimension fits on some worker, not necessarily the same, a denied quota is left alone |
| ReconcilerLaws.MisfitWithoutRaise | internal/controller/namespacequota_controller.go:167-171 | a cluster where no worker has room and still nothing is done |
| ReconcilerLaws.DecisionIsOrderIndependent | internal/controller/namespacequota_controller.go:103-192 | the decision is the same under any permutation of the node, pod, container, Deployment, ReplicaSet, condition and event lists |
| ReconcilerLaws.DenialIsMonotone | internal/controller/namespacequota_controller.go:576-617 | more Deployments, ReplicaSets, conditions or events never withdraw a denial |
| Singleton.StepKeepsInv | reconcilers/git/giteaclient.go:49-78 | every step keeps mutual exclusion, at most one Start, and an instance that never changes once set |
| Singleton.OneStartedInstance | reconcilers/git/giteaclient.go:62-77 | in every interleaving Start runs at most once, all callers return the same started instance, and IsInitialized keeps its answer |
| Singleton.OnlyInvalidCallersRejected | reconcilers/git/giteaclient.go:49-57 | a caller that is through was rejected if and only if it passed no ctx or no client |
| Singleton.StartDecides | reconcilers/git/giteaclient.go:66-73 | the answer of the one Start is what every caller that ever returns sees |
| Singleton.CallersReturn | reconcilers/git/giteaclient.go:62-77 | no deadlock, and every step lowers a measure, so all callers return |

## Left out

- Transport and encoding: HTTP, YAML text, git objects, Gitea, Argo CD and the Kubernetes API appear as steps that succeed or fail; `resource.Quantity` appears as integers (millicores, bytes, counts) without the 64-bit width.
- ScannerLeaks.LeaksIff: with faults still ahead, or once every worker has failed, which goroutines stay blocked after the return depends on the schedule and is not characterised.
- Temporary clone directories and path prefixes: paths are those of the tree, and a failing clone is an abandoned handler.
- Torn reads: reading a file and writing a file are one step each; a failing write may leave any content, a successful one is atomic.
- A push that reaches the server but is reported as failed: a commit may fail at any time, and only accepted pushes change the branch. That a push without force is accepted exactly when the tip has not moved is an assumption of the model (`Server.Branch.Push`, and `Push` in `Publish.dfy`).
- Server.Branch.Handle: a commit that changes nothing is refused, as go-git does unless asked otherwise; a rewrite that changes only the layout of a file counts as no change. The runs of `Publish` leave the answer of the commit open, so they also cover the other case.
- Manifests.WorkTree.UpdateResourceQuota: marshalling errors are not modelled, since a decoded document can always be written again.
- CapacityLaws.OrderDoesNotMatter: needs distinct node names, which the cluster guarantees; with repeated names the last worker of a name counts.
- CapacityLaws.AccountingIsCautious: pod overhead and restartable init containers are not part of the compared rule.
- Text operations: `ToLower` covers ASCII letters only.
- Delivery.BranchGrowth: every quota posted for the file comes from a trigger of the one loop; posts by others are not modelled.
- QuotaLoop: one fixed scale step and one controller lifetime; a restart empties the limiter.
- The event watch also calls the quota trigger directly, without the fit test of `Reconcile`; `ReconcilerLaws.FitMeansNoRaise` is about `Reconcile` alone.
- `patchQuota` and `UpdateResourceReplicasNamespaceQuotaCR` are never called, and the five-minute node cooldown is set on a copy that is not stored; none of them is modelled.
- Namespace and custom-resource bookkeeping of the server, the heartbeat store, watch filters, logging and utilisation percentages.
- Delivery as a liveness property: failed pushes are not retried and a sync may never come.
