# Josu: the delegate chain, the gated merge, and the timed protocols around them

Josu lets a hosted coding assistant hand work to delegate models and merges the result back into the
developer's tree. Its behaviour rests on a handful of small stateful protocols. This project models them in
Dafny and proves what they keep over every run.

| file | what it models |
|---|---|
| `Cooldown.dfy` | the per-(task type, candidate) failure memory, its eager specification, the sliding-window bound |
| `Chains.dfy` | chain resolution, ordering, the local-only projection and the name-list route |
| `ChainRun.dfy` | one delegation: the retry in `delegate()`, one attempt, `run_chain`, `execute_chain` |
| `DelegateSystem.dfy` | any number of delegations interleaving over one FIFO lock, one store and one clock |
| `Merge.dfy`, `NameStatus.dfy` | divergence detection, the in-place apply loop, the `--name-status` reader |
| `RunTask.dfy` | a whole run with a developer editing the repository at the same time |
| `Delivery.dfy` | the worktree's HEAD, index and files, and which adapter changes a merged run delivers |
| `Breaker.dfy` | the pausable stopwatch, and the budget preparation and adapter share |
| `Router.dfy`, `Debounce.dfy` | the re-probe across an await, the save debounce |
| `Recovery.dfy`, `Porcelain.dfy` | crash recovery of worktrees, the `git worktree list --porcelain` parser |
| `FileWalk.dfy` | the lazy sorted walk |
| `Common.dfy` | an option type and `Filter` |

Classes follow the source's objects and their methods change the same fields; each is tied to a function of the
old state, and the lemmas are about those functions. Models, git, the developer, clocks and the scheduler are
parameters: oracles (`AttemptEnv`, `RunEnv`), label sequences (`Exec`), or clock readings. Time is an integer.
In the two step systems a label that is not enabled leaves the state as it is, so a theorem about every label
sequence is a theorem about every run. Automatic induction is switched off throughout: each proof is the one written.

## Where the code does not do what its text says

The model follows the code. Each case below is stated with the exact condition under which the promise holds.

* A cooldown that has run out is only reset by a read. A failure recorded without a check keeps the stale count:
  `UncheckedFailureAgreesIff`. Under the lock every failure is preceded by a check, so over whole runs the
  answers are those of eager expiry: `SystemAnswersAreEager`.
* An exhausted chain is described as carrying one skip record per candidate. An error raised by the client
  factory advances the chain without leaving one: `ExhaustionReport`, `ServiceReport`, with
  `FactoryErrorLeavesNoRecord` the input. Only an injected factory that raises a delegate error or a timeout does
  this; `_default_client_factory` raises neither.
* `resolve_proactive_check_chain` does not consult `stays_hosted`: `ProactiveIsTheGatedResolverIff`, and
  `HostedChainStillChecks` for a configuration where it shows.
* Git quotes paths with unusual bytes, and `_changed_paths` does not unquote them. Reading the diff back is exact
  only when no path needs quotes: `ParseInvertsPrintIff`. Otherwise an edit stops the merge at that file, part of
  the diff already applied, unless the worktree has a file by the quoted name: `QuotedPathStopsTheMerge`,
  `AccentedNameSpelled`. A deletion is skipped while the run reports a merge: `DeletionIsNotDelivered`.
* A merged run is described as having applied the worktree's changes, and its worktree is then removed by force. It
  delivers a change exactly when the path is tracked, differs from the worktree's HEAD, and needs no quotes:
  `MergedRunDeliversIff`. Changes the adapter committed, new files it did not stage, and files it put back to HEAD
  are lost: `LostChanges`.
* An edit to a file the worktree did not change is described as never blocking a merge. The diff is against HEAD, so
  it names every file that was dirty when the run began, and an edit to one of those blocks:
  `UnrelatedEditsNeverBlockIff`, `DirtyFileBlocks`.
* A run that raises is recorded as an error, but its tree need not be the developer's own: the removal of the
  worktree can fail with the whole diff applied, or a source can be unreadable with part of it applied:
  `ChangedByTheRunIff`, `FailedRemovalIsAMerge`.
* A copy entry in the diff (possible when the developer has git report copies) is applied as a rename: its source
  is unlinked, and survives only if a later entry writes it again: `CopiesMergeIff`, `CopyOrderMatters`.
* `resume()` while running is described as a no-op; it drops the segment in progress:
  `BreakerMeasuresActiveTime`, `ElapsedIsActiveTimeIff`.
* A primary engine, once found, is described as kept for the life of the process. A probe slower than the
  re-probe interval can overlap another and unset it: `PrimaryIsFinalIff`, `SlowProbeUnsetsThePrimary`.
* A debounce callback that runs after a later save drops that save's cancel handle, and the orphaned timer fires
  inside a still later save's window: `LateCallbackOrphansIff`, `OrphanFiresEarly`.
* An unmarked worktree is described as proof of a crash. A scan also marks the worktree of a run in progress:
  `ScanMarksTheDeadIff`. When that run finishes, its marker has no worktree, and no cleanup deletes it:
  `ScannedLiveRunGoesStale`, `StaleIff`, `StaleMarkersStick`.
* `josu cleanup --remove` exits 1 for a name that is not listed, except when nothing is listed at all: then it exits
  0 whatever was named. `ExitCodeIff`, `UnlistedNameExitsZero`.
* The file context of a delegate call is drawn from `scope["path"]`. A path that names a file yields no files:
  `WalkIsTheSortedFileList`, `FileRootYieldsNothing`.
* The walk's order is described as that of whole path strings unless a file sits beside a directory. Two directories
  such as `a` and `a.b` already differ: `JoinedWalkAscendsIff`, `DirectoriesClash`.

## Model

| member | source | states |
|---|---|---|
| Cooldown.CandidateCooldownStore.RecordFailure | src/josu/delegate/cooldown.py:84-95 | one more failure in this bucket, an expiry set once the threshold is reached, every other bucket as it was |
| Cooldown.CandidateCooldownStore.RecordSuccess | src/josu/delegate/cooldown.py:97-104 | the bucket starts afresh, every other bucket as it was |
| Cooldown.CandidateCooldownStore.IsInCooldown | src/josu/delegate/cooldown.py:106-133 | true exactly while there is an expiry and it lies ahead of the clock; an expired bucket is deleted, and a negative answer leaves no expiry behind |
| Cooldown.BucketsAreIndependent | src/josu/delegate/cooldown.py:13-17 | after any trace a bucket's state depends on its own sub-trace alone |
| Cooldown.LazyRefinesEager | src/josu/delegate/cooldown.py:114-125 | for every trace obeying check-then-fail, the lazily reset store answers as one that clears a bucket at its expiry instant |
| Cooldown.CoolsExactly | src/josu/delegate/cooldown.py:84-133 | for every trace obeying check-then-fail, a check finds a bucket cooling exactly when its failures since the last reset have reached the threshold and the last is less than a cooldown ago |
| Cooldown.UncheckedFailureAgreesIff | src/josu/delegate/cooldown.py:114-125 | an unchecked failure keeps that agreement exactly when no expired count is pending or the threshold is one |
| Cooldown.StreaksAreSpaced | src/josu/delegate/cooldown.py:84-133 | under check-then-fail a bucket tracks its failure streak: never past the threshold, cooling exactly at it, and failures a threshold apart are a cooldown apart |
| Cooldown.SlidingWindow | src/josu/delegate/cooldown.py:84-133 | in any success-free stretch of such a trace, threshold + 1 successive failures span at least a cooldown |
| Cooldown.RateLimit | src/josu/delegate/cooldown.py:84-133 | hence at most threshold * (span / cooldown + 1) failures in a success-free stretch of length span |
| Chains.FirstMatchWins | src/josu/config/chains.py:181-185 | the first entry for a task type is the one used, and none is found exactly when there is none |
| Chains.DefaultOrderSorts | src/josu/config/chains.py:173-178 | local candidates come first, both groups keep their authored order, nothing is lost or repeated |
| Chains.StableSortIsUnique | src/josu/config/chains.py:173-178 | a list is the default order exactly when it is local-first and keeps both groups in order |
| Chains.ResolvesExactly | src/josu/config/chains.py:188-223 | a missing or hosted chain resolves to nothing, any other to exactly the registered candidates it names, less the remote ones unless these are allowed, in authored order or local first |
| Chains.RemoteCandidateIsUsed | src/josu/config/chains.py:218-223 | an allowed remote candidate is what its chain resolves to |
| Chains.RemoteGateKeepsTheLocals | src/josu/config/chains.py:207-223 | without allow_remote a chain resolves to the local subsequence of what it resolves to with it, a prefix of it under the default order |
| Chains.ProactiveResolvesExactly | src/josu/config/chains.py:226-246 | the proactive chain is the registered local candidates its chain names, in order, hosted or not |
| Chains.ProactiveIsTheGatedResolverIff | src/josu/config/chains.py:226-246 | the proactive resolver equals the general one with remote off exactly unless the chain is hosted and names a registered local candidate |
| Chains.HostedChainStillChecks | src/josu/config/chains.py:226-246 | on a hosted chain with one local candidate the general resolver gives nothing and the proactive one that candidate |
| Chains.LaterNameWins | src/josu/proactive/watchers.py:130-161 | in a registry built from a list, a later candidate replaces an earlier one of its name |
| Chains.SingleChainResolvesIff | src/josu/delegate/internal_api.py:211-229 | a throwaway chain and registry built from local candidates resolve back to that list exactly when names identify candidates in it |
| Chains.ProjectionPreservesTheChain | src/josu/proactive/watchers.py:130-161 | the general resolver on the projected config gives exactly the proactive chain of the original config |
| Chains.NameListResolves | src/josu/delegate/internal_api.py:195-229 | a name list resolves, in order, to the local registry entries of the names sent, and to nothing else |
| Chains.ProactiveNamesRoundTrip | src/josu/delegate/internal_api.py:195-229 | sending the names of the proactive chain to the route runs exactly that chain |
| ChainRun.Delegate | src/josu/delegate/local_model.py:151-201 | success exactly when the first answer parses or a malformed first is followed by one that does, and the error of the decisive answer otherwise; two completions exactly after a malformed first |
| ChainRun.ChainCall.Attempt | src/josu/delegate/chain.py:219-303 | one attempt on the shared store and lists: check, preflight, client, call, record, in that order |
| ChainRun.DelegateQueue.RunChain | src/josu/delegate/queue.py:45-78 | one lock hold over the whole chain, released on every exit, leaving store, lists and outcome as the attempts in order do |
| ChainRun.ExecuteChain | src/josu/delegate/chain.py:182-323 | an empty chain touches nothing; otherwise the outcome, the skip records and the store are those of the turns in order, each decided by its own inputs |
| ChainRun.BucketsFollowTheInputs | src/josu/delegate/chain.py:219-303 | after any run a name's bucket is what the attempts on that name make of it, each from its own environment alone: nothing while cooling, clean on success, one more failure on a failed call, only an expiry reset otherwise |
| ChainRun.OutcomeIff | src/josu/delegate/queue.py:69-78 | over the inputs: served at j exactly when candidate j answers and every turn before it failed otherwise than by its caller's cancellation or a foreign error; raised exactly at the first of those two; exhausted exactly when every turn failed otherwise |
| ChainRun.RecordsFollowTheInputs | src/josu/delegate/chain.py:230-303 | the skip records of any run, name, error and retry value, are those its turns leave, each decided by its own inputs |
| ChainRun.RunTrichotomy | src/josu/delegate/queue.py:69-78 | in every run all attempts but the last advanced, and the last one's error decides between served, exhausted and propagated |
| ChainRun.ChainBookkeeping | src/josu/delegate/chain.py:215-303 | names attempted are a prefix of the chain, skip records those of its failed attempts in order, buckets of candidates not attempted untouched |
| ChainRun.ExhaustionReport | src/josu/delegate/chain.py:142-165 | exhaustion reports every name, and one aligned skip record each exactly when no candidate met a raising client factory while neither cooling nor refused, its bucket computed from the store and the environments before it |
| ChainRun.ServiceReport | src/josu/delegate/chain.py:219-303 | success at position j leaves j + 1 names, j skip records exactly when no earlier candidate met a raising client factory in that sense, and later candidates untouched |
| ChainRun.DiesInFactoryOnce | src/josu/delegate/chain.py:230-262 | for a name the chain has not tried before, that condition reads the store as it was before the call |
| ChainRun.FactoryErrorLeavesNoRecord | src/josu/delegate/chain.py:219-303 | one remote candidate whose client cannot be built exhausts the chain with no skip record |
| ChainRun.CallsFollowTheirEnv | src/josu/delegate/local_model.py:169-201 | every call reached has the outcome and completion count of its own environment, at most two completions |
| ChainRun.CompletionsAreBounded | src/josu/delegate/local_model.py:192-194 | a chain of n candidates asks the models at most 2n times |
| DelegateSystem.ReachableBuckets | src/josu/delegate/cooldown.py:84-133 | over every interleaving each bucket counts at most to the threshold and has an expiry exactly when it got there |
| DelegateSystem.SystemSlidingWindow | src/josu/delegate/chain.py:230-303 | over every interleaving of callers, threshold + 1 successive failures of a bucket without a success between span a cooldown |
| DelegateSystem.SystemRateLimit | src/josu/delegate/chain.py:230-303 | over every interleaving the breaker is a rate limiter: threshold * (span / cooldown + 1) failures at most |
| DelegateSystem.SystemAnswersAreEager | src/josu/delegate/chain.py:230-233 | every answer any attempt gets from the store is the one eager expiry gives |
| DelegateSystem.CoolsOnlyForACooldown | src/josu/delegate/chain.py:230-233 | over every interleaving an attempt is skipped for cooldown exactly when its bucket has been counted to the threshold and failed less than a cooldown ago; a bucket without a failure for a cooldown is let through to the call |
| DelegateSystem.EndedCallsAreRecorded | src/josu/delegate/chain.py:277-303 | over every interleaving a call that ends is recorded at once, as a success, or as a failure unless its error is foreign |
| DelegateSystem.RunsAreSerialisable | src/josu/delegate/queue.py:17-23 | over every interleaving each completed call has the result it has run alone in lock order, and the free store is what those runs leave |
| DelegateSystem.ChainsAreContiguous | src/josu/delegate/queue.py:17-23 | the attempts of one call form one contiguous block of the global attempt sequence, in chain order |
| DelegateSystem.WaitingIsBounded | src/josu/delegate/queue.py:5-8 | a call is granted the lock within the summed bounds of the calls it arrived behind, holds it at most n * (timeout + 5), and no attempt's clock starts before the grant |
| DelegateSystem.WaitAmongEquals | src/josu/delegate/queue.py:5-8 | behind calls of at most n candidates and one timeout, a caller waits at most their number times n * (timeout + 5) |
| DelegateSystem.ArrivesBehind | src/josu/delegate/queue.py:17-23 | a caller arrives behind the call that holds the lock and those waiting for it, and nobody else |
| DelegateSystem.CancelledNeverRuns | src/josu/delegate/queue.py:45-78 | a caller cancelled while waiting never gets the lock |
| NameStatus.ChangedPaths | src/josu/orchestrator/merge.py:164-184 | one change per non-blank line; only rename and copy lines carry a source |
| NameStatus.LettersAreRead | src/josu/orchestrator/merge.py:164-184 | what each status letter is read as, with the old path of a rename or copy |
| NameStatus.OnlyBlanksAreSkipped | src/josu/orchestrator/merge.py:171-173 | a blank line is skipped wherever it stands, and no other line |
| NameStatus.ParseReadsTheSpelling | src/josu/orchestrator/merge.py:164-184 | reading the lines git prints for any list of changes gives the list with its paths spelled as git quotes them |
| NameStatus.ParseInvertsPrintIff | src/josu/orchestrator/merge.py:164-184 | it gives the list itself exactly when no path in it needs quotes |
| NameStatus.QuotedPathStopsTheMerge | src/josu/orchestrator/merge.py:299-314 | the apply loop gets through git's printed list exactly when the worktree has a file by the spelling of every added or modified path, and no further than the first that has none |
| NameStatus.EffectOfASpelling | src/josu/orchestrator/merge.py:299-314 | the loop does to a spelling what the list asks of the path it stands for, with the content found under the spelling |
| NameStatus.QuotedTellsApart | src/josu/orchestrator/merge.py:164-184 | no two paths are spelled alike |
| NameStatus.QuotedPathIsNotTouched | src/josu/orchestrator/merge.py:299-309 | a path that is no changed path's spelling is left as it was |
| NameStatus.QuotedDeletionDoesNothing | src/josu/orchestrator/merge.py:305-309 | deleting one path that needs quotes merges without error and without effect |
| NameStatus.AccentedNameSpelled | src/josu/orchestrator/merge.py:164-184 | a name with an accented letter needs quotes, and is spelled in octal |
| NameStatus.SpecialBytesSpelled | src/josu/orchestrator/merge.py:164-184 | which bytes git's listing escapes by a letter and which in octal |
| NameStatus.QuotedEditStopsTheMerge | src/josu/orchestrator/merge.py:311-314 | editing one file whose name needs quotes fails at that file |
| Merge.FindDivergedPaths | src/josu/orchestrator/merge.py:222-255 | reports each touched path once, in the order of first sight, exactly those whose content differs from the snapshot |
| Merge.ApplyChanges | src/josu/orchestrator/merge.py:299-314 | every path ends as the last change to mention it says, untouched paths as they were; an unreadable source stops the loop where it stands, with that change's old path unlinked |
| Merge.MergeInto | src/josu/orchestrator/merge.py:271-316 | nothing is written when rejected or diverged; it merges exactly when approved, clean and readable; any path it changes was touched and still held its snapshot content |
| Merge.ApplyingRealisesTheDiff | src/josu/orchestrator/merge.py:285-314 | a well-shaped diff leaves the worktree's content on changed paths, removes deleted and renamed-from paths, and keeps all others |
| Merge.OrderIsIrrelevant | src/josu/orchestrator/merge.py:299-314 | two orders of a well-shaped diff give the same tree |
| Merge.WellShapedUnderPermutation | src/josu/orchestrator/merge.py:299-314 | every permutation of a well-shaped diff is well shaped |
| Merge.CopiesMergeIff | src/josu/orchestrator/merge.py:299-303 | with copies, the merge leaves the worktree's content on all touched paths exactly when every copy's source is written again later |
| Merge.CopyOrderMatters | src/josu/orchestrator/merge.py:299-303 | a copy beside an edit of its source keeps or loses the source depending on the order of the two |
| Merge.MergeIsSerialisable | src/josu/orchestrator/merge.py:41-46 | a clean merge equals the worktree's diff on the snapshot followed by the developer's delta, and the delta followed by the diff |
| RunTask.TryBlock | src/josu/orchestrator/run.py:225-397 | which stage results give which conclusion, what each leaves of the tree and of git's worktree list, what a failed stage raises, and every field of the record |
| RunTask.RunTask | src/josu/orchestrator/run.py:163-397 | a refused run leaves no trace; any other saves exactly one record agreeing with the result; a tracked path the developer changed between the worktree's creation and the merge, and an untracked file of theirs, keep what the developer wrote |
| RunTask.DeveloperEditsSurvive | src/josu/orchestrator/run.py:322-339 | whatever the outcome, the final tree is the developer's own except on touched paths that held snapshot content when the merge began and were not edited since |
| RunTask.EditDuringTheRunSurvives | src/josu/orchestrator/run.py:269-273 | a file both the adapter and the developer rewrite after the worktree's creation, at whatever stage: the run ends diverged with the developer's content in place |
| RunTask.ReturnedTree | src/josu/orchestrator/run.py:327-379 | a run that ends merged has its whole diff applied, any other that returns has left the tree to the developer |
| RunTask.ChangedByTheRunIff | src/josu/orchestrator/run.py:327-397 | a run, returned or raised, has changed a path exactly when its merge loop was entered, made something else of that path, and the developer did not write it afterwards |
| RunTask.FailedRemovalIsAMerge | src/josu/orchestrator/run.py:359-383 | a run whose worktree cannot be removed after the loop is recorded as an error with its whole diff applied |
| Delivery.ReadDiffMergesIff | src/josu/orchestrator/merge.py:294-316 | the loop gets through what it reads of a worktree's diff exactly when every tracked path that differs from HEAD has a file by its spelling |
| Delivery.DiffDeliversTheTracked | src/josu/orchestrator/merge.py:294-316 | when no path of the diff needs quotes the loop never fails, and delivers the tracked files wherever they differ from HEAD, and nothing else |
| Delivery.ChangeIsDeliveredIff | src/josu/orchestrator/merge.py:164-184 | for the list as it is read, a path where the worktree differs from the developer's tree ends up as the adapter left it exactly when an entry is spelled as that path and stands for a tracked file, or for a removal where the adapter left nothing |
| Delivery.DeliversIff | src/josu/orchestrator/merge.py:164-184 | unless the path is another changed path's spelling, that is: it is tracked, differs from the worktree's HEAD, and needs no quotes |
| Delivery.MergedRunDeliversIff | src/josu/orchestrator/run.py:322-367 | the same for every run that ends merged, after any session of writes, stagings and commits and whatever the names, at paths the developer left alone |
| Delivery.DeletionIsNotDelivered | src/josu/orchestrator/run.py:322-367 | a run whose adapter deletes one tracked file with a name that needs quotes ends merged with the file still there |
| Delivery.UnrelatedEditsNeverBlockIff | src/josu/orchestrator/merge.py:222-255 | edits to paths the adapter left alone never make a merge diverge exactly when every path the diff names is one the adapter changed |
| Delivery.DirtyFileBlocks | src/josu/orchestrator/merge.py:9-17 | an idle adapter, and a developer still editing a file that was dirty at the start: the run ends diverged |
| Delivery.FreshWorktreeSees | src/josu/orchestrator/worktree.py:120-175 | a fresh worktree's diff sees exactly what the developer had changed since HEAD |
| Delivery.CommittedIsNotSeen | src/josu/orchestrator/adapters/claude_code.py:64-68 | whatever the session, a change staged and committed is not in the diff unless its path is written again |
| Delivery.UntrackedIsNotSeen | src/josu/orchestrator/merge.py:164-184 | a new file that is never staged is not in the diff |
| Delivery.LostChanges | src/josu/orchestrator/run.py:359-367 | a committed edit, an unstaged new file and a file put back to HEAD each leave an empty diff, whose merge changes nothing |
| Breaker.CircuitBreaker.Start | src/josu/orchestrator/circuit_breaker.py:93-97 | opens a segment only from rest |
| Breaker.CircuitBreaker.Pause | src/josu/orchestrator/circuit_breaker.py:99-108 | banks a running segment and pauses; before the start it only pauses |
| Breaker.CircuitBreaker.Resume | src/josu/orchestrator/circuit_breaker.py:110-114 | opens a fresh segment in any state |
| Breaker.CircuitBreaker.RemainingSeconds | src/josu/orchestrator/circuit_breaker.py:136-139 | what is left of the timeout after the reading, and zero exactly when nothing is |
| Breaker.CircuitBreaker.Check | src/josu/orchestrator/circuit_breaker.py:141-146 | trips exactly when the reading exceeds the timeout |
| Breaker.BreakerMeasuresActiveTime | src/josu/orchestrator/circuit_breaker.py:93-134 | after any calls in time order the reading is the number of running instants less what resume while running dropped |
| Breaker.ElapsedIsActiveTimeIff | src/josu/orchestrator/circuit_breaker.py:110-134 | the reading is the active time exactly when no resume cut a running segment, and never more |
| Breaker.ElapsedNeverDecreases | src/josu/orchestrator/circuit_breaker.py:128-134 | over such a trace no reading is below an earlier one |
| Breaker.TimeUsedIs | src/josu/orchestrator/worktree.py:160-170 | preparation takes what its git calls took up to the first to outlast the limit, and that limit |
| Breaker.Prepare | src/josu/orchestrator/worktree.py:160-170 | four undivided git calls end within four limits, and expire exactly when one of them does |
| Breaker.PrepareThenAdapt | src/josu/orchestrator/run.py:253-306 | the adapter runs exactly when preparation met the budget, never past the budget counted from the start of preparation (plus the spawn delay), and completes exactly when what was left sufficed |
| Router.RoutingEngine.RequirePrimary | src/josu/graph/router.py:130-145 | a set primary is the answer; without one a probe starts exactly when one can be made and thirty seconds have passed, and otherwise the stored reason is the answer, or "unconfigured" |
| Router.RoutingEngine.ProbeReturned | src/josu/graph/router.py:135-145 | the result overwrites engine and reason whatever they have become; the caller gets the engine found, or else the reason |
| Router.ProbesAreRateLimited | src/josu/graph/router.py:130-137 | over every interleaving probe starts are an interval apart, the first one counted from clock zero |
| Router.PromptProbesAreSingle | src/josu/graph/router.py:130-145 | if every probe takes less than the interval, at most one is in flight, and none once a primary is set |
| Router.PrimaryIsFinalIff | src/josu/graph/router.py:88-89 | a set primary survives every continuation exactly when no probe is in flight |
| Router.PromptPrimaryIsFinal | src/josu/graph/router.py:88-89 | along prompt probes a primary once set is never unset or replaced |
| Router.PromptPrimaryAnswers | src/josu/graph/router.py:130-145 | along prompt probes, once a primary is set every later query is answered with it |
| Router.NothingToProbe | src/josu/graph/router.py:130-145 | without a primary or a factory every query of every run gets the reason the engine was built with |
| Router.SlowProbeUnsetsThePrimary | src/josu/graph/router.py:130-137 | two overlapping probes can leave a found primary unset |
| Debounce.DebouncedSaveWatcher.OnSave | src/josu/proactive/watchers.py:379-386 | the pending timer is cancelled and one timer a window ahead takes its place |
| Debounce.DebouncedSaveWatcher.Fire | src/josu/proactive/watchers.py:388-390 | the handle is dropped and the callback made once |
| Debounce.OnlineState | src/josu/proactive/watchers.py:379-390 | after any saves exactly one timer is live, its handle held, and the calls so far are those of the earlier quiet saves |
| Debounce.DebounceRefinesTheOfflineReading | src/josu/proactive/watchers.py:353-390 | the calls made by any later instant are exactly a window after each save that no later save cut short |
| Debounce.LateCallbackOrphansIff | src/josu/proactive/watchers.py:388-390 | a late callback leaves a timer that cannot be cancelled exactly when a save came in between |
| Debounce.OrphanFiresEarly | src/josu/proactive/watchers.py:388-390 | such a timer calls back inside the window of a later save |
| Recovery.Host.ListManaged | src/josu/orchestrator/worktree.py:266-295 | the listed worktrees under the directory, in git's order |
| Recovery.Host.MarkAbandoned | src/josu/fallback/quota.py:254-288 | one marker under the worktree's name, replacing any earlier one |
| Recovery.Host.Scan | src/josu/cli.py:68-85 | marks the orphans it returns, those known before it excluded |
| Recovery.Host.RemoveAbandoned | src/josu/cli.py:185-213 | the marker goes exactly when the worktree could be removed |
| Recovery.Host.Cleanup | src/josu/cli.py:497-530 | scan, then each named removal in turn against the report; exit code zero exactly when the report is empty or all named were removed |
| Recovery.ScanMarksEverything | src/josu/orchestrator/worktree.py:298-328 | a scan removes nothing, keeps every marker, and leaves each managed worktree a marker under its name |
| Recovery.PrimaryIsNeverMarked | src/josu/orchestrator/worktree.py:281-285 | a scan marks no working tree outside the worktrees' directory |
| Recovery.ScanIsIdempotent | src/josu/orchestrator/worktree.py:316-318 | an immediate second scan finds and changes nothing |
| Recovery.CleanupDeletesIff | src/josu/cli.py:204-213 | a marker is deleted exactly when named and its own worktree was removable, that worktree is gone, all others are intact |
| Recovery.ExitCodeIff | src/josu/cli.py:497-530 | the exit code is zero exactly when nothing was abandoned, or every name is listed, present in git, and clean or forced; so zero means "all named removed" exactly unless names were given and nothing was abandoned |
| Recovery.UnlistedNameExitsZero | src/josu/cli.py:501-503 | with nothing abandoned, removing one name exits zero although it is not listed |
| Recovery.RecoveryIsComplete | src/josu/cli.py:88-106 | after any history of runs beginning and ending, hand removals, abandonments, scans and cleanups, a scan leaves every managed worktree marked and a second changes nothing |
| Recovery.LiveIff | src/josu/orchestrator/worktree.py:209-225 | in every history a run is live exactly when it began and has neither finished nor stopped since |
| Recovery.ScanMarksTheDeadIff | src/josu/orchestrator/worktree.py:209-225 | in every history the worktrees a scan marks all belong to runs that are over exactly when no live run has an unmarked managed worktree |
| Recovery.StaleIff | src/josu/cli.py:197-213 | in every history a marker has no worktree exactly when its worktree was removed by its run or by hand while marked, or was marked when already gone, and was not created again since |
| Recovery.StaleMarkersStick | src/josu/cli.py:197-213 | from any history on, a marker without a worktree survives every scan and cleanup until its path is created again or its name is marked again |
| Recovery.ScannedLiveRunGoesStale | src/josu/cli.py:68-85 | a scan during a run marks its worktree, and the marker has no worktree once the run has finished |
| Porcelain.Parse | src/josu/orchestrator/worktree.py:237-263 | the parser loop gives the entries of the line-by-line reading |
| Porcelain.ParseInvertsPrint | src/josu/orchestrator/worktree.py:237-263 | any entry list, attached or detached, with any separators and extra attribute lines, is read back as it was |
| Porcelain.GitRecordsAreRead | src/josu/orchestrator/worktree.py:237-263 | git's lines for a worktree on a branch and for a detached one are read as those |
| Porcelain.OtherRefsAreKept | src/josu/orchestrator/worktree.py:255-257 | a branch outside refs/heads/ keeps its whole name |
| FileWalk.WalkIsTheSortedFileList | src/josu/delegate/local_model.py:93-116 | the walk lists the files below its root, each once, in strictly ascending order of path components; that is every file of the tree exactly when the root is not itself a file |
| FileWalk.FileRootYieldsNothing | src/josu/delegate/local_model.py:108-111 | a root that is a file yields nothing |
| FileWalk.JoinedWalkAscendsIff | src/josu/delegate/local_model.py:101-106 | the joined paths ascend exactly when nowhere a directory holding a file has a sibling that yields files and extends its name by a character below the separator |
| FileWalk.DirectoriesClash | src/josu/delegate/local_model.py:101-106 | two directories `a` and `a.b` holding a file each are such a pair |
| FileWalk.TakeIsAPrefix | src/josu/delegate/local_model.py:119-125 | the walk that stops at a limit yields the first files of the full one |

## Left out

- DelegateSystem.WaitingIsBounded: a cancelled attempt's cleanup is instantaneous, the lock passes to the next waiter at once, and code between awaits takes no time.
- DelegateSystem.RunsAreSerialisable: `DelegateQueue.run`, the one-call form of the lock, is not part of the step system; no module calls it.
- RunTask.RunTask: worktree creation with its snapshot is one atomic step, and so is `merge()`; an edit made inside either is not modelled, and the worktree's name is taken to be new.
- RunTask.TryBlock: stage results are given, not timed; the clock side of preparation and adapter is in `Breaker.PrepareThenAdapt`.
- NameStatus.ParseReadsTheSpelling: `core.quotePath` is at its default; with it off, git leaves bytes above 127 bare.
- Delivery.MergedRunDeliversIff: file modes and submodules are left out of the diff.
- Merge.MergeInto: text decoding, permissions, symbolic links, and file-against-directory clashes; the mkdir of parent directories has no counterpart in a map of paths.
- Breaker.PrepareThenAdapt: a timed call that outlives the timeout it is given.
- Debounce.OnlineState: several expired callbacks pending at once; a late callback is treated one at a time.
- Recovery.RecoveryIsComplete: marker files are a map; a marker that cannot be read back, and the printing of the report, are left out.
- FileWalk.WalkIsTheSortedFileList: directories that change while being walked, and cycles through symbolic links.
- Floating-point rounding: clocks and timeouts are integers.
- Validation of configuration: the loading loop of `load_chains_config`, TOML, pydantic models, and the finiteness guards, which are preconditions here.
- HTTP, MCP, subprocess and daemon plumbing, and the graph engines behind the router.
- The quota and severity classifiers, which rest on regular expressions.
- Git itself, beyond the quoting of paths in `NameStatus` and what a diff compares in `Delivery`: its listings and its stash are parameters.
