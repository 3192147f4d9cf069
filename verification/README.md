# Verified models of agenttalk

agenttalk is a file-backed message bus for coding agents. Around it stand a release-gate protocol, an
acceptance engine that carries obligations from one attempt to the next, and several small algorithms on which
operators rely. This project models those parts in Dafny 4.11 and proves what they are for.

Run `dafny verify dfyconfig.toml` in this directory.

## What is modelled

**The coverage gate** (`CoverageGate`, `CoverageSafety`, `CoverageProgress`, `CoverageWrites`,
`CoverageEmission`, `CoverageAgreement`; `src/agenttalk/assurance.py`). Scans, finalizers and operators share one gate record.
Every config transaction is one atomic step; taking and giving back the coverage and handoff locks, looking at
the report paths, running the command and asking Git are steps of their own, and a crash, an operator write or
an unrelated transaction may fall between any two of them. Each run keeps a trace. The main results say which
history a write of the automation can point back to: a green always closes its own uninterrupted pair of
writes, has a clean measurement and a fenced Git probe behind it, and names the commit its own scan began with;
every automated write is worded, field by field, by events of its own scan, and goes through exactly when
nothing newer is there to give way to; a clean scan left alone does turn the gate green; no automated write
replaces an active waiver; the locks cannot deadlock, and a scan makes at most eighteen steps before it ends. Taken alone, the
emission loop can turn a failed measurement green. It is proved in exactly which environments, and that the
caller's habit of passing no fence token with a failure is exactly what prevents it. The loop and the steps of
the protocol bind the same evidence.

**The acceptance engine** (`AcceptanceCoverage`, `AcceptanceHistory`, `AcceptanceAttempt`, `CloseRecord`,
`AcceptanceObligations`, `AcceptanceReview`, `AcceptanceRecovery`, `JsonScanner`, `RegistryGraph`, `RegistrySearch`, `Preflight`,
`PreflightMemo`, `PreflightReport`, `PinLimits`, `PreflightStaged`, `PinReader`, `SetSizes`; the
`acceptance*.py` files and the counters of `close.py`). The implication order on row predicates is sound for
the row comparators, and it is proved exactly where it is more cautious than it needs to be. A successor's
plan changes nothing exactly when it still demands every gating row of every ancestor, entries and environment
included, and the verdict on a chain of amendments is clean exactly when every link of it is honest. An attempt
is a state machine whose hashes are set once and in order, and its verdict is hold-free exactly when the ledger
shows that everybody attested after the reconciliation; the object its transactions update keeps that agreement as its invariant. The walk over
source records accepts exactly the bounded reachable sets; what a close carries, what a capture makes of it and
what an evaluation still holds are each said exactly, field by field. A carried obligation holds its attempt through
every run of captures, acknowledgements and decisions, until somebody named decides it, and survives any
number of recoveries. The byte scanner agrees with the JSON tree on every layout (sections 2 to 7 of RFC
8259), the memoised depth search with the longest paths, and the preflight, from staged bytes and registry to
blocking holds, with a statement over reachability alone; the two read budgets are spent byte for byte.

**Compact algorithms.** `TomlText`, `CodexConfig`, `CodexEdit`, `CodexText`, `CodexProjects`, `CodexFile` and
`CodexSettles` model the block editor of `src/agenttalk/codex_config.py` (TOML v1.0.0, "Keys" and "String"). `Jsonl` models
the append-only ledger under torn writes, `Attention`, `AttentionQueue`, `AttentionView` and `AttentionOrder` the operator's
queue over an untrusted disposition log, `Capacity` a reading that ages after it was published, `Tripwire` and
`TripwireSigma` the n-gram scanner. `StableSort`, `PythonText` and `Wrappers` hold the few notions of the
source's language they share.

## How to read the model

* A digest stands for the bytes it was taken over, so hashing is injective; `PinReader` and `Tripwire`
  take any hash function instead. Time is an integer passed in. Timestamp parsing, case folding, lower-casing
  and the reading of escape digits are function parameters, and every theorem holds for all of them that meet its
  stated conditions. Reading digits has three outcomes, since the source catches one exception of two.
* Code that changes things step by step is a method or a class with the source's loops and branches,
  proved equal to a function or to a relation over the inputs; the lemmas then speak about that function.
* A lemma whose name ends in `Exactly` says of a central function what it means over the plain fields, codes and
  log lines of its inputs, in words of its own, so that the function and the methods proved equal to it cannot
  drift together.
* Config transactions, the close-record writer lock and message delivery are atomic.
* Where a property fails, the failure is part of the result. `TokenDisciplineIsTheGuard`,
  `ImplicationIsExactBut`, `PublishingChangesNothing`, `EnableTwiceIsOnce` and `AssemblyIgnoresOrder` state the
  exact condition for all inputs. `build_queue` promises never to raise; it does, exactly when some line of the log
  has an array or an object for its action (`Fold`, `ForgedLineRefuses`). The Codex editor raises exactly on a
  `projects` header with an oversized escape (`EveryProjectSettles`, `OversizedHeaderRefuses`). The tripwire is
  to catch a denylisted string wherever it stands as a word of its own; `OccurrenceIsHitExactly` says where it does,
  and `SigmaIsMissed` names a word it misses.
* `DemandedRowsPass`, `CompareAccepts`, `AcceptedExactly`, `TooBigExactly`, `ActiveFirst`, `StatusExactly`,
  `BlocksExactly`, `AmendmentHoldsExactly`, `MovesGoThroughExactly`, `MovesLeaveOpen` and the three lemmas about the
  fields of a `Capacity` view follow from the definitions at once; their rows are there because the source promises
  them, and to fix those definitions. So do
  `HitExactly`, `OccurrenceIsHitExactly`, `PlainTextIsInPlace` and `PendingStays` from the contracts they connect.

## Model

| member | source | states |
|---|---|---|
| CoverageGate.OverlayIsOnlyAWaiver | src/agenttalk/assurance.py:1983-2006 | a record overlays an older one exactly when it is that record with the six waiver fields changed, and waiving it again keeps it so |
| CoverageGate.NextTime | src/agenttalk/gates.py:585-600 | a gate write is stamped strictly later than the record it replaces and all its evidence, whatever the clock says |
| CoverageSafety.StepKeeps | src/agenttalk/assurance.py:1607-1815 | every enabled step of every process keeps the protocol invariant: lock owners, tokens, marks and expected records stay consistent |
| CoverageSafety.EventJustified | src/agenttalk/assurance.py:2087-2164 | in a state satisfying the invariant, every event a step adds is justified by the history before it |
| CoverageSafety.RunsAreJustified | src/agenttalk/assurance.py:1561-1815 | the invariant and the justification of every event hold in all reachable states |
| CoverageSafety.PairsDoNotInterleave | src/agenttalk/assurance.py:1607-1815 | a final write closes its own provisional write with no other locked write in between |
| CoverageSafety.ActiveWaiverSurvives | src/agenttalk/assurance.py:1973-1980 | no automated write replaces a waived record whose waiver is complete and has not expired at that moment |
| CoverageSafety.UnlockedRedsYield | src/agenttalk/assurance.py:2009-2052 | a finalizer or fallback red is written only when nothing was written since its own scan began, lapsed waivers aside for the fallback |
| CoverageSafety.ThreeAcquisitionsAtMost | src/agenttalk/assurance.py:2055-2164 | the final emission takes the config lock at most three times |
| CoverageSafety.LocksCannotDeadlock | src/agenttalk/store.py:2086-2206 | while a scan is unfinished, some scan is not waiting or a dead coverage marker can be reclaimed |
| CoverageSafety.NextAction | src/agenttalk/assurance.py:1607-1815 | a process that is not waiting has an enabled step that moves it to another stage |
| CoverageProgress.ScansEnd | src/agenttalk/assurance.py:1607-1815 | whatever the others do in between, a scan makes at most eighteen steps of its own, and after eighteen it has ended |
| CoverageProgress.EndsAlone | src/agenttalk/assurance.py:1607-1815 | from any state that satisfies the invariant, a scan that finds the locks free and meets no failure runs to its end within that bound |
| CoverageWrites.GreenIsEarned | src/agenttalk/assurance.py:2087-2141 | a green is a final write with the attested reason, preceded in order by its provisional write, clear report paths, a passed command with a percentage, clear paths again, a fence and a clean Git probe with no config transaction after the fence, and its compare-and-swap found the provisional record or a lapsed waiver over it; it names the revision its own scan began with, and appends one automation entry with the percentage that command printed |
| CoverageWrites.WritesAreWorded | src/agenttalk/assurance.py:2087-2141 | in every run every automated write has the revision its scan began with, or keeps the one there, leaves waiver, scope and severity alone, appends at most one piece of evidence with the percentage of that scan's command, and if it is red gives a reason that an event of the scan shows |
| CoverageWrites.WritesGoThroughExactly | src/agenttalk/assurance.py:1973-2052 | in every run an automated write goes through if and only if no active waiver stands there and the record is the one the scan expects, a waiver over it aside; a finalizer also needs a record and something new to say; otherwise nothing changes |
| CoverageWrites.GreenNeedsAutomation | src/agenttalk/gates.py:128-136 | in every run nobody turns a blocking gate green but with the automation source and a new piece of evidence, operators included |
| CoverageWrites.WaiverStands | src/agenttalk/assurance.py:1973-1980 | a complete waiver that has not expired takes effect at once and stands with its scope, whatever scans and finalizers do, until the operator acts again or it expires |
| CoverageWrites.CleanScanTurnsGreen | src/agenttalk/assurance.py:1607-1815 | from any reachable state without an active waiver, a scan that finds both locks free and gets clean answers runs to its end within eighteen steps and leaves the gate green, with its own revision and percentage |
| CoverageEmission.Emit | src/agenttalk/assurance.py:2055-2164 | the emission loop with its re-probes ends with the evidence binding of its specification |
| CoverageEmission.GreenDespiteFailureExactly | src/agenttalk/assurance.py:2055-2164 | exactly which lock tokens and Git answers make the emission green although it carries a failure reason |
| CoverageEmission.TokenDisciplineIsTheGuard | src/agenttalk/assurance.py:1712-1736 | a failed but otherwise green measurement stays red in every environment if and only if no fence token is passed with it |
| CoverageAgreement.PendingStays | src/agenttalk/assurance.py:2055-2164 | no step of anybody, the scan's own misses and probes included, changes what its emission loop would come to |
| CoverageAgreement.EmissionAgrees | src/agenttalk/assurance.py:2055-2164 | from the release of the coverage lock to the final write, with anything in between, the protocol writes with exactly the evidence the loop binds |
| AcceptanceCoverage.PredicateOf | src/agenttalk/acceptance_coverage.py:56-78 | a generated predicate names the definitions of exactly its entries |
| AcceptanceCoverage.ImpliesIsAPartialOrder | src/agenttalk/acceptance_coverage.py:81-100 | implication is reflexive, transitive and antisymmetric on generated predicates |
| AcceptanceCoverage.CompareAccepts | src/agenttalk/acceptance.py:638-653 | corollary: a row's comparator passes exactly the observed values its predicate accepts |
| AcceptanceCoverage.ImplicationIsSound | src/agenttalk/acceptance_coverage.py:81-100 | corollary: on one target, whatever passes the implying row passes the implied row, the observed values as well as the checks of its entries by definition, environment and override |
| AcceptanceCoverage.ImplicationIsExactly | src/agenttalk/acceptance_coverage.py:81-100 | one row implies another if and only if it asks for the same value or set, or for a list that is that set, and has every entry of it by the same definitions, in the same environment and with the same override |
| AcceptanceCoverage.CompareRefuses | src/agenttalk/acceptance.py:638-653 | the comparison is refused exactly for a missing field, an exit code that is no integer, and a failure set that is neither a list of distinct texts nor too long |
| AcceptanceCoverage.ImplicationIsExactBut | src/agenttalk/acceptance_coverage.py:81-100 | implication of kinds is semantic entailment except for a failure set of at most one text against its only list |
| AcceptanceCoverage.StrongestCovers | src/agenttalk/acceptance_coverage.py:103-106 | every input predicate is implied by a member of the reduction |
| AcceptanceCoverage.StrongestIsTheAntichain | src/agenttalk/acceptance_coverage.py:103-106 | the reduction is an antichain of inputs, and the only one that covers them all |
| AcceptanceCoverage.CoverageSurvivesReduction | src/agenttalk/acceptance_coverage.py:103-118 | covering the reduction is the same as covering everything it came from |
| AcceptanceCoverage.Group | src/agenttalk/acceptance_coverage.py:109-118 | the grouping loop yields, per target, the reduced demands of the gating rows |
| AcceptanceCoverage.Changes | src/agenttalk/acceptance_coverage.py:154-161 | the loop reports exactly the targets whose protected demands the plan no longer covers |
| AcceptanceCoverage.ScopeIsReducedExactly | src/agenttalk/acceptance_coverage.py:154-161 | a change names the protected demands, and has nothing new exactly where no gating row has the target any more |
| AcceptanceHistory.History | src/agenttalk/acceptance_coverage.py:121-151 | the walk merges the demands of every ancestor and refuses in the cases of the recursive specification |
| AcceptanceHistory.Lineage | src/agenttalk/acceptance_audit.py:10-18 | the walk hands out the record, its parent and so on, the only such line there is, up to the root, or up to exactly the unreadable plan, the missing parent or the limit it then names; it reaches the root exactly when the ancestry can be walked |
| AcceptanceHistory.ChangesAreExactlyWhatIsDropped | src/agenttalk/acceptance_history.py:229-267 | a plan changes nothing outside given targets if and only if every gating row of every ancestor elsewhere has a gating row on the same target that asks for the same and requires at least its entries, definitions, environment and override |
| AcceptanceHistory.DemandedRowsPass | src/agenttalk/acceptance.py:638-653 | corollary: observations and entry checks that satisfy every gating row of the new plan satisfy every ancestor row that is still demanded |
| AcceptanceHistory.HoldFreeMeansHonest | src/agenttalk/acceptance_history.py:171-226 | an evaluation succeeds without scope, category or independence holds if and only if at every link, up to 32, the parent was published, the amendment names parent, child and exactly the changes, nobody left, what is asked was released, and nothing is dropped but what the operator released |
| AcceptanceHistory.AmendmentHoldsExactly | src/agenttalk/acceptance_history.py:229-247 | coverage holds arise exactly for a change or a requested reduction that the operator's own message does not release in full: category moved always, scope reduction where a target lost all its rows, a stale plan at an unchanged revision |
| AcceptanceHistory.StaleHoldsExactly | src/agenttalk/acceptance_history.py:171-247 | a stale-plan hold stands exactly while the revision has not moved since a link whose change nobody released |
| AcceptanceHistory.AncestryLimit | src/agenttalk/acceptance_coverage.py:121-151 | a readable ancestry is walked exactly when it has fewer links than the limit |
| AcceptanceHistory.EvaluateLimit | src/agenttalk/acceptance_history.py:171-191 | the recursive evaluation is too deep exactly for more than 32 links |
| AcceptanceHistory.LimitsAgree | src/agenttalk/acceptance_history.py:120-121 | a child is admitted exactly when lineage, history and the recursive evaluation can walk it, and one link more is refused by all |
| CloseRecord.Close.FreezeRoute | src/agenttalk/acceptance.py:409-440 | succeeds exactly on a pending route and an unchanged plan, adds the runner and reviewer lenses, and leaves no earlier acknowledgement valid for the frozen route; a refusal changes nothing |
| CloseRecord.Close.SubmitCommit | src/agenttalk/acceptance_cold.py:90-123 | succeeds exactly for the reviewer, on a frozen route without a commit: the one hash goes from unset to set while the later ones are still unset, one event is appended, and every earlier acknowledgement loses its validity; the check for an earlier bundle never decides |
| CloseRecord.Close.AttachBundle | src/agenttalk/acceptance.py:581-635 | succeeds exactly after the commit and before any bundle, with new reproduction lenses: the bundle hash goes from unset to set, the commit stays, one event is appended, and every earlier acknowledgement loses its validity |
| CloseRecord.Close.SubmitReconciliation | src/agenttalk/acceptance_cold.py:90-123 | succeeds exactly for the reviewer, after the bundle, once, with one finding for each observation; then the event-order check passes and nobody has attested the outcome yet |
| CloseRecord.Close.ApplyAck | src/agenttalk/close.py:1875-1914 | the acknowledgement attests the route as it stands exactly if it is an acceptance without override of a frozen route; other lenses keep theirs |
| CloseRecord.PhaseUnbinds | src/agenttalk/acceptance.py:749-796 | each phase that goes through leaves no acceptance given before it valid |
| CloseRecord.Replay | src/agenttalk/acceptance_cold.py:90-123 | any sequence of transactions on the object keeps its invariant and is a run, so that all that is proved of runs holds of the object |
| AcceptanceAttempt.StepKeeps | src/agenttalk/acceptance.py:581-635 | one more action keeps the agreement of hashes, ledger and acknowledgements |
| AcceptanceAttempt.HashesAreSetOnceInOrder | src/agenttalk/acceptance_cold.py:90-123 | over every run each of the three hashes is set at most once, never changes, and none comes before its predecessor |
| AcceptanceAttempt.OrderCheckNeverFails | src/agenttalk/acceptance_cold.py:186-200 | on a reachable record with all three hashes the event-order check finds each event exactly once and in order |
| AcceptanceAttempt.HoldFreeMeansAttested | src/agenttalk/acceptance.py:749-796 | a verdict is without holds if and only if every runner, every reproducer and the reviewer accepted last of all after the reconciliation on the ledger, without override, no blocking observation is open and nothing outside holds |
| AcceptanceAttempt.VerdictExactly | src/agenttalk/acceptance_cold.py:140-205 | over every run each hold of the verdict is there exactly when its own cause is: no bundle, a lens without an acceptance bound to all the hashes, an unsettled reconciliation, a blocking observation left open |
| AcceptanceObligations.Sources | src/agenttalk/acceptance_obligations.py:25-47 | on any digest graph, cyclic or not, the worklist returns exactly the reachable records, once and oldest first, if and only if they read back and are at most 256 |
| AcceptanceObligations.ReviewTraced | src/agenttalk/acceptance_obligations.py:101-130 | every obligation of a close carries an origin and the identity derived from it, earlier counters included |
| AcceptanceReview.ReviewIsExactly | src/agenttalk/acceptance_obligations.py:101-130 | a close carries its counters, normalised, each unresolved blocking cold observation, each execution failure and each hold without a resolver as a pending counter with its own origin, wording and author, the residual hold only where nothing else is carried; and nothing else |
| AcceptanceObligations.Capture | src/agenttalk/acceptance_obligations.py:166-174 | the capture loop yields the fold of the specification over the latest counter of each identity |
| AcceptanceObligations.CaptureIsComplete | src/agenttalk/acceptance_obligations.py:133-179 | every obligation of every source is in the record afterwards, and a counter that was there stays or lives on under its stable identity |
| AcceptanceReview.CaptureIsExactly | src/agenttalk/acceptance_obligations.py:166-174 | after a capture each identity reads as the record's own entry, or else as the latest source words it; a native counter is gone exactly where an original of the same name and wording came in |
| AcceptanceReview.LatestSourceSpeaks | src/agenttalk/acceptance_obligations.py:145-148 | what is carried under an identity is what the last source that has it says |
| AcceptanceObligations.ReachableObligationsArrive | src/agenttalk/acceptance_obligations.py:25-47 | an obligation of any reachable source, however many links away, is in the new attempt |
| AcceptanceReview.OpenMattersArrive | src/agenttalk/acceptance_obligations.py:25-47 | whatever a reachable source leaves open, an observation, a refusal, a hold without a resolver or a counter of its own, is in the new attempt under the identity derived from its attempt, kind and name |
| AcceptanceReview.SourcesFollowLinks | src/agenttalk/acceptance_obligations.py:25-47 | the records listed are the start and what they name as parent or obligation, step by step, sorted by opening, generation and digest |
| AcceptanceRecovery.WorkEvolves | src/agenttalk/close.py:1875-1940 | over every run of captures, acknowledgements, decisions and publication, a carried counter, and after the capture every counter, is still there with the wording, origin and author it had |
| AcceptanceRecovery.HeldUntilDecided | src/agenttalk/acceptance_obligations.py:133-224 | through every run after its capture, a pending carried obligation stops holding the attempt if and only if somebody named took the latest decision on it, at a time on record, and the record words it as its source does; then the ledger has the line the evaluation asks for |
| AcceptanceRecovery.CapturedHoldsUntilDecided | src/agenttalk/acceptance_obligations.py:133-224 | for a record that did not have the counter before, it holds exactly until that decision |
| AcceptanceReview.OpenMattersHold | src/agenttalk/acceptance_obligations.py:101-224 | an observation, a refusal or a hold carried for the first time holds the new attempt through every run until somebody named decides it at a time on record |
| AcceptanceReview.HoldsUnlessAnswered | src/agenttalk/acceptance_obligations.py:210-224 | an obligation stops holding exactly when the record words it alike and states who decided, when and why, either unchanged from its source or with its line in the ledger |
| AcceptanceRecovery.DecisionStands | src/agenttalk/close.py:1917-1942 | what the record says about a carried counter is the latest decision taken in the run, whatever else was captured, acknowledged or decided |
| AcceptanceReview.DecisionIsWritten | src/agenttalk/close.py:1917-1942 | the latest decision is on record as accepted or rejected with its actor, time and non-empty reason, an acceptance with its remediation, and the ledger has its line |
| AcceptanceReview.PublishedStands | src/agenttalk/close.py:1875-1942 | a published record whose obligations were captured is never changed again |
| AcceptanceReview.MovesGoThroughExactly | src/agenttalk/close.py:1875-1942 | an objection goes through exactly on an unpublished record under a new name, a decision exactly on an unpublished record for a counter it has, with a reason that says something and, if it accepts, a remediation; a refused move changes nothing |
| AcceptanceReview.MovesLeaveOpen | src/agenttalk/close.py:1875-1914 | what is reported, published or objected in a run is what a successor will find open |
| AcceptanceRecovery.SourcesAreTraced | src/agenttalk/acceptance_history.py:99-168 | a capture from outcomes that were themselves produced by runs is never refused for a counter without identity |
| AcceptanceRecovery.IdentitySurvivesRecoveries | src/agenttalk/acceptance_obligations.py:93-130 | through any number of recoveries, each a run of its own, an obligation is there under the same identity at every moment after each capture |
| JsonScanner.Accepts | src/agenttalk/acceptance_registry.py:87-121 | the byte loop with its early refusals accepts exactly inputs within the byte limit whose full scan stays within both limits |
| JsonScanner.ScanValue | src/agenttalk/acceptance_registry.py:92-121 | from any resting state, scanning a value's text adds its node count, reaches its depth and rests again |
| JsonScanner.ScannerAgreesWithTree | src/agenttalk/acceptance_registry.py:87-121 | for every JSON value and every layout the scanner's maximum depth and count equal the tree's, so it refuses exactly trees over 24 deep or over 8192 nodes |
| RegistrySearch.Search.Visit | src/agenttalk/acceptance_registry.py:343-350 | the memoised search keeps every remembered depth exact, and a refusal is justified by a chain over the limit |
| RegistrySearch.Search.VisitAll | src/agenttalk/acceptance_registry.py:341-353 | accepted exactly when no dependency chain is longer than 24 entries, and then every remembered depth is the longest path length |
| RegistryGraph.ShallowIsAcyclic | src/agenttalk/acceptance_registry.py:341-353 | an accepted graph has no cycle |
| RegistryGraph.CycleIsDeep | src/agenttalk/acceptance_registry.py:341-353 | a cycle has paths of every length, so refusing it is refusing a chain over the limit |
| PreflightMemo.Collector.Collect | src/agenttalk/acceptance_registry.py:369-380 | the memoised closure of an entry is exactly the pins named by reachable entries and the evidence behind them |
| PreflightMemo.Collector.CollectAll | src/agenttalk/acceptance_registry.py:363-383 | every entry gets exactly that closure |
| Preflight.AddManifests | src/agenttalk/acceptance_preflight.py:209-216 | a consumer additionally needs every snapshot manifest of every distribution it needs, with its evidence, whatever the order of the manifests |
| Preflight.RequiredExactly | src/agenttalk/acceptance_registry.py:363-383 | an entry requires exactly the pins that it or an entry it reaches names, the record and verifications behind them, and each snapshot of a named distribution with what is behind that |
| PreflightMemo.Inheritance.Inherited | src/agenttalk/acceptance_preflight.py:246-253 | the memoised holds of an entry are exactly the own holds of the entries it reaches |
| PreflightMemo.Inheritance.InheritAll | src/agenttalk/acceptance_preflight.py:241-257 | every entry ends with exactly those holds |
| Preflight.RowHoldsAreExact | src/agenttalk/acceptance_preflight.py:258-261 | a row holds exactly the common holds and the own holds of everything its entries reach |
| Preflight.StatusExactly | src/agenttalk/acceptance_preflight.py:36-40 | pass exactly without a hold, fail exactly for a mismatch, an offline violation, a missing record or a stale plan, and otherwise not run |
| Preflight.NothingBlocksExactly | src/agenttalk/acceptance_preflight.py:48-55 | nothing blocks if and only if every gating row passes and whatever else was found belongs to some row and is of a waivable kind |
| Preflight.NothingBlocksMeansClean | src/agenttalk/acceptance_preflight.py:48-55 | if nothing blocks, no entry a gating row reaches has a hold and every pin it requires was read cleanly |
| PreflightReport.Evaluate | src/agenttalk/acceptance_preflight.py:200-267 | from the registry to the blocking holds in one run: refused exactly for a chain over the limit, otherwise a hold blocks exactly when it was found and cannot be waived, is in no row, or is in a gating row, all over reachability alone |
| PreflightReport.BlocksExactly | src/agenttalk/acceptance_preflight.py:48-55 | what is found blocks whatever the rows say if its code is one of the five or it is mandatory, and otherwise exactly where a gating row has it or no row has |
| PreflightReport.CleanWhereItCounts | src/agenttalk/acceptance_preflight.py:48-55 | if nothing blocks, an entry that a gating row reaches has no hold and every pin it requires was read cleanly |
| PreflightStaged.FileErrors | src/agenttalk/acceptance_preflight.py:195-209 | one run over all pinned files, on one budget for distributions and one for the rest: a file has no hold exactly when it was accepted on what was left and is in time, and each kind costs at most its budget and one byte |
| PreflightStaged.FileCodesExactly | src/agenttalk/acceptance_preflight.py:68-106 | which codes a file is held under, mandatory or not: by its size against the limits, its bytes, a break and how it broke, a late retrieval, an expiry |
| PreflightStaged.EvaluateStaged | src/agenttalk/acceptance_preflight.py:190-267 | from the staged bytes to the blocking holds: if every file is accepted in time and nothing else was found, nothing blocks; if nothing blocks, every file that a gating row counts on can be read, has as a whole the pinned size and digest, and is within its limit and in time |
| PinLimits.AcceptedExactly | src/agenttalk/acceptance_preflight.py:68-106 | corollary: a pin is accepted exactly when the whole file can be read, has the pinned size and digest and fits both limits |
| PinLimits.TooBigExactly | src/agenttalk/acceptance_preflight.py:68-106 | too much to read is answered exactly for a pin over its limit or the budget, and, unless it is a distribution, for a file that goes on past either before reading breaks |
| PinReader.ReadPin | src/agenttalk/acceptance_preflight.py:68-106 | whatever short reads occur and wherever reading breaks, the answer and the bytes read are those of the specification, and the budget falls by the bytes read and never below -1 |
| PinReader.ReadAll | src/agenttalk/acceptance_preflight.py:195-209 | over any sequence of pins of either kind the bytes read are the budget of that kind spent, at most one more than the budget, and each pin is judged on what was left for it |
| TomlText.EscapeIsCharwise | src/agenttalk/codex_config.py:58-68 | the chain of replacements works character by character |
| TomlText.UnquoteUndoesQuote | src/agenttalk/codex_config.py:46-107 | unquoting a quoted key gives the key, for every key |
| TomlText.RaisesExactly | src/agenttalk/codex_config.py:110-144 | unescaping raises if and only if it comes to stand before an escape whose number is too large, which the source does not catch |
| TomlText.BasicUnescape | src/agenttalk/codex_config.py:110-144 | the index loop computes the recursive unescaping or its exception, whatever the hex digits read as |
| TomlText.ParseTableHeader | src/agenttalk/codex_config.py:147-193 | the scanner finds the first closing bracket outside quoted parts, or no header |
| TomlText.HeaderParsesBack | src/agenttalk/codex_config.py:87-88 | the header written for any key parses back to exactly its quoted key, without a comment |
| TomlText.PairParsesBack | src/agenttalk/codex_config.py:250-257 | a written setting line reads back as its key and value |
| CodexConfig.FindAllSections | src/agenttalk/codex_config.py:196-229 | the search returns the matching blocks with their ends, in order, or raises, exactly when some line of the file does |
| CodexConfig.CollapseDuplicates | src/agenttalk/codex_config.py:239-247 | unless a line raises, deleting from last to first leaves the first block and every line outside matching blocks, and counts the rest |
| CodexConfig.CollapseKeepsOutside | src/agenttalk/codex_config.py:239-247 | at most one matching block is left, the first, unchanged, and the lines outside stay in order |
| CodexEdit.UpdateBlock | src/agenttalk/codex_config.py:309-341 | indexing, rewriting and inserting in place update exactly the block's body |
| CodexEdit.EnableLines | src/agenttalk/codex_config.py:291-342 | the editor computes the specified edit of the lines, or raises, exactly when some line does |
| CodexEdit.UpdatedValue | src/agenttalk/codex_config.py:309-341 | after the update every managed key reads as its target, whatever the block held before |
| CodexEdit.EnableSettles | src/agenttalk/codex_config.py:291-342 | afterwards there is exactly one matching block with all targets, the other lines are those there were in order, unmanaged lines of the block stay, and enabling the result changes nothing |
| CodexEdit.DisableRemovesGates | src/agenttalk/codex_config.py:355-409 | disabling removes every approval and sandbox setting, keeps the trust setting, the unmanaged lines and the lines outside |
| CodexEdit.DisableLines | src/agenttalk/codex_config.py:355-409 | the removal computes that disabling, or raises, exactly when some line does |
| CodexEdit.ReadStatus | src/agenttalk/codex_config.py:456-468 | the status loop reports presence, the number of further blocks and the last value of each key in the first block, or raises, exactly when some line does |
| CodexText.ScriptIsFaithful | src/agenttalk/codex_config.py:196-257 | for every project path the written header is recognised as that project's and the written settings read as meant |
| CodexProjects.HeaderNamesExactly | src/agenttalk/codex_config.py:196-229 | a header below projects, indented or not, commented or not, literal or basic, is taken for this project's if and only if its path folds to the same text |
| CodexProjects.OtherTablesNameNobody | src/agenttalk/codex_config.py:212-215 | a table that is not below projects is never taken for a project's |
| CodexProjects.SettingsExactly | src/agenttalk/codex_config.py:250-257 | a line is a managed setting exactly if it is no comment and no header and one of the three names stands before its first equals sign, blanks aside |
| CodexText.RaisesAtOversizedEscapes | src/agenttalk/codex_config.py:91-107 | a line raises if and only if it is a table header below projects whose basic-quoted key reaches an oversized escape |
| CodexText.SplitUndoesJoin | src/agenttalk/codex_config.py:279-286 | joining lines with the file's newline and splitting again gives the lines |
| CodexFile.EnableProject | src/agenttalk/codex_config.py:260-352 | creating and editing a file both write the specified text; an existing file with a line that raises is left alone and the exception handed on, and no other |
| CodexProjects.OtherProjectsStay | src/agenttalk/codex_config.py:275-352 | a block under another project's written header stands in the edited file line for line in its place, and what is written before and after it does not depend on it but for the blank line before a new block |
| CodexProjects.ForeignStays | src/agenttalk/codex_config.py:291-409 | the same on lines for any table of somebody else's, enabling and disabling |
| CodexProjects.RenderedText | src/agenttalk/codex_config.py:471-476 | the created file, letter by letter |
| CodexFile.RenderIsEnable | src/agenttalk/codex_config.py:471-476 | a created file is what enabling in an empty file writes |
| CodexSettles.EnableTwiceIsOnce | src/agenttalk/codex_config.py:275-352 | enabling goes through exactly where no line raises, and there a second run changes nothing, byte for byte, if and only if the file has a CRLF, or does not end in a bare carriage return, or nothing is written below that last line |
| CodexSettles.EnabledIsFit | src/agenttalk/codex_config.py:291-342 | when nothing is written below the last line, only the last line of the edited file may end in a return |
| CodexSettles.OneCrlf | src/agenttalk/codex_config.py:279-286 | a return that gets a line below it becomes the file's only CRLF, and the next run splits the file there |
| CodexFile.UniversalLine | src/agenttalk/codex_config.py:439-455 | status reads a line however it ends, in a line feed, a return and a line feed, or a return alone, as ended by a line feed |
| CodexFile.StatusAfterEnable | src/agenttalk/codex_config.py:439-468 | in a file of one newline style enabling and status raise on the same files; otherwise status goes through after enabling and reports one block with all three targets under universal newlines |
| CodexSettles.EveryProjectSettles | src/agenttalk/codex_config.py:260-352 | for the TOML reading of every project path: enabling goes through exactly where no projects header has a basic-quoted key with an oversized escape, and there the same condition decides; a file that is one carriage return is not settled |
| CodexSettles.OversizedHeaderRefuses | src/agenttalk/codex_config.py:133-140 | a file with one header whose key is an oversized escape makes enabling, disabling and status raise, and nothing is written |
| Jsonl.File.WriteAll | src/agenttalk/_jsonl.py:23-29 | repeated short writes leave exactly a prefix behind, all of it on success |
| Jsonl.File.AppendRecord | src/agenttalk/_jsonl.py:43-77 | an append writes a prefix of the missing newline, the record and its newline, all of it on success |
| Jsonl.EventAddsItsOwnLine | src/agenttalk/_jsonl.py:55-74 | an append torn at any byte leaves the earlier lines alone and puts what it wrote on a line of its own |
| Jsonl.LedgerKeepsEverything | src/agenttalk/_jsonl.py:43-77 | after any sequence of appends and crashes the physical lines are the initial ones, a hand-written tail included, followed in order by one line for every event that wrote part of its record |
| Jsonl.IterLines | src/agenttalk/_jsonl.py:12-20 | iteration yields the physical lines with their newlines |
| Attention.Fold | src/agenttalk/attention.py:442-495 | the log folds if and only if no line has an unhashable action, and then every entry is a valid line about its item and family |
| Attention.FoldFolds | src/agenttalk/attention.py:482-495 | the fold keeps, for each item and family, the newest valid line, and nothing else |
| Attention.ForgedLineRefuses | src/agenttalk/attention.py:446 | one line with an array or an object for its action refuses the whole log, whatever stands around it |
| Attention.FoldDispositions | src/agenttalk/attention.py:482-495 | the loop computes the fold or its refusal |
| Attention.ApplyDisposition | src/agenttalk/attention.py:498-561 | the step-by-step reading computes the specified state and warnings |
| Attention.HiddenExactlyWhenHandled | src/agenttalk/attention.py:498-561 | for any log that folds, an item leaves the default view if and only if the newest valid line of a family is about its live snapshot, allowed for its source and in force |
| Attention.BlockingItemsStay | src/agenttalk/attention.py:460-561 | a call for the operator is hidden only by an unexpired deferral or an answer elsewhere, a dead letter only by a deferral or its resolution, a process-tree hold only by a deferral, always the newest line against the live hash |
| AttentionView.LineCountsExactly | src/agenttalk/attention.py:442-495 | a line speaks for its item from then on exactly if it is complete, and any other line leaves the fold as it was |
| AttentionView.StateTellsAction | src/agenttalk/attention.py:498-561 | an active item is resolved, deferred, dismissed or answered exactly if the newest complete line of its kind says that action, against the live hash and in force, a resolution before any other |
| AttentionQueue.ActiveFirst | src/agenttalk/attention.py:566-587 | corollary: an active item outranks every other item whatever their weights |
| AttentionQueue.KeyNamesItem | src/agenttalk/attention.py:606-609 | equal sort keys mean equal item ids |
| AttentionView.RankExactly | src/agenttalk/attention.py:566-609 | one item stands before another by the first difference in: active, can be unblocked, priority, risk, source, haste, hours of age, id |
| AttentionQueue.EveryItemOnce | src/agenttalk/attention.py:1687-1725 | every visible item is in the queue exactly as often as it was visible, as representative or duplicate |
| AttentionQueue.QueueIsRanked | src/agenttalk/attention.py:1703-1717 | entries are in rank order, each is a whole group, and its representative outranks its duplicates |
| AttentionOrder.QueueOrderFreeExactly | src/agenttalk/attention.py:1703-1717 | for any list of visible items, repeated ids included, the printed queue is the same for every order of the list if and only if no tie can be seen: within a group, items of equal key are listed alike and at the top are the same, and representatives of different groups have different keys |
| AttentionOrder.AssemblyIgnoresOrder | src/agenttalk/attention.py:1687-1725 | the same from the delivered items to the printed queue, for every folded log |
| AttentionOrder.UniqueIdsSuffice | src/agenttalk/attention.py:606-609 | distinct ids leave no visible tie |
| AttentionOrder.RepeatedIdMatters | src/agenttalk/attention.py:1703-1717 | two snapshots under one id: the queue shows whichever was delivered first |
| AttentionQueue.UnhandledIsQueued | src/agenttalk/attention.py:1687-1725 | for any log that folds, an active item that no line handles is in the queue under every filter |
| AttentionView.PrintedExactly | src/agenttalk/attention.py:1687-1717 | under any flags an active item delivered once is printed, as itself or under its representative, if and only if no line takes it out or the flag of the action that takes it out is set |
| AttentionView.LinesExactly | src/agenttalk/attention.py:1704-1715 | each printed line is the representative as it stands, with the id and the references of each further member of its group |
| AttentionView.DefaultViewExactly | src/agenttalk/attention.py:1696-1703 | the default view prints exactly what no line takes out |
| AttentionQueue.BuildQueue | src/agenttalk/attention.py:1687-1717 | folding, filtering, grouping, ranking and printing compute the specified queue, and there is one exactly when no action is unhashable |
| StableSort.OrderFreeExactly | src/agenttalk/attention.py:606-609 | a list sorts alike from every input order if and only if equal keys mean equal elements |
| Capacity.CurrentView | src/agenttalk/capacity.py:764-799 | the loop over the parts computes the specified view, flag, confidence and reason |
| Capacity.PartsExpireExactly | src/agenttalk/capacity.py:756-786 | each window is dated by its own stamp, the verdict by the status stamp, the fill by the reading's, an empty stamp by the reading's; a part that is undated or past the limit loses all its figures and nothing else changes |
| Capacity.FlagLastsExactly | src/agenttalk/capacity.py:787-794 | the refusal flag stays exactly while the window it names has figures and is recent, or, if it names none, while every window with figures is |
| Capacity.ConfidenceExactly | src/agenttalk/capacity.py:795-799 | the view is observed exactly while a part with figures is recent, names its source as stale otherwise, and goes by the reading's own time where there are no figures |
| Capacity.PublishingChangesNothing | src/agenttalk/capacity.py:764-809 | the later view of a published view equals the later view of the reading itself, in every field, if and only if it is not an undated reading whose figures were already old |
| Capacity.UndatedReading | src/agenttalk/capacity.py:764-809 | such readings exist, and for them the two views differ |
| Tripwire.BuildDenylist | scripts/client_reference_tripwire.py:95-106 | the hash set holds the hashes of all n-grams of all strings and nothing else |
| Tripwire.FindHits | scripts/client_reference_tripwire.py:156-218 | for any length-preserving lower-casing of whole texts, the scan reports exactly the word-aligned places of the lowered text whose hash is listed, with their line and column |
| Tripwire.FoundExactly | scripts/client_reference_tripwire.py:80-190 | what is found is exactly what is at least as long as the floor, stands between non-word characters and reads, lowered once more, as a part of a listed string |
| Tripwire.HitExactly | scripts/client_reference_tripwire.py:80-218 | with a hash that tells texts apart, a word-aligned place is hit if and only if what stands there in the lowered text, lowered once more, is the lowering of a listed n-gram |
| Tripwire.OccurrenceIsHitExactly | scripts/client_reference_tripwire.py:80-218 | so an occurrence of a listed string is a hit exactly when its place in the lowered text still lowers to a listed n-gram |
| Tripwire.NothingIsMissed | scripts/client_reference_tripwire.py:80-106 | for any hash and any idempotent lower-casing, a word-aligned occurrence of a string of at least the floor length is a hit wherever it reads in the lowered text as it does lowered alone |
| Tripwire.PlainTextIsInPlace | scripts/client_reference_tripwire.py:80-106 | in a text of characters that lower-casing treats one by one every place reads as it does alone, so nothing is missed in it |
| TripwireSigma.InPlaceExactly | scripts/client_reference_tripwire.py:174 | under the final-sigma rule a place reads as it does alone exactly if each capital sigma in it is final both in the text and alone, or in neither |
| TripwireSigma.NoSigmaNothingMissed | scripts/client_reference_tripwire.py:174 | in a text without a capital sigma nothing is missed |
| TripwireSigma.SigmaIsMissed | scripts/client_reference_tripwire.py:174 | a denylisted word that ends in capital sigma, before a dot and a letter, stands word-aligned in the text and is no hit |
| Tripwire.DedupeOverlapping | scripts/client_reference_tripwire.py:221-238 | merged spans are sorted and disjoint, cover exactly the positions of the raw hits, begin at raw hits, and contain every raw hit |
| Tripwire.Check | scripts/client_reference_tripwire.py:80-238 | from denylist to report, every word-aligned place that reads as part of a listed string, and so every occurrence that reads as it does alone, lies inside one reported span; with a hash that tells texts apart spans cover nothing else; and every span names its line and column |

## Left out

- CoverageGate.NextTime: several profiles on one root are modelled as one gate each; the profile is a constant.
- CoverageSafety.LocksCannotDeadlock: lock timeouts and the age rules for stale lock markers are a nondeterministic failure to obtain the lock and a reclaim of a marker whose owner is gone.
- CoverageEmission.Emit: Git is an oracle that answers each probe; `git` subprocesses, artifact files and coverage parsing are not modelled.
- AcceptanceCoverage.PredicateOf: entry definition digests come in closed; the memoised closure in `definitions` that computes them is not modelled, and canonical JSON text is the value itself.
- AcceptanceHistory.HoldFreeMeansHonest: the approval message is one bit saying that the operator's own message binds the change; outcome rewriting in `apply_coverage` and the file checks of `successor` are not modelled.
- AcceptanceAttempt.HoldFreeMeansAttested: all other checks of `resolve` enter as an arbitrary set of outside holds; schemas before version 3 are not modelled.
- CloseRecord.Close.ApplyAck: the checks of an acknowledgement's own fields (a reason, a counter id) come before the call.
- AcceptanceRecovery.HeldUntilDecided: a counter acknowledged by hand under a name that already reads as a derived identity is not modelled, nor are reopening a close, which is refused for acceptance attempts, and the fields of a remediation.
- AcceptanceObligations.CaptureIsComplete: inherited remediation items and review requirements, with their conflict refusals, are not modelled.
- JsonScanner.ScannerAgreesWithTree: the strict JSON decoder behind the scanner and its Unicode check are not modelled; numbers and literals are any run of bytes without structural meaning, and string bodies any properly escaped bytes.
- Preflight.AddManifests: reading observations, offline proofs and environments enters as holds found; portable-path conflicts in `validate_registry` and `validate_plan` are not modelled.
- PinReader.ReadPin: links, reparse points and a file that changes while it is read are a break at some position of the file.
- PreflightStaged.EvaluateStaged: holds found in the environment and in observations, with the reads behind them on budgets of their own, come in as parameters.
- CodexFile.StatusAfterEnable: files with stray carriage returns inside lines are excluded, because `status` splits them where the editor does not.
- CodexFile.EnableProject: the byte-order mark, path normalisation, `repair_duplicate_project_tables` and atomic replacement are not modelled; lone surrogates are not characters here.
- Jsonl.File.AppendRecord: `fsync` and decoding of lines are not modelled; callers are serialised as the source demands.
- Attention.Fold: JSON decoding of the log's lines comes before the model; a line nested too deeply for the decoder is not part of it.
- Attention.HiddenExactlyWhenHandled: item builders and process-tree wording are not modelled; summary counts of the queue would only add easy members.
- AttentionOrder.AssemblyIgnoresOrder: the summary counts beside the queue are not part of what is compared.
- Capacity.PublishingChangesNothing: parsing provider files, `with_saved_reading` and the bounded-heap search for rollout files are not modelled.
- Tripwire.FindHits: the few characters whose lower-casing has another length are excluded, as are strings below the floor, which the source hashes but never scans.
- Git operations, live and staging checks, hygiene checks and schema tables around the acceptance engine are plumbing and field checks.
- The message store, avatars, budgets, display and process supervision are not modelled.
