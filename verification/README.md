# BrewWarden, modelled and proved

BrewWarden stands in front of `brew install` and `brew upgrade`. It collects the dependency
closure of what was asked for, decides from evidence whether every bottle in it is eligible,
freezes the decision into a plan, and carries the plan out through a launch protocol that
survives the death of the wrapper at any point. This project models those parts and proves
what each promises, and how they fit together:

* whatever metadata the collector accepts, the policy's graph check accepts the plan built from it;
* every command is launched at a moment at which the policy allows the very plan that was frozen, for a
  formula that is eligible at that moment, after the commands for every pending formula it directly
  depends on have succeeded; and whatever plan the policy allows, the scheduler can finish;
* no formula is launched before it is old enough by the frozen plan's own minimum age, unless that plan waives it;
* a collected, allowed and undisturbed plan is executed in full, and reported a success exactly when
  there was room to record it;
* whatever crash interrupts it, two owned Homebrew sessions are never alive together, and a
  session past its startup gate is always on record.

`dafny verify dfyconfig.toml` checks everything.

## How the model is laid out

| modules | part |
|---|---|
| `Graph`, `Names`, `Formulae`, `Domain` | one graph theory for all searches; ordered names; formulae; evidence, artifacts and decisions |
| `PolicyGraph`, `Metadata`, `ImportCycle`, `Discovery`, `BottleTab`, `CollectedPlan` | three depth-first searches, two breadth-first closures, and the step from names to artifacts |
| `Evaluation`, `Eligibility`, `Reasons`, `AgeException`, `Reordering`, `TimeWindow` | the evaluator and what its decision means |
| `Scheduler`, `ScheduleOrder`, `BlockingOrder`, `KeptMiddle`, `InstalledState`, `AfterRun` | the action scheduler, what its order guarantees, what a command changes, and what is recognised afterwards |
| `PreparedPlan`, `Session`, `Application`, `EndToEnd` | content-bound plans, the one-use session, the gates and the classification of an execution; planning and execution joined |
| `LaunchProtocol`, `LaunchSafety`, `LaunchRuns`, `Workspaces`, `NameReuse`, `Recovery`, `RecordFiles` | the launch protocol as a machine over files, locks, wrappers and children; its invariant; its recovery; the file operations as they run |
| `Liveness`, `Watching` | observing whether a process session is still alive, and why the launch protocol may rely on the answer |
| `JsonSchema` | the schema-directed token-stream validator (object and array grammar: sections 4 and 5 of RFC 8259) |
| `Paths`, `Archive`, `ArchiveScan` | cleaned paths and the bottle archive validator |

Code that works by changing things step by step is a method with loops, or a class with fields
and methods; each is proved against a specification that does not mention the steps. Homebrew,
the process table, the clock and the file system are arguments of the model: every answer they
can give is allowed, unless a theorem names the assumption it makes about them.

## What turned out not to hold

Four things a reader might expect are false of the code. Each is stated as such, with a concrete
witness, beside the exact condition under which it does hold.

* **A run whose commands all succeed need not be recognised as done.** The after-state check refuses
  a formula that lists more than 32 kegs, so upgrading one that already has 32 older kegs, each of its own
  version, succeeds and yet does not match (`AfterRun.FullRackIsNotRecognised`). The run is recognised
  exactly when every changed formula had fewer than 32 kegs of other versions
  (`AfterRun.MatchesExactlyWithRoom`).
* **Ordering is not transitive through a kept formula.** Only direct dependencies block: in a plan that
  policy allows, with the middle of a chain already installed, the top runs before the bottom
  (`KeptMiddle.KeptMiddleDoesNotBlock`). One pending action runs before another in every listing of the
  plan's nodes if and only if the other reaches it through pending nodes alone
  (`BlockingOrder.OrderedExactlyByPendingChains`).
* **A live workspace can be removed if a temporary name is drawn again while it is in use.** Workspaces are
  told apart by name alone. `NameReuse.ReusedNameLosesLiveWorkspace` is a complete run in which three
  wrappers draw the same name and one abandons, as its own, the workspace another's session runs in. A live
  session keeps its workspace over a stretch of a run if and only if no wrapper abandons that name during it
  (`Workspaces.KeptExactlyUnlessAbandoned`, step by step `Workspaces.TakenExactlyByAbandoning`); and it
  always does when every draw is of a name not in use at that moment, be it fresh or used and done with
  (`Workspaces.LiveWorkspaceStays`).
* **Tolerant validation is not always strict validation of the known part.** A struct that requires a
  name it has no field for is satisfied by an unknown member
  (`JsonSchema.RequiredUnknownDiffers`); otherwise, and only otherwise, the two agree
  (`JsonSchema.TolerantProjectsToStrict`).

`TimeWindow.StaysAllowedIff` says when a plan once allowed stays allowed; the collector checks that
evidence expires *at most* one hour after observation (internal/adapters/homebrew/collect.go:259), and
for plans whose evidence lasts the full hour `TimeWindow.BuiltPlanStaysAllowed` follows. What that means
for a run is `Session.CertainExactlyIfNothingRunsOut`.

## Model

| member | source | states |
|---|---|---|
| `Graph.ReachesByPath` | internal/domain/decision.go:189-207 | reachability, defined by closed sets so that proofs need no path surgery, is the existence of a path |
| `Graph.SearchMeetsOpen` | internal/domain/decision.go:191-193 | meeting a vertex that is still being visited exhibits a cycle through that vertex |
| `Graph.SearchVerdict` | internal/domain/decision.go:209-216 | after every root was searched, as many vertices are marked as there are keys exactly when the graph is closed, acyclic, without repeated successors, and reached from distinct roots |
| `Graph.RenamingClosure` | internal/adapters/homebrew/collect.go:197-207 | a complete rooted closure stays one when its vertices are renamed injectively, roots and successors alike |
| `PolicyGraph.Visitor.Visit` | internal/domain/decision.go:189-207 | success finishes the artifact and all below it without disturbing the search; failure only happens on an unknown artifact or an unsound graph; the recursion terminates on every input, cyclic ones included |
| `PolicyGraph.IndexAdmissible` | internal/domain/decision.go:174-182 | the indexing loop accepts exactly valid, distinctly named nodes with bounded lists and indexes every one of them |
| `PolicyGraph.VisitTargets` | internal/domain/decision.go:209-215 | all targets visited once means a finished search from them; refusal has a repeated or unknown target or an unsound graph to show |
| `PolicyGraph.ValidGraph` | internal/domain/decision.go:170-217 | true if and only if sizes and artifacts are admissible, names, targets and dependencies distinct, every dependency a node, the graph acyclic and every node reached from a target |
| `PolicyGraph.SoundListsAreBounded` | internal/domain/decision.go:177 | the length bound on dependency lists excludes no otherwise acceptable graph |
| `Reordering.GraphIgnoresOrder` | internal/domain/decision.go:170-217 | permuting targets, nodes or any node's dependencies does not change the verdict on the graph |
| `Evaluation.ScanEvidence` | internal/domain/decision.go:112-129 | the pass over a node's evidence reports exactly its mismatches, failed metadata, checksum and provenance items, and known applicable vulnerabilities, each for its own claim, in order, and groups the rest by claim |
| `Evaluation.CheckClaims` | internal/domain/decision.go:130-140 | the pass over the claims reports each unestablished one once, or waives it when it is the age of a waived artifact |
| `Evaluation.EvaluateNodes` | internal/domain/decision.go:111-141 | every node is judged in full and no finding hides another |
| `Evaluation.Evaluate` | internal/domain/decision.go:79-143 | the evaluator's guards, maps and running maximum compute the decision that OutcomeMeaning, ReasonsMean, WaivedMean and RefusalMeans spell out |
| `Eligibility.ClaimVerdict` | internal/domain/decision.go:147-168 | a claim raises no reason exactly when one current, valid, verified item establishes it, or its age alone is waived |
| `Eligibility.NodeVerdict` | internal/domain/decision.go:111-141 | a node raises no reason exactly when all its evidence is its own and every claim is established by exactly one item |
| `Eligibility.WaiverFaultMeaning` | internal/domain/decision.go:102-109 | no waiver is faulted exactly when all are explained, distinct and inside the plan |
| `Eligibility.OutcomeMeaning` | internal/domain/decision.go:79-143 | Allow if and only if the whole assessment is eligible; Deny if and only if it is admissible and some artifact's own item failed its metadata, checksum or provenance check or verifiedly finds it affected |
| `Eligibility.OutcomeIsDeclared` | internal/domain/decision.go:79-143 | the outcome is the one a declarative three-way definition gives |
| `Eligibility.DenialsAreAlsoHeld` | internal/domain/decision.go:119-140 | every reason to deny comes with a reason to hold for the same artifact and claim |
| `Reasons.ReasonsMean` | internal/domain/decision.go:111-168 | of an admissible assessment a reason is reported, code by code, if and only if what that code stands for is so of the artifact and claim it names |
| `Reasons.WaivedMean` | internal/domain/decision.go:130-140 | an artifact is reported as waived if and only if a waiver names it and its one publication item is too young and nothing else |
| `Reasons.RefusalMeans` | internal/domain/decision.go:79-109 | an assessment that is not admissible is held for exactly one reason, naming the guard that failed and, for a faulty waiver, the first one |
| `Reasons.AllowedNodeHas` | internal/domain/decision.go:147-168 | every node of an allowed plan has for each claim exactly one item, its own, verified, current, and old enough or waived |
| `Reordering.OutcomeIgnoresOrder` | internal/domain/decision.go:79-143 | permuting targets, nodes, dependencies, evidence and waivers never changes the outcome |
| `AgeException.ExceptionRemovesExactlyTooYoung` | internal/domain/decision.go:130-140 | against the same assessment without its exception, a valid exception removes exactly the too-young reasons of waived artifacts and reports exactly those artifacts |
| `TimeWindow.AllowedExactlyInWindow` | internal/domain/decision.go:95-168 | with all else fixed, the times at which Evaluate allows are exactly a half-open interval with computed ends |
| `TimeWindow.StaysAllowedIff` | internal/adapters/homebrew/public_session.go:546-552 | once a recheck passes, all later ones inside the plan's window pass if and only if nothing expires before the plan |
| `TimeWindow.BuiltPlanStaysAllowed` | internal/adapters/homebrew/public_session.go:507-508 | for evidence lasting an hour and a plan of min(now+600, observedAt+3600), once allowed stays allowed until the window closes |
| `Names.BeforeMeans` | internal/adapters/homebrew/metadata.go:116 | one name is before another exactly when it is a proper beginning of it or smaller where they first differ |
| `Formulae.SortedIsUnique` | internal/adapters/homebrew/metadata.go:105-117 | name order determines the list, so neither map iteration nor input order shows through |
| `Metadata.CheckDependencies` | internal/adapters/homebrew/metadata.go:55-61 | dependency names pass exactly when all are valid and none repeats |
| `Metadata.IndexInventory` | internal/adapters/homebrew/metadata.go:44-63 | the inventory loop accepts exactly valid inventories and indexes every formula |
| `Metadata.ClosureVisitor.Visit` | internal/adapters/homebrew/metadata.go:69-87 | the closure search finishes what it accepts and everything below it; refusal means a missing name or a cycle |
| `Metadata.VisitTargets` | internal/adapters/homebrew/metadata.go:88-100 | all targets searched once, or a repeated target or an unsearchable graph |
| `Metadata.SortedCandidates` | internal/adapters/homebrew/metadata.go:105-117 | exactly all formulae, sorted by name, when every bottle is supported, whatever order the map yields them in |
| `Metadata.CheckBottle` | internal/adapters/homebrew/metadata.go:108-113 | a bottle is supported exactly when its artifact is valid, its tag and cellar are among the known ones, and its URL is the registry's for its name and digest |
| `Metadata.ParseMetadata` | internal/adapters/homebrew/metadata.go:39-118 | accepts if and only if the document is a supported, complete, acyclic closure of distinct targets with nothing to spare, and returns its formulae sorted |
| `CollectedPlan.CandidateDependencies` | internal/adapters/homebrew/collect.go:197-207 | the nested loops list, for each dependency name in order, the candidates of that name |
| `CollectedPlan.AssembleNodes` | internal/adapters/homebrew/collect.go:171-195 | one node per candidate, with the candidate's name, version, revision, rebuild, tag and digest on the one platform, resolved dependencies and evidence |
| `CollectedPlan.PlanTargets` | internal/adapters/homebrew/public_session.go:510-516 | the target lookup lists the artifacts of the named nodes in request order |
| `CollectedPlan.AssembledIsRenaming` | internal/adapters/homebrew/collect.go:197-207 | the artifact graph of the assembled nodes is the name graph with names resolved to artifacts |
| `CollectedPlan.CollectedPlanIsWellFormed` | internal/adapters/homebrew/metadata.go:65-118 | every document and target list parseMetadata accepts yields nodes and targets that validGraph accepts |
| `Discovery.ParseInfo` | internal/adapters/homebrew/info.go:45-81 | accepts if and only if the answer names exactly the formulae asked about, each once, with official identity; each result copies its answer, with the platform bottle if there is one, else the one for all, else none |
| `Discovery.NewNames` | internal/adapters/homebrew/info.go:94-103 | the unseen names of the queue, each once; refused exactly when some name is invalid |
| `Discovery.AskBatch` | internal/adapters/homebrew/info.go:110-138 | one query moves the frontier: what was waiting is found and only its dependencies wait; a faithful answer cannot be refused |
| `Discovery.Discover` | internal/adapters/homebrew/info.go:83-140 | success is exactly the names reached from the targets, sorted, each queried once; with a faithful Homebrew success is certain within the bound of 128, and the names are exactly what the targets reach by the dependencies on its own record |
| `Discovery.CopiesReachAlike` | internal/adapters/homebrew/info.go:135-138 | a closure of faithful copies is the closure in the registry itself |
| `Discovery.DiscoveredIsLeast` | internal/adapters/homebrew/info.go:93-139 | the result is contained in every set of names that has the targets and is closed under dependencies |
| `Discovery.DiscoveredIsComplete` | internal/adapters/homebrew/metadata.go:101-103 | nothing needed is missing and nothing unneeded is present |
| `Discovery.ParseOfDiscovered` | internal/adapters/homebrew/metadata.go:65-103 | on a discovered closure the parser's search fails only for a cycle |
| `Discovery.DiscoverAndParse` | internal/adapters/homebrew/metadata.go:88-103 | a faithful Homebrew gets an answer, the registry's own closure; a parse of what was discovered returns exactly that, and refuses it if and only if a formula or bottle is invalid, a target repeats or there is a cycle, never as unrequested or empty, and as incomplete or cyclic only when there is a cycle |
| `BottleTab.SelectedTab` | internal/adapters/homebrew/bottle_metadata.go:48-68 | returns a tab if and only if exactly one manifest has the digest and reference and it has a tab, and then that tab |
| `BottleTab.TransitiveDependencies` | internal/adapters/homebrew/bottle_metadata.go:83-97 | the worklist ends with exactly the names reached from the direct dependencies, or reports that one is unknown or the candidate itself |
| `BottleTab.CheckRecorded` | internal/adapters/homebrew/bottle_metadata.go:98-113 | the recorded list passes exactly when it is duplicate-free and lies between the direct and the transitive dependencies |
| `BottleTab.ValidateTab` | internal/adapters/homebrew/bottle_metadata.go:70-114 | accepts if and only if the tab reconciles with the closure; an invalid closure is only reported when there is none |
| `BottleTab.AcceptedClosureIsWithin` | internal/adapters/homebrew/bottle_metadata.go:91-94 | on candidates parseMetadata accepted, the invalid-closure error cannot happen |
| `ImportCycle.ImportVisitor.Visit` | tools/repo-check/architecture.go:230-245 | a directory without an entry is a leaf; success finishes it, an error names a directory on a cycle |
| `ImportCycle.DetectImportCycle` | tools/repo-check/architecture.go:223-257 | no error if and only if the import graph is acyclic; the directory named otherwise lies on a cycle |
| `ImportCycle.SameVerdictInAnyOrder` | tools/repo-check/architecture.go:246-256 | whether there is an error does not depend on the order the roots are visited in |
| `Scheduler.PendingActions` | internal/adapters/homebrew/public_session.go:577-589 | the pending map holds exactly the actions other than keep; the requested installs are the targets to install |
| `Scheduler.NextReadyAction` | internal/adapters/homebrew/public_session.go:634-651 | the scan computes the choice described by FirstReadyMeans |
| `Scheduler.FirstReadyMeans` | internal/adapters/homebrew/public_session.go:634-651 | the choice is the first node in plan order that is pending with no pending direct dependency, and nothing only when there is none |
| `Scheduler.ExecutionAllowed` | internal/adapters/homebrew/public_session.go:546-552 | a recheck passes exactly inside the plan's window and when Evaluate allows at that time |
| `Scheduler.CheckLaunch` | internal/adapters/homebrew/public_session.go:597-603 | a command may be launched exactly when policy allows now and the runtime is the reviewed one; the refusal says which failed |
| `Scheduler.RunPendingActions` | internal/adapters/homebrew/public_session.go:591-616 | what is launched is a prefix of a schedule fixed by node order alone, each command after all before it succeeded and at a time at which the evaluator allows the assessment; the run completes exactly when the schedule covers everything pending and every step goes well, and is stopped exactly by a command that did not end well; each other ending names what refused the next |
| `Scheduler.ScheduleCarriesOut` | internal/adapters/homebrew/public_session.go:604-608 | each launch carries out a pending action with its own operation, as a dependency exactly when it is an install that no target asks for |
| `ScheduleOrder.SomethingIsReady` | internal/adapters/homebrew/public_session.go:634-651 | in an acyclic closed graph with something pending, some pending node is not blocked |
| `ScheduleOrder.ScheduleEnumerates` | internal/adapters/homebrew/public_session.go:591-616 | the schedule of an acyclic plan lists every pending action exactly once |
| `ScheduleOrder.ScheduleIsOrdered` | internal/adapters/homebrew/public_session.go:634-651 | every pending direct dependency comes before what depends on it |
| `ScheduleOrder.AllowedPlanIsScheduled` | internal/adapters/homebrew/session.go:77-82 | a plan policy can allow, with actions matching its nodes, is never reported cyclic: all pending actions, once each, direct dependencies first |
| `BlockingOrder.ChainRunsFirst` | internal/adapters/homebrew/public_session.go:634-651 | whatever a pending node reaches through pending nodes runs before it |
| `BlockingOrder.OrderedExactlyByPendingChains` | internal/adapters/homebrew/public_session.go:634-651 | in a well-formed plan one pending action precedes another under every order of the nodes if and only if such a chain exists |
| `KeptMiddle.KeptMiddleDoesNotBlock` | internal/adapters/homebrew/public_session.go:642-645 | a plan policy allows in which a kept node in the middle passes no blocking on: the dependent runs before the transitive dependency |
| `InstalledState.InstalledAction` | internal/adapters/homebrew/public_session.go:307-346 | keep exactly when the planned keg is active with supported receipts and marked as asked for where asked; install exactly when nothing is installed and no upgrade asked, or only that mark is missing; upgrade exactly when another supported version is active and outdated; none otherwise |
| `InstalledState.DecimalReads` | internal/adapters/homebrew/inputs.go:14-19 | the revision in a keg's name reads back as the revision |
| `InstalledState.KegMeans` | internal/adapters/homebrew/inputs.go:14-19 | a keg is its version, followed by an underscore and the revision exactly when there is one |
| `InstalledState.PublicActions` | internal/adapters/homebrew/public_session.go:275-305 | one action per node in order, each the one the observed state of its formula calls for; none exactly when a state is missing, repeated, pinned, crowded or partly linked, or calls for repair by hand |
| `InstalledState.ActionsForMeans` | internal/adapters/homebrew/public_session.go:286-304 | there are actions exactly when every node has one, and they are those |
| `InstalledState.RunEffect` | internal/adapters/homebrew/public_session.go:604-613 | after any number of launches a formula has changed exactly if it was launched, and then as planned |
| `AfterRun.PendingMeans` | internal/adapters/homebrew/public_session.go:584-586 | under a plan's own naming an action is pending, under its name and unchanged, exactly when it is not a keep |
| `AfterRun.RequestedMeans` | internal/adapters/homebrew/public_session.go:581-583 | a name is a requested install exactly when some action installs it and some target bears it |
| `AfterRun.VerifyAfterState` | internal/adapters/homebrew/public_session.go:618-626 | a match exactly when for every node the planned keg is observed active, in order, linked, unpinned, and marked as asked for where this run installed it on request; no verdict exactly when some state cannot be worked with |
| `AfterRun.SettledNeedsNothing` | internal/adapters/homebrew/public_session.go:307-346 | a formula whose command took effect needs nothing more, and can be inspected exactly when it has few enough kegs |
| `AfterRun.MatchesExactlyWithRoom` | internal/adapters/homebrew/public_session.go:292-294 | a run that carried everything out is recognised if and only if each changed formula had room for one more keg |
| `AfterRun.FullRackIsNotRecognised` | internal/adapters/homebrew/public_session.go:292-294 | an upgrade over a rack of 32 older kegs, one per version, that is acceptable beforehand, takes effect, and is not recognised |
| `AfterRun.NothingToDo` | internal/adapters/homebrew/public_session.go:618-626 | a plan that keeps everything launches nothing and the unchanged state matches |
| `PreparedPlan.BuildInventory` | internal/adapters/homebrew/session.go:70-76 | the inventory is built exactly from safe, valid, distinct paths, and maps each to its digest |
| `PreparedPlan.CheckEvidence` | internal/adapters/homebrew/session.go:83-90 | evidence passes exactly when each item is valid and its observation is among the frozen inputs |
| `PreparedPlan.Prepare` | internal/adapters/homebrew/session.go:52-119 | a plan is prepared if and only if every part of it is valid, spelled out; the assessment has the plan's own minimum age, targets, nodes, waivers, before-state and expiry, and a binding to all of it |
| `PreparedPlan.ReadPrepared` | internal/adapters/homebrew/session.go:172-195 | the loop over the files succeeds exactly when the plan, each input and the before-state still have their digests, and returns what Prepare makes of the plan |
| `PreparedPlan.ReadingIsOriginal` | internal/adapters/homebrew/session.go:172-195 | under an injective digest nothing but the plan can be read under its identity, and it can be read if and only if it is valid and everything it names is as it was frozen |
| `PreparedPlan.RereadIsOriginal` | internal/adapters/homebrew/session.go:172-195 | a successful re-read returns the plan that was prepared, with every input and the before-state byte for byte as they were |
| `PreparedPlan.BindingDeterminesPlan` | internal/adapters/homebrew/session.go:92-107 | equal bindings mean equal plans: targets, nodes, waivers and actions |
| `Session.PublicSession.Revalidate` | internal/adapters/homebrew/public_session.go:531-544 | nothing once consumed; otherwise the plan of this identity recomputed from the files, exactly if they can be read and the installation observed is the one the plan was made for |
| `Session.PublicSession.VerifyAfter` | internal/adapters/homebrew/public_session.go:618-626 | the verdict on the observed after-state; an error exactly when the state is missing or cannot be judged, a match exactly when every node needs nothing more |
| `Session.PublicSession.Run` | internal/adapters/homebrew/public_session.go:554-575 | a refusal launches nothing; otherwise the session is consumed first, and a prefix of the schedule is launched, each command after all before it succeeded and at a time at which policy allows the recomputed assessment, which in a genuine session is the plan's own; completed exactly when everything goes well |
| `Session.PublicSession.Proceed` | internal/adapters/homebrew/public_session.go:565-574 | policy is asked once more before anything; then the recomputed plan is held and carried out, no command starting unless all before it succeeded |
| `Session.PublicSession.Carry` | internal/adapters/homebrew/public_session.go:570-574 | the pending actions are carried out in schedule order, each permitted at its own moment and only after all before it succeeded; the outcome is reported as it was, cyclic only when the schedule falls short |
| `Session.PermittedRunIsUnderPolicy` | internal/adapters/homebrew/public_session.go:591-616 | a plan's own permitted launches are each of a node of the plan that is eligible at that moment, after the commands for its pending direct dependencies succeeded |
| `Session.CertainExactlyIfNothingRunsOut` | internal/adapters/homebrew/public_session.go:546-616 | once a plan is permitted, its run goes through in every world of timely successful commands if and only if nothing is pending or no evidence or exception expires before the plan |
| `Session.BuiltPlanRunsSmoothly` | internal/adapters/homebrew/public_session.go:507-508 | so a plan built as the collector builds it, once permitted, is carried out to the end by commands that succeed in time |
| `Session.OpenSession` | internal/adapters/homebrew/public_session.go:517-528 | a session is opened exactly on a valid plan and holds that plan under its own digest |
| `Session.PublicSession.Close` | internal/adapters/homebrew/public_session.go:719-733 | the session is consumed and unlocked; an error only when there was something to release and it failed |
| `Application.CheckGates` | internal/application/execute.go:43-63 | the gates pass exactly when policy, binding, before-state and exception are unchanged, the plan is in date without a longer window, its exception is identified, and policy allows now |
| `Application.Attempt` | internal/application/execute.go:36-73 | nothing is launched unless every gate passed and the run may start, no command unless all before it succeeded, and in a genuine session only under policy; success needs a verified after-state; failure or partial change is reported exactly of a last command that failed with a known nonzero exit and an observed state, by that state |
| `Application.ClassificationMeans` | internal/application/execute.go:76-90 | what each outcome says of the run it classifies: success, failure, partial change or unknown |
| `Application.Execute` | internal/application/execute.go:23-74 | always ends closed; no command is launched unless all before it succeeded, and in a genuine session each under policy at its time; with commands whose errors are reported, success if and only if the gates pass, the run goes through, the after-state is verified and the release succeeds |
| `Application.UseSession` | internal/adapters/homebrew/public_session.go:531-575 | over any sequence of Revalidate, Run and Close calls at most one launches anything, and none after a close; in a genuine session every launch is under policy at its own time |
| `EndToEnd.CollectedPlanIsScheduled` | internal/adapters/homebrew/public_session.go:440-528 | a plan built from an accepted collection is well formed and its schedule covers every pending action in order |
| `EndToEnd.AllowedPlanGoesThrough` | internal/application/execute.go:39-66 | an undisturbed plan with evidence that lasts, allowed at the start, passes every gate and recheck, and its run goes through |
| `EndToEnd.CollectedPlanIsVerified` | internal/adapters/homebrew/public_session.go:618-626 | what the run of a collected plan leaves behind is verified if and only if there was room to record it |
| `EndToEnd.PlanAndExecute` | internal/application/service.go:20-41 | for every plan and whatever surrounds it: nothing is launched unless the plan is valid and was read twice as written over an unchanged installation; every launch is inside the plan's window, of an eligible node whose pending dependencies were changed successfully before, published at least the plan's minimum age ago unless the plan waives it; failure and partial change are told exactly; and success is reported exactly when gates, run, verification and release all succeed |
| `EndToEnd.LaunchesAreOldEnough` | internal/domain/decision.go:160-166 | what is launched under policy has one attested publication item at least the plan's own minimum age old, unless a waiver of the plan names it |
| `EndToEnd.LaunchNeeds` | internal/application/execute.go:39-66 | what must have been read and found eligible, twice, before anything is launched |
| `EndToEnd.ExecuteCollected` | internal/application/execute.go:23-74 | a collected, allowed and undisturbed plan is launched in full, and its outcome is success if there was room to record it and unknown otherwise |
| `LaunchSafety.StepKeeps` | internal/adapters/homebrew/public_session.go:653-733 | every event of wrappers, children, crashes and file operations keeps the protocol's invariant |
| `LaunchRuns.MutualExclusion` | internal/adapters/homebrew/public_session.go:653-717 | in every state of every run at most one owned session is alive |
| `LaunchRuns.RecordBeforeRun` | internal/adapters/homebrew/inflight.go:80-104 | whatever is past the gate is named, with its workspace, by a whole committed record, and no pending record stands beside it |
| `LaunchRuns.RecordsNeverCoexist` | internal/adapters/homebrew/inflight.go:53-104 | the committed record is never torn and never stands beside a pending one |
| `LaunchRuns.RecordChangesOnlyWhenIdle` | internal/adapters/homebrew/inflight.go:53-138 | a step that writes or removes the committed record finds nothing past the gate |
| `LaunchRuns.RecordUntilEmpty` | internal/adapters/homebrew/inflight.go:124-138 | while a session past the gate lives, over any stretch of a run, its record is not touched |
| `LaunchRuns.OrphanNeverStarts` | internal/adapters/homebrew/public_session.go:662-669 | a child left at a closed gate by a dead wrapper never passes it, over any stretch of any run |
| `Workspaces.StepKeepsWorkspaces` | internal/adapters/homebrew/inflight.go:106-122 | while only names not in use are drawn, every step keeps workspaces distinct and the ones in use whole |
| `Workspaces.TakenExactlyByAbandoning` | internal/adapters/homebrew/inflight.go:106-122 | a step takes the workspace of a live session away if and only if a wrapper that gave up removes, as its own, the workspace of that name |
| `Workspaces.KeptExactlyUnlessAbandoned` | internal/adapters/homebrew/collect.go:68-76 | over any stretch of any run a live session keeps its workspace throughout if and only if nobody abandons that name |
| `Workspaces.LiveWorkspaceStays` | internal/adapters/homebrew/inflight.go:106-122 | in every state of a run that draws only names not in use, names whose earlier use is over included, the workspace of a live session is whole |
| `NameReuse.ReusedNameLosesLiveWorkspace` | internal/adapters/homebrew/collect.go:68-76 | a run from the initial state in one step of which, a name having been drawn again, a wrapper abandons the workspace of another's live session |
| `Recovery.InterruptedClearing` | internal/adapters/homebrew/inflight.go:53-78 | any number of clearing passes, failing or killed between any two steps, leave the outcome of clearing as it was |
| `Recovery.InterruptedRecovery` | internal/adapters/homebrew/inflight.go:53-78 | whatever clearing was tried before, the next wrapper left alone removes both records and the recorded workspace, and nothing else |
| `Recovery.TornHoldsForever` | internal/adapters/homebrew/inflight.go:34-47 | a torn pending record whose writer is gone is never removed and no session ever starts beside it, whichever wrappers are alive and whatever they do |
| `RecordFiles.OperationDirectory.ReadInFlight` | internal/adapters/homebrew/inflight.go:34-47 | missing, whole and unreadable records are told apart |
| `RecordFiles.OperationDirectory.RemoveCollection` | internal/adapters/homebrew/inflight.go:106-122 | the workspace is gone, partly gone or untouched as the removal turned out; a missing one is a success |
| `RecordFiles.OperationDirectory.ClearStopped` | internal/adapters/homebrew/inflight.go:53-78 | the loop over both files leaves the files and the verdict that the lemmas on ClearedAll describe, however its file operations turn out |
| `RecordFiles.OperationDirectory.SaveInFlight` | internal/adapters/homebrew/inflight.go:80-104 | the files and the verdict that SavingIsExclusive describes, however writing and renaming turn out |
| `RecordFiles.OperationDirectory.FinishInFlight` | internal/adapters/homebrew/inflight.go:124-138 | the record goes exactly when it is the expected one, its session is not seen and the removal goes through |
| `RecordFiles.ClearingDone` | internal/adapters/homebrew/inflight.go:53-78 | a pass that succeeds leaves no record and no recorded workspace, and touches nothing else |
| `RecordFiles.ClearingSucceedsIff` | internal/adapters/homebrew/inflight.go:53-78 | without faults a pass succeeds if and only if nothing is torn and no recorded session is still seen |
| `RecordFiles.ClearingRepeats` | internal/adapters/homebrew/inflight.go:53-78 | a pass that succeeds after one that stopped anywhere ends where an undisturbed pass would |
| `RecordFiles.SavingIsExclusive` | internal/adapters/homebrew/inflight.go:80-104 | saving never replaces a record, succeeds if and only if the session number is usable, nothing is on file and both operations go through, and then leaves the new record alone on file |
| `RecordFiles.ClearStoppedRefines` | internal/adapters/homebrew/inflight.go:53-78 | a clearing pass, faults included, is a stretch of steps of the launch protocol |
| `RecordFiles.SaveInFlightRefines` | internal/adapters/homebrew/inflight.go:80-104 | so is a save, ending with a committed record or a child about to be killed |
| `RecordFiles.FinishInFlightRefines` | internal/adapters/homebrew/inflight.go:124-138 | and so is a finish, ending ready for the next command or closing |
| `Liveness.SessionInProcesses` | internal/adapters/homebrew/process_liveness.go:42-64 | inactive exactly when every listed process is the observer, gone, or of another session; active exactly when a member is met before anything that cannot be read; and whether any process had vanished by then |
| `Liveness.ProcessSessionActive` | internal/adapters/homebrew/process_liveness.go:16-40 | inactive if and only if some attempt was clean after attempts that only saw processes vanish; active if and only if one met a member likewise |
| `Liveness.CleanMeansEmpty` | internal/adapters/homebrew/process_liveness.go:42-64 | with an atomic listing, no identity reused and members forking only inside the session, a clean attempt means the session was empty at the listing and stays empty |
| `Liveness.InactiveMeansEmpty` | internal/adapters/homebrew/process_liveness.go:13-40 | so the answer "not active" is right when it is given |
| `Liveness.ActiveMeansAlive` | internal/adapters/homebrew/process_liveness.go:59-61 | a hit is a member that was alive when asked about |
| `Liveness.ListingMustBeAtomic` | internal/adapters/homebrew/process_liveness.go:20-27 | a listing taken process by process can miss a live member |
| `Liveness.IdentitiesMustNotReturn` | internal/adapters/homebrew/process_liveness.go:51-55 | a reused identity can hide a member whose child lives on |
| `Watching.WatchedIsTimeline` | internal/adapters/homebrew/inflight.go:53-78 | over any stretch of a run in which the lock holder watches a session, every step of every wrapper and child is one the observation allows for: the session is never started anew |
| `Watching.OverExactlyWhenEmpty` | internal/adapters/homebrew/inflight.go:124-138 | in a watched state the session is over, and the step guarded by that open to the watcher, if and only if the process table has no member of it |
| `Watching.AskWatched` | internal/adapters/homebrew/process_liveness.go:13-40 | when the observation code, run meanwhile, answers that the watched session is not active, the guarded step can be taken |
| `JsonSchema.ParsedIsEncoded` | internal/adapters/homebrew/json.go:109-113 | what the decoder takes as one value is the encoding of a tree |
| `JsonSchema.EncodedIsParsed` | internal/adapters/homebrew/json.go:109-113 | a tree's tokens, whatever follows, are taken as that tree |
| `JsonSchema.EncodingIsPrefixFree` | internal/adapters/homebrew/json.go:33-40 | no token sequence stands for two trees |
| `JsonSchema.ValueAgrees` | internal/adapters/homebrew/json.go:58-84 | validating the stream is reading the tree and checking it: same verdict, same rest |
| `JsonSchema.AcceptsExactlyConforming` | internal/adapters/homebrew/json.go:58-162 | accepted, leaving a given rest, if and only if a conforming tree is encoded in front of that rest |
| `JsonSchema.DocumentIsOneTree` | internal/adapters/homebrew/json.go:35-40 | a document is valid if and only if it is exactly one conforming tree |
| `JsonSchema.TolerantProjectsToStrict` | internal/adapters/homebrew/json.go:97-118 | of a tree tolerant mode accepts, strict mode accepts the part with unknown fields removed if and only if every required name is a known field |
| `JsonSchema.SelectableIsKnown` | internal/adapters/homebrew/json.go:131-146 | a schema whose required names are its fields meets that condition on every tree |
| `JsonSchema.RequiredUnknownDiffers` | internal/adapters/homebrew/json.go:140-143 | a schema and a tree for which the condition fails, and the two modes differ |
| `JsonSchema.StrictIsTolerant` | internal/adapters/homebrew/json.go:97-118 | what strict mode accepts tolerant mode accepts, and there is nothing to remove |
| `JsonSchema.Decoder.ValidateValue` | internal/adapters/homebrew/json.go:58-84 | the cursor ends just past the value exactly when the value is valid |
| `JsonSchema.Decoder.ValidateObject` | internal/adapters/homebrew/json.go:86-129 | the loop over the fields accepts exactly valid objects and ends past the closing brace |
| `JsonSchema.Decoder.ValidateArray` | internal/adapters/homebrew/json.go:148-162 | the loop over the items accepts exactly valid arrays and ends past the closing bracket |
| `JsonSchema.DecodeSchema` | internal/adapters/homebrew/json.go:25-40 | accepts if and only if the tokens are those of one conforming tree |
| `JsonSchema.EqualFoldMeans` | internal/adapters/homebrew/json.go:103-108 | folding makes two names equal exactly when they differ at most in the case of their letters, the long s and the Kelvin sign included |
| `Paths.CleanIsPlain` | internal/adapters/homebrew/runtime.go:305-315 | a path is relative, clean and does not climb exactly when no component is empty, "." or ".." |
| `Paths.InsideMeans` | internal/adapters/homebrew/archive.go:37 | being a directory or having it and a slash in front is having its components in front |
| `Paths.DirOfPlain` | internal/adapters/homebrew/archive.go:82 | the parent of a plain path is the path without its last component |
| `Paths.TargetMeans` | internal/adapters/homebrew/archive.go:69-70 | the cleaned, joined text of a link lies inside the keg exactly when walking the link's components from its directory does |
| `Paths.DownAndUpCancels` | internal/adapters/homebrew/archive.go:69-70 | in cleaning, going into a directory and back out cancels, anywhere in a path |
| `Paths.ClimbAndDescend` | internal/adapters/homebrew/archive.go:69-70 | climbing n times and then going down a plain way takes back n components, or climbs out by what is left over, and then goes down |
| `Paths.LeadsInside` | internal/adapters/homebrew/archive.go:69-73 | such a way leads into a directory if and only if it does not climb out of it or names the way back |
| `Paths.EveryWayClimbsAndDescends` | internal/adapters/homebrew/archive.go:69-70 | every relative way amounts to one of that form |
| `Archive.EntryMeans` | internal/adapters/homebrew/archive.go:35-76 | the checks on the text of an entry are exactly the conditions on its components, mode and size |
| `Archive.LinkStaysExactly` | internal/adapters/homebrew/archive.go:69-73 | by its text a link that climbs n times is accepted if and only if it stays at or below the keg, or names the way back into it |
| `Archive.PartsMean` | internal/adapters/homebrew/archive.go:34 | an entry has the components its name spells, with or without a slash behind |
| `Archive.PayloadAdds` | internal/adapters/homebrew/archive.go:60-67 | the payload bounded is the sum of the sizes of the regular files |
| `Archive.ValidNamesArePlain` | internal/adapters/homebrew/archive.go:24 | the keg of a valid name and version is two plain components |
| `ArchiveScan.ScanEntries` | internal/adapters/homebrew/archive.go:25-77 | the pass succeeds if and only if the entries are few, distinct, each allowed, and their payload bounded, and tabulates them |
| `ArchiveScan.WalkUp` | internal/adapters/homebrew/archive.go:82-86 | the walk ends for every accepted path and passes exactly when every archived ancestor is a directory |
| `ArchiveScan.ValidateBottleArchive` | internal/adapters/homebrew/archive.go:17-94 | accepts if and only if the archive is whole and acceptable: everything inside the keg, nothing below a non-directory, shared files only under etc and var, at most 2 GiB; and then the cleaned text of every name and of every link's target is the keg or a path below it, and a link that climbs stays at or below the keg or names the way back into it |
| `ArchiveScan.OrderDoesNotMatter` | internal/adapters/homebrew/archive.go:25-87 | acceptance does not depend on the order of the entries |

## Left out

- Advisory parsing and combination (internal/adapters/homebrew/advisories.go, internal/adapters/homebrew/vulns.go): single-pass uniqueness and membership checks that would only add easy members; their verdict reaches the model as the applicability of an evidence item.
- Subprocesses, sandbox profiles, HTTP, gzip and tar decoding, symlink and inode checks, installed-receipt files: effects outside the code; only their answers are modelled, as parameters.
- Power loss and fsync ordering: only the death of processes is modelled. A write or rename that returned is visible; a failed directory sync is an error of the operation, not a loss.
- SHA-256, attestation cryptography and serialization: an injective digest and encoders that decode back.
- JSON lexing and the typed decode after validation: the model starts from tokens, with a token for the point where the text stops being JSON. The library's own nesting limit for skipped values and the size and UTF-8 checks are not modelled.
- Case folding beyond what can meet an ASCII field name: every field name in the repository is ASCII, and for those the folding is exact.
- CLI, doctor, configuration, composition, distribution packing and the other JSON validators: plumbing, or near copies of what is modelled.
- Integer width: times, sizes and counters are unbounded. The collector's clock is at most 1<<62 (internal/adapters/homebrew/collect.go:50), publication times are positive and not after the observation, and payload sums stop at 2 GiB, so no sum or difference the model makes reaches 64 bits.
- Error texts: reasons of Evaluate are an enumeration in the source's order; other errors are collapsed unless a theorem tells them apart.
- Physical symbolic links: containment is the lexical one the code computes.
- Identities of wrappers and attempts: a wrapper identity, which stands for its 32-byte random nonce, is not drawn twice. Session numbers may be used again.
- SIGKILL of a child still waiting at its gate takes effect before the wrapper goes on (internal/adapters/homebrew/public_session.go:687-688).
- LaunchProtocol: observing a session is one step that answers inactive only if the session is empty at that moment; `Watching.AskWatched` says under which assumptions on the process table (an atomic listing, no identity reused, nobody joining or leaving the session except by birth or exit) the observation code earns that.
- Session.PublicSession.Run: runPendingActions returns a command result that is not a success without an error if the operating system reports none, and the program then goes on to the after-state; the model keeps this, and Application.Execute states its equivalence for commands whose failures are reported.
- EndToEnd.PlanAndExecute: presenting the plan to the user between planning and execution (internal/application/service.go:34-39) is not modelled; the plan and everything around it are arbitrary.
- Session.PublicSession.Close: whether the release succeeded is a parameter there; what a release does to the files is in RecordFiles and LaunchProtocol.
- PolicyGraph and Evaluation results say what the evaluator does with evidence, not that the evidence is true.
- Domain.ValidAgeReason: ASCII only; the program also admits printable characters beyond ASCII.
