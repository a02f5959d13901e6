# Flowbaton verification model

A Dafny 4.11 model of seven parts of Flowbaton, with proofs of what they promise. To verify it, use
`dafny verify dfyconfig.toml`. Loops and objects of the program are methods and classes here, each proved against a
specification function or predicate; what the program promises is then proved about that specification.

1. **Preflight to compile order** (`FlowModel`, `Registry`, `Inspection`, `FlowGraphs`, `RecordingLoader`,
   `DepthFirst`, `Preflight`, `PreflightTheorems`, `FailClosed`, `Rejections`, `Programs`, `Compilation`, `Compiler`,
   `PlanCounterexamples`). The capability check searches the flow files below the selected roots depth first;
   preparing a program freezes its report; compiling orders the flows by Kahn's algorithm and resolves links through
   the recorded aliases. End to end: once preflight accepts, the compiler's internal errors cannot occur, every
   command that links a flow carries the one preflight followed, and everything a run can get to is supported; a
   rejection names the first thing that is not, at the place it is written. The source loader may answer differently
   on every call; the memo is what makes its answers fixed.
2. **Terminal errors and root failures** (`TerminalErrors`, `ErrorTheorems`, `ErrorVerdicts`, `RootFailures`,
   `FlowLifecycle`, `FlowTheorems`, `RootLoop`). Error values are nodes of a heap, so typed nils, panicking methods,
   shared nodes and cycles are plain data. The classifier is characterised by the paths of the graph, and the lifecycle by
   which phases run and which error surfaces, for any answers of the environment.
3. **The driver asset cache** (`AssetTrees`, `AssetExtraction`, `AssetCache`, `CacheTheorems`, `AssetStore`,
   `AssetCleanup`). Any number of processes acquire and clean up, may stop at any step, and are coordinated only by a lock
   per asset. Safety is proved over every run of the transition system; `Acquire` and `Cleanup` as one process runs them are
   methods, and each is shown to be a path of that system.
4. **The scroll course** (`ScrollCourse`, `ScrollTheorems`), 5. **the WebView merge** (`HierarchyBounds`, `WebViewMerge`,
   `WebViewTheorems`), 6. **chat turns** (`ChatTurns`, `ChatTheorems`), 7. **shards and driver ports** (`Shards`).

`Wrappers`, `Sequences` and `Arithmetic` hold shared vocabulary.

## Where the code falls short of its promise

Each point is a theorem with the exact condition under which the promise does hold, and an input that shows it fails.

- A flow with a `url` is not inspected further once the `url` extension itself is supported, so its commands may use
  unsupported features: `Inspection.InspectionGuardsExactlyWithoutURL`.
- A resolved link path of white space only is asked about by preflight and skipped by the resolver, which may then follow
  the link's other path: `Programs.FaithfulExactlyWhen`, and a prepared program that misresolves in
  `PlanCounterexamples.WhiteSpaceLinkMisresolves`. Such links need another source than the file parser and file loader.
- A loader that answers with a blank canonical path is accepted by preflight and refused by the compiler:
  `Compiler.PreparedIsWellFormed`, `PlanCounterexamples.BlankPathIsRefused`. It takes a loader other than the file loader.
- Normalising a plain failure that is already as deep as the traversal looks makes it malformed, so a second normalisation
  changes it: `ErrorTheorems.NormalizeIsIdempotentUnlessTooDeep`, `ErrorTheorems.DeepChainIsNormalizedTwice`.
- A scroll course with an authored speed below the minimum step exceeds that speed when it reverses, and overshoots the
  stretch it searches: `ScrollCourse.AmountsStayWithinSpeed`, `ScrollTheorems.SearchStaysBetween`.
- A target that fits the viewport with less room than the shortest scroll can swing to and fro for ever:
  `ScrollTheorems.ArrivesExactlyWithRoom`.
- An assistant reply with both text and an image still has a message of two parts after splitting:
  `ChatTheorems.SplitTurnsAreSingleExactlyWhen`, `ChatTheorems.IllustratedReplyKeepsTwoParts`.
- A page element can overhang its parent by one pixel after truncation: `WebViewTheorems.ChildrenStayInsideExactlyWhen`,
  `WebViewTheorems.ChildCanOverhang`.
- A manifest that leaves no room - it declares one file below another, a file in the marker's place, or a file below the
  marker's place - passes validation, and no run ever acquires it: `CacheTheorems.SuccessNeedsRoom`. With room, and with an
  archive that holds what it should, every acquisition in which nothing fails succeeds: `AssetStore.Store.Acquire` states
  both directions. Inputs: `AssetExtraction.NestedManifestIsRefused`, `AssetExtraction.MarkerManifestNeverVerifies`,
  `AssetExtraction.BuriedMarkerIsNeverWritten`.
- What an interrupted removal leaves of a stale asset is removed by a later cleanup exactly when the marker is still among
  it: `AssetCleanup.SecondCleanupFinishesTheMarked`.

## Model

| member | source | states |
|---|---|---|
| Registry.Validate | internal/capability/registry.go:103-128 | Reports an error exactly when the catalog is not valid: unknown schema, incoherent entry, repeated key, or keys other than the required ones; the error names what is wrong with which key. |
| Registry.ValidateEntry | internal/capability/registry.go:130-168 | Refuses exactly the entries that are not coherent. |
| Registry.RefusedExactlyWhenUnsupported | internal/capability/checker.go:498-530 | On a valid catalog a feature is refused if and only if no entry for it is runnable on the selected platform, by the platform's name or for all hosts; the code tells whether another platform has it. |
| Inspection.CollectLinks | internal/capability/checker.go:269-289 | The explicit stack yields the links of all commands in preorder. |
| Inspection.AddressedLinkIsCollected | internal/capability/checker.go:269-289 | No link of any nested command is missed. |
| Inspection.InspectSelector | internal/capability/checker.go:467-496 | The explicit stack reports the first violation of the recursive preorder over a selector and its sub-selectors. |
| Inspection.InspectCondition | internal/capability/checker.go:452-465 | Reports what the condition's own requirements and its selectors violate, in that order. |
| Inspection.InspectFlow | internal/capability/checker.go:291-346 | The explicit stack reports the first violation of the recursive preorder specification, skipping subtrees conditioned on another platform. |
| Inspection.ExcludedExactlyWhenSkipped | internal/engine/condition.go:107-118 | What inspection leaves out for its platform is what a run on the selected platform skips for it, except conditions on unknown platforms, which are inspected. |
| Inspection.InspectionIsComplete | internal/capability/checker.go:316-346 | Commands pass exactly when every command outside excluded subtrees is clean in itself. |
| FailClosed.PassesExactlyWhenSupported | internal/capability/checker.go:291-370 | Inspection passes a flow exactly when its url, or else its extensions, its commands that are not for another platform, their values, conditions and css clauses, are supported; all said of the document, without the inspector. |
| FailClosed.ClearExactlyWhenSupported | internal/capability/checker.go:192-213 | A loaded flow raises no violation exactly when it has the known version and is supported. |
| FailClosed.AcceptedPlanIsSupported | internal/capability/checker.go:142-346 | Fail closed, end to end: after a successful check every flow that the roots reach is supported in that sense. |
| FailClosed.WhatARunReachesIsSupported | internal/engine/condition.go:107-118 | Fail closed at run time: in an accepted plan, every command that a device of the selected platform can get to is supported there with its value, condition and selectors. |
| FailClosed.RefusedFlowIsUnsupported | internal/capability/checker.go:207-213 | A flow refused for its contents does use something unsupported. |
| Rejections.InspectionBlamesTheFirst | internal/capability/checker.go:291-370 | A refused flow is blamed for its first unsupported feature in document order: kind, name, code and the place it is written. |
| Rejections.RejectionIsExplained | internal/capability/checker.go:532-602 | Every rejection says what was wrong and where: the code for the loader's error, a wrong version, an unsupported feature, or a link that closes a cycle, links itself or is of unknown kind. |
| Rejections.AcceptedLinksAreAskedAndShown | internal/capability/checker.go:222-232 | Every link of an accepted flow was asked about under the path it stands for, resolved, relative or absolute, and the report shows exactly these call sites. |
| Inspection.CleanSelectorHasOnlySupportedCSS | internal/capability/checker.go:467-496 | A css clause at any depth of a passed selector means css selectors are supported. |
| Inspection.InspectionGuardsExactlyWithoutURL | internal/capability/checker.go:291-294 | The fail-closed promise holds for all flows with a given url exactly when that url is empty or url flows are refused. |
| FlowGraphs.OrderedIsAcyclic | internal/capability/checker.go:216-263 | A graph with a children-first order has no cycle. |
| FlowGraphs.StuckHasCycle | internal/engine/compiled_program.go:196-217 | A non-empty set of flows that each wait for another of the set contains a cycle. |
| RecordingLoader.Recorder.Canonical | internal/engine/program.go:212-224 | The first answer for a path is recorded and returned for ever after; no question reaches the source loader twice. |
| RecordingLoader.Recorder.Load | internal/engine/program.go:226-239 | The same for loading flows. |
| RecordingLoader.Recorder.Aliases | internal/engine/program.go:248-258 | The alias table holds exactly the successful, non-blank canonical answers. |
| DepthFirst.EnterKeeps | internal/capability/checker.go:192-209 | Painting and listing the top flow keeps the search invariant: gray is the entered stack, stack paths are distinct, black flows have settled links, listed flows are reachable. |
| DepthFirst.RetireKeeps | internal/capability/checker.go:216-220 | Popping a finished flow keeps the invariant, with all its children before it in finish order. |
| DepthFirst.FollowKeeps | internal/capability/checker.go:222-259 | Following a link to a settled flow or a resource keeps the invariant. |
| DepthFirst.DescendKeeps | internal/capability/checker.go:252-263 | Pushing a white child keeps the invariant. |
| Preflight.ChainFollowsStack | internal/capability/checker.go:594-602 | The reported chain is a connected walk along the stack from the current root. |
| Preflight.Checker.Explore | internal/capability/checker.go:186-264 | The search below one root terminates, with a measure on unvisited flows, unread links and the stack; it ends with the root finished, or with a justified violation. |
| Preflight.Check | internal/capability/checker.go:142-267 | Success means every selected root, and every flow reachable by links, was loaded once, inspected and fully followed, with a children-first finish order; a rejection names a recorded answer that justifies its code and chain, and its report shows the flows and call sites up to there. |
| PreflightTheorems.ReportGraphIsSuccessors | internal/capability/checker.go:222-232 | The edges of an accepted report are exactly the followed flow links. |
| PreflightTheorems.AcceptedIsAcyclic | internal/capability/checker.go:170-266 | The flow edges of an accepted report form an acyclic graph. |
| PreflightTheorems.NodesAreTheReachableFlows | internal/capability/checker.go:186-264 | The nodes of an accepted report are exactly the flows reachable from its roots. |
| PreflightTheorems.EdgesCountTheLinks | internal/capability/checker.go:222-232 | The report has exactly one edge per collected link of each node. |
| PreflightTheorems.SoundRejectionIsCycle | internal/capability/checker.go:252-258 | When only a cycle can be wrong, a rejection exhibits a reachable cycle whose closing edge returns to the trail. |
| PreflightTheorems.AcceptanceExcludesCycles | internal/capability/checker.go:252-263 | Acceptance means no cycle is reachable in the graph the loader describes. |
| PreflightTheorems.NodesAreTheWorldsFlows | internal/capability/checker.go:186-264 | With a steady loader the nodes of an accepted report are exactly the flows the files themselves reach from the roots. |
| PreflightTheorems.CheckFindsCycles | internal/capability/checker.go:142-267 | When only a cycle can be wrong, the plan is rejected exactly when a reachable cycle exists, with the cycle code and a chain that closes on its own trail; otherwise the report lists exactly the reachable flows. |
| Programs.Prepare | internal/engine/program.go:63-95 | After an accepted preflight freezing the program cannot fail, and the program holds exactly the recorded flows, aliases and report. |
| Programs.PrepareSoundPlan | internal/engine/program.go:63-95 | A plan that can only fail by a cycle is prepared exactly when no cycle is reachable. |
| Programs.ResolveFlowLink | internal/engine/program.go:122-168 | The loop over targets yields the one flow that all resolvable targets agree on, or the error of the first that fails. |
| Programs.ResolvesExactlyWhen | internal/engine/program.go:122-185 | A link resolves to a flow exactly when one of its names stands for that flow and none for anything else; a name stands for what it, or else its cleaned form, is recorded as. |
| Programs.ResolutionAgreesWithPreflight | internal/engine/program.go:122-185 | A link of a prepared flow resolves to exactly the target preflight followed, or to an error. |
| Programs.ParsedLinksAlwaysResolve | internal/engine/program.go:122-185 | A link whose two names denote one file always resolves, to the target preflight followed. |
| Programs.FaithfulExactlyWhen | internal/engine/program.go:122-150 | Resolution never contradicts a recorded alias, whatever the program, exactly when the link is no flow link, lies in a file without a name, has an empty or non-blank resolved path, has a blank path, or its two names are one target. |
| PlanCounterexamples.WhiteSpaceLinkMisresolves | internal/engine/program.go:128-150 | A plan that prepares, with a link that preflight followed to one flow and the resolver maps to another. |
| Compilation.PreparedFlowOrder | internal/engine/compiled_program.go:135-218 | Succeeds exactly on well-formed acyclic reports, reports a cycle exactly when a well-formed report has one, and orders a permutation of the nodes children first. |
| Compilation.KahnOrder | internal/engine/compiled_program.go:172-217 | Whatever is never ready waits for itself: the unordered flows are stuck, the ordered ones are children first. |
| Compilation.QueueDrained | internal/engine/compiled_program.go:196-217 | When the queue runs dry with flows left over, those flows contain a cycle. |
| Compiler.CompileProgram | internal/engine/compiled_program.go:62-133 | Compiles exactly the flows of the order, each from the flows before it, up to the first failure. |
| Compiler.PreparedIsWellFormed | internal/engine/compiled_program.go:135-218 | A prepared program passes the order's validation and is acyclic exactly when no canonical path is blank. |
| PlanCounterexamples.BlankPathIsRefused | internal/engine/compiled_program.go:135-170 | A plan that prepares with a blank canonical path and that ordering then refuses. |
| Compiler.RequiredFlowIsReady | internal/engine/compiled_program.go:97-111 | In a genuine program a required flow is declared and compiled already, and is the target preflight recorded; only resolution itself can fail, and not for links whose names agree. |
| Compiler.CompiledUpToIsLinked | internal/engine/compiled_program.go:85-126 | A compiled command carries a flow exactly when its handler links one, and then the compiled form of the very flow preflight followed its only link to. |
| Compiler.CompiledUpToExactlyWhenIntact | internal/engine/compiled_program.go:85-126 | Compiling succeeds exactly when, at any depth, no handler refuses a command and every flow link a handler wants is there and resolves. |
| Compiler.PrepareAndCompile | internal/engine/compiled_program.go:62-133 | End to end: the program holds the given loader's answers; after preflight accepts, compilation succeeds exactly when no command is broken, links every command as preflight followed it, and the errors for unordered, missing, undeclared and uncompiled flows never occur. |
| TerminalErrors.Traversal.Inspect | internal/engine/errors.go:65-121 | Classifies by the recursive specification and leaves the active set as it found it. |
| TerminalErrors.MergeAggregate | internal/engine/errors.go:343-367 | The merged class is one of the two and outranks or equals both. |
| ErrorTheorems.DirectClassIsTheClass | internal/engine/errors.go:149-199 | The class of one error, or its panic, by its own data: cancellation first, then the product error it is, or else answers to be when asked in turn; operations and assertions are retryable. |
| ErrorTheorems.MalformedExactlyWhenPathIsBad | internal/engine/errors.go:65-121 | A graph is malformed exactly when some path from the root meets a typed nil, a panic, a pointer that is its own ancestor, or depth 128. |
| ErrorTheorems.FatalVerdictIsGreatestReachable | internal/engine/errors.go:298-367 | A valid graph gets a fatal class exactly when it is the greatest fatal class of any reachable error. |
| ErrorTheorems.RetryableHidesNothingFatal | internal/engine/errors.go:298-336 | A retryable verdict means no reachable error is cancelled, a device loss or a configuration error. |
| ErrorTheorems.AggregateFlagIsExact | internal/engine/errors.go:88-121 | The aggregate flag of a valid graph tells exactly whether an aggregate is reachable. |
| ErrorTheorems.AggregateFreeVerdict | internal/engine/errors.go:298-336 | Without aggregates and fatal errors, skipped beats retryable beats plain failure, by what is reachable. |
| ErrorVerdicts.MildVerdict | internal/engine/errors.go:298-367 | Without fatal errors, aggregates or not, the verdict is plain failure exactly when a leaf without class surfaces (a wrapper of one cause with a class of its own hides it, unless an aggregate lies below), else retryable exactly when something surfaces past no skipped wrapper, else skipped. |
| ErrorTheorems.BranchOrderIsIrrelevant | internal/engine/errors.go:88-121 | Permuting the branches of any aggregates never changes the classification. |
| ErrorTheorems.ValidVerdictIsIntrinsic | internal/engine/errors.go:65-121 | A verdict does not depend on depth, on the ancestors, or on unrelated errors, as long as it is valid. |
| ErrorTheorems.NormalizeIsIdempotentUnlessTooDeep | internal/engine/errors.go:369-385 | Normalising twice is normalising once, exactly unless a plain failure is as deep as the traversal looks. |
| ErrorTheorems.DeepChainIsNormalizedTwice | internal/engine/errors.go:369-385 | A chain of plain errors as deep as the traversal looks is changed by a second normalisation. |
| ErrorTheorems.NormalizedAsPromised | internal/engine/errors.go:369-385 | Normalising turns a malformed graph into a configuration error, wraps a plain failure without an aggregate as a retryable operation, and leaves every other error as it is. |
| ErrorTheorems.NormalizedIsNeverPlain | internal/engine/errors.go:369-385 | A normalised error is a plain failure exactly when the graph has an aggregate or became too deep. |
| RootFailures.BypassedMeansPrecedence | internal/engine/failure_policy.go:23-34 | The errors with a root precedence are exactly those for which the resolver is not asked. |
| RootFailures.Accumulator.Add | internal/engine/failure_policy.go:14-21 | The field moves by the binary choice whose fold KeptIsEarliestGreatest and KeptOfPhases characterise. |
| RootFailures.KeptIsEarliestGreatest | internal/engine/failure_policy.go:14-34 | The accumulated error is the earliest of greatest root precedence, and none only when there was none. |
| RootFailures.KeptOfPhases | internal/engine/failure_policy.go:38-76 | Accumulating per phase and then over phases is one accumulation over all errors. |
| RootFailures.RunRootPhase | internal/engine/failure_policy.go:38-104 | A root phase runs up to the first command that halts it, and surfaces the accumulated error of the commands that ran. |
| RootFailures.RunNestedPhase | internal/engine/executor_core.go:110-130 | A nested phase runs up to its first error and surfaces that. |
| FlowLifecycle.ExecuteFlowLifecycle | internal/engine/flow_executor.go:80-191 | The phases that run are the ones the policy calls for, and the error before sanitising is the earliest greatest one for a root, the first one for a nested flow; a malformed one is replaced. |
| FlowLifecycle.ConcludedMeans | internal/engine/flow_executor.go:157-191 | Completed or warned means nothing surfaced and finishing succeeded, by whether a command that ran was warned; failed means finishing succeeded and carries the very error surfaced. |
| FlowTheorems.CompletionSkippedExactlyAfterIntegrity | internal/engine/flow_executor.go:124-150 | In an entered flow completion is left out exactly when the last start or body command surfaced a session-integrity failure. |
| FlowTheorems.SuccessRanEverything | internal/engine/flow_executor.go:109-156 | A flow without a surfaced error ran every command of all phases, and each succeeded. |
| FlowTheorems.ReportIsWarnedOrCompletedExactlyWhen | internal/engine/flow_executor.go:109-191 | A begun flow is completed or warned exactly when entering, every command of every phase, closing and finishing went well, and warned exactly when besides some command was warned. |
| FlowTheorems.TraceIsDetermined | internal/engine/flow_executor.go:109-156 | The policy leaves no choice of what runs. |
| FlowTheorems.RootNeverHidesDeviceLoss | internal/engine/failure_policy.go:14-34 | A cancellation or device loss among a root's errors surfaces as one of the two, a cancellation as a cancellation. |
| FlowTheorems.CancellationSurfaces | internal/engine/flow_executor.go:109-156 | A cancellation anywhere below a well-formed error of a root makes the reported error cancelled. |
| FlowTheorems.SanitizingKeepsExactlyTheWellFormed | internal/engine/errors.go:387-404 | Sanitising keeps exactly the well-formed errors, and replaces a malformed one by a well-formed configuration error that is no session-integrity failure. |
| RootLoop.ExecuteRoots | internal/engine/execution.go:37-64 | Runs roots up to the first that ends the loop, collects their results in order, and reports the earliest failure. |
| RootLoop.ErrorIsTheFailure | internal/engine/flow_executor.go:31-36 | A root fails with its run error, and with the error of closing its session only after a clean run. |
| RootLoop.RootsLeftOutExactlyWhen | internal/engine/execution.go:47-63 | Roots are left out exactly after a failure in the declared sequence without continuation, or in a cancelled context. |
| RootLoop.SequenceStopsAtItsFirstFailure | internal/engine/execution.go:55-59 | Without continuation nothing runs after a failure in the declared sequence. |
| AssetTrees.AssetDirectories | internal/assets/extract.go:316-330 | Collects exactly the directories above declared files. |
| AssetTrees.VerifyAssetTree | internal/assets/extract.go:210-294 | Passes exactly the trees that carry the expected marker, every declared file, the identity, and nothing else, in whatever order the walk visits them. |
| AssetExtraction.ExtractTarGZIP | internal/assets/extract.go:56-187 | Succeeds exactly when the stream is intact, the entries are each declared file once plus allowed directories, and no declared file lies below another; the tree then holds exactly that. |
| AssetExtraction.VerifiedTreeIsExact | internal/assets/extract.go:210-294 | A verified tree has exactly the declared files, the directories above them, and the marker. |
| AssetExtraction.TreeVerifiesExactlyWhen | internal/assets/extract.go:210-294 | For distinct declared paths, a tree verifies exactly when its marker names the asset, every declared file is there with its size, digest and mode, and everything else is a directory on the way to one. |
| AssetExtraction.ResidueNeverVerifies | internal/assets/manager.go:97-106 | No proper residue of a verified tree passes verification. |
| AssetExtraction.ExtractedTreeVerifies | internal/assets/manager.go:126-134 | The marker can be written into an extracted tree and the result verifies exactly when the manifest declares no file in the marker's place or below it. |
| AssetExtraction.MatchNeedsRoom | internal/assets/extract.go:210-294 | A tree verifies only for a manifest that declares no file below another, in the marker's place or below it. |
| AssetExtraction.NestedManifestIsRefused | internal/assets/extract.go:56-187 | An archive that holds what its manifest declares is refused when one file lies below another. |
| AssetExtraction.MarkerManifestNeverVerifies | internal/assets/manager.go:126-134 | An archive whose manifest declares the marker's place is unpacked and never verifies. |
| AssetExtraction.BuriedMarkerIsNeverWritten | internal/assets/manager.go:232-243 | An archive whose manifest declares a file below the marker's place is unpacked, and the marker cannot be written. |
| AssetCache.NamesAreDirectoryNames | internal/assets/manifest.go:22-23 | Versions and hashes have no separators and start with no dot, so they name directories that are neither locks nor temporaries. |
| AssetCache.VerifiedIsOwned | internal/assets/cleanup.go:118-133 | Cleanup recognises a verified directory as the cache's own exactly under the version and hash of its asset, if that is well named. |
| AssetCache.OneTreeOneAsset | internal/assets/manager.go:245-254 | What verifies for two assets has the same names, versions and hashes in both. |
| AssetCache.StepKeepsInv | internal/assets/manager.go:65-152 | Every step of every process, stops included, keeps: locks match their holders, no leftover temporaries, the final place is free until publication, returned assets are verified. |
| AssetCache.ProcessStepIsLocal | internal/assets/manager.go:82-152 | A step changes only directories of the key whose lock its process holds. |
| CacheTheorems.OneHolderPerKey | internal/assets/locker.go:27-53 | No two processes hold one asset at a time. |
| CacheTheorems.ChangesNeedTheLock | internal/assets/manager.go:82-152 | In every run a directory changes only by a step of the holder of its lock. |
| CacheTheorems.SuccessMeansVerified | internal/assets/manager.go:95-152 | In every run a successful acquisition returns a tree that matches the manifest exactly, with no temporaries left. |
| CacheTheorems.SuccessIsNeverAResidue | internal/assets/manager.go:95-106 | What an acquisition returns is never part of a removed verified tree. |
| CacheTheorems.SuccessNeedsRoom | internal/assets/manager.go:65-152 | No run ever returns success for a manifest that leaves no room. |
| CacheTheorems.PublishedOnlyVerified | internal/assets/manager.go:126-150 | A final directory appears only by renaming a temporary whose tree, in this very acquisition and in this order, passed the check, was accepted by the identity verifier, passed the check again, and still passes. |
| CacheTheorems.PublicationFindsRoom | internal/assets/manager.go:97-150 | Publication never replaces a directory. |
| CacheTheorems.CleanupRemovesOnlyOwned | internal/assets/cleanup.go:135-156 | What a cleanup changes is part of a stale directory that carried the cache's marker when its removal began under the lock. |
| CacheTheorems.StaleExactlyWhenNotKept | internal/assets/cleanup.go:59-80 | Of what is named like a cached asset, a cleanup takes for stale exactly what its policy does not keep. |
| CacheTheorems.CleanupStepSparesKept | internal/assets/cleanup.go:59-87 | In every run, no step of a cleanup changes a directory of the previous version or of an active asset it keeps, whoever acquires that asset meanwhile. |
| CacheTheorems.KeptDirectoriesStay | internal/assets/cleanup.go:59-87 | Over any stretch of a run in which nobody acquires a kept asset, its directories stay as they are. |
| CacheTheorems.SparedDirectoriesStay | internal/assets/cleanup.go:59-87 | Directories nobody has business with, and foreign ones in any case, stay as they are. |
| CacheTheorems.UnownedDirectoriesStay | internal/assets/cleanup.go:118-133 | A directory without the cache's marker survives every cleanup. |
| AssetStore.Store.VerifyAssetDirectory | internal/assets/extract.go:189-208 | Passes exactly when the tree passes, the identity verifier accepts it, and what the verifier left passes again; changes nothing but what the verifier does to a tree that passed. |
| AssetStore.Store.Acquire | internal/assets/manager.go:65-152 | One acquisition is a path of the transition system, returns success only with a verified final directory, serves a cached directory that verifies as it is, and with a good archive and nothing failing succeeds exactly when the manifest leaves room. |
| AssetCleanup.ValidateRetentionPolicy | internal/assets/cleanup.go:95-116 | Accepts exactly the well-formed policies and returns their hashes. |
| AssetCleanup.Cleanup | internal/assets/cleanup.go:21-156 | Success removes exactly the listed stale owned assets; failure removes nothing else either; every run is a path of the protocol's cleanup process. |
| AssetCleanup.AcquiredIsRemovedExactlyWhenStale | internal/assets/cleanup.go:59-93 | What an acquisition returned is removed by a successful cleanup that lists it exactly when the policy keeps neither its version nor it as an active asset. |
| AssetCleanup.CleanedTwice | internal/assets/cleanup.go:21-93 | A second cleanup removes nothing more. |
| AssetCleanup.SecondCleanupFinishesTheMarked | internal/assets/cleanup.go:118-156 | After a cleanup that was cut short, a full one removes exactly the stale directories whose marker survived, and nothing else. |
| ScrollCourse.Course.Next | internal/engine/interaction_scroll_course.go:49-115 | The fields move by the pure step that RunIsBounded, SearchStaysBetween and OverhangIsScrolledAway are about. |
| ScrollCourse.AmountsStayWithinSpeed | internal/engine/interaction_scroll_course.go:49-91 | Over all runs amounts stay within minimum step and authored speed exactly when the speed is at least the minimum step. |
| ScrollCourse.RunIsBounded | internal/engine/interaction_scroll_course.go:49-115 | Every scroll of every run is on the authored axis and between the lesser and the greater of speed and minimum step. |
| ScrollTheorems.SearchStaysBetween | internal/engine/interaction_scroll_course.go:54-57 | A lost target's search stays between where it was last seen and where it was lost, exactly when the losing scroll was at least the minimum step. |
| ScrollTheorems.OverhangIsScrolledAway | internal/engine/interaction_scroll_course.go:66-91 | A target that leaves room is inside after at most overhang divided by a full step, rounded up, all scrolls going one way. |
| ScrollTheorems.ArrivesExactlyWithRoom | internal/engine/interaction_scroll_course.go:66-91 | Targets of an extent arrive from everywhere exactly when the extent leaves room for the shortest scroll. |
| ScrollTheorems.ExecuteScrollUntilVisible | internal/engine/interaction_scroll_handler.go:393-465 | Ends with acceptance, expiry or the observation guard, after at most 1200 scrolls, each chosen from all observations so far. |
| ScrollTheorems.EveryScrollIsDue | internal/engine/interaction_scroll_course.go:49-115 | Every scroll follows from the observations: as authored until the target is first seen, toward the side it hangs over further, in small steps as authored while it is covered, and back by half once it is lost. |
| ScrollTheorems.VisibleTargetIsFound | internal/engine/interaction_scroll_handler.go:393-465 | End to end: such a target on screen is found within the bound unless time or the guard runs out. |
| HierarchyBounds.BoundsRoundTrip | internal/hierarchy/geometry.go:13-56 | Formatted bounds parse back exactly when their extents are not negative and their corners fit the host integer. |
| HierarchyBounds.ParsesExactlyWhen | internal/hierarchy/geometry.go:13-51 | A text is read as bounds exactly when it is their corners as [left,top][right,bottom] in decimal numerals of 64 bits, in order, and nothing else. |
| WebViewMerge.AttachToFirstWebView | internal/android/webview_merge.go:82-106 | Attaches exactly when there is a WebView, and then only at the first one's path. |
| WebViewMerge.ScaleNode | internal/android/webview_merge.go:113-147 | Places every node of the page as specified. |
| WebViewMerge.MergeWebViewHierarchy | internal/android/webview_merge.go:34-58 | Yields the merged tree or the error the bounds call for; a tree without WebView comes back unchanged. |
| WebViewMerge.FoundAtFirstPath | internal/android/webview_merge.go:61-71 | Finding and attaching agree on the node. |
| WebViewTheorems.WebViewExactlyWhenReported | internal/android/webview_merge.go:73-75 | A node is a WebView exactly when it has a class that ends in WebView. |
| WebViewTheorems.FirstInDocumentOrder | internal/android/webview_merge.go:61-71 | The target is a WebView and precedes every other in document order. |
| WebViewTheorems.PageIsLastChild | internal/android/webview_merge.go:82-106 | The page is the last child of the target, which is otherwise unchanged. |
| WebViewTheorems.AncestorsStay | internal/android/webview_merge.go:82-106 | Ancestors of the target keep attributes, flags and number of children. |
| WebViewTheorems.OthersStay | internal/android/webview_merge.go:82-106 | Every other path leads to the node it led to before. |
| WebViewTheorems.CountsAddUp | internal/android/webview_merge.go:82-106 | The node counts of native tree and page add up. |
| WebViewTheorems.MergesExactlyWhen | internal/android/webview_merge.go:34-58 | Merging attaches the page exactly when both bounds can be read and the page has an area. |
| WebViewTheorems.MergedPageIsPlaced | internal/android/webview_merge.go:34-147 | Every page element is found below the first WebView, with only its bounds changed; inside the page means inside the frame; the page covers the frame exactly. |
| WebViewTheorems.ScaledInProportion | internal/android/webview_merge.go:119-147 | Offsets and extents are the page's, multiplied by the frame and divided by the page axis by axis, rounded toward zero. |
| WebViewTheorems.ScaledStaysInFrame | internal/android/webview_merge.go:119-147 | Everything inside the page lands inside the frame despite truncation. |
| WebViewTheorems.PageLandsOnFrame | internal/android/webview_merge.go:113-147 | The page itself lands exactly on the frame. |
| WebViewTheorems.ScaledKeepsOrder | internal/android/webview_merge.go:119-147 | Elements keep their order along each axis. |
| WebViewTheorems.ChildOverhangsByAtMostOne | internal/android/webview_merge.go:119-147 | A child inside its parent overhangs it by at most one pixel. |
| WebViewTheorems.ChildrenStayInsideExactlyWhen | internal/android/webview_merge.go:119-147 | All children stay inside exactly when the remainders of the parent's offset and length, scaled to the frame, add up to less than the page. |
| WebViewTheorems.ChildCanOverhang | internal/android/webview_merge.go:119-147 | Half of a two-pixel page in a one-pixel frame does not hold all its children. |
| ChatTurns.ChatMessages | internal/aiengine/chat.go:85-129 | Converts in order with the first message's error winning, and splits assistant replies with calls for one provider. |
| ChatTurns.SplitAssistantParts | internal/aiengine/chat.go:138-155 | All parts that are not calls come first as one message, then one message per call. |
| ChatTurns.FoldTurns | internal/aiengine/anthropic_turns.go:50-109 | Yields the folded body, the body itself when nothing folds, or nothing when it cannot be read. |
| ChatTheorems.FoldingKeepsBlocks | internal/aiengine/anthropic_turns.go:63-93 | No two neighbours share a role, and every block keeps its role and place. |
| ChatTheorems.FixedExactlyWhenCompact | internal/aiengine/anthropic_turns.go:77-79 | The message count alone tells whether anything was folded. |
| ChatTheorems.FoldingIsIdempotent | internal/aiengine/anthropic_turns.go:50-93 | Folding a body twice is folding it once. |
| ChatTheorems.RewrittenExactlyWhenNeeded | internal/aiengine/anthropic_turns.go:50-93 | A readable body is rewritten exactly when two neighbours share a role, and its blocks stay. |
| ChatTheorems.FoldingChangesNothingSaid | internal/aiengine/anthropic_turns.go:50-109 | Folding fails exactly on unreadable content, and otherwise every text, null and block content is there afterwards as the same blocks, under the same roles and in order. |
| ChatTheorems.CompactFormIsUnique | internal/aiengine/anthropic_turns.go:63-93 | The folded form is the only one with the same tagged blocks. |
| ChatTheorems.SplittingKeepsBlocksExactlyWhen | internal/aiengine/chat.go:138-155 | Splitting keeps the block order exactly when the calls came last. |
| ChatTheorems.SplitTurnsAreSingleExactlyWhen | internal/aiengine/chat.go:131-155 | Every split message has one part exactly when at most one part was not a call. |
| ChatTheorems.TextAndImage | internal/aiengine/chat.go:101-121 | More than one such part means both text and image. |
| ChatTheorems.IllustratedReplyKeepsTwoParts | internal/aiengine/chat.go:101-155 | A reply with text, image and call is split into a first message of two parts. |
| ChatTheorems.FoldingUndoesSplitting | internal/aiengine/anthropic_turns.go:12-20 | For any messages and any wire names of roles, folding the split conversation equals folding the unsplit one. |
| Shards.PlanShards | internal/cli/sharding.go:44-129 | Refuses for the stated reasons only, and otherwise gives shard k the k-th device and either all flows or its share. |
| Shards.ShardingIsAsAsked | internal/cli/sharding.go:44-129 | Refusals, number of shards, devices and flows are what was asked for: everywhere, divided, or not at all. |
| Shards.SplitInterleavesBack | internal/cli/sharding.go:66-79 | Flow i is root i / n of shard i % n, every root is such a flow, interleaving restores the plan, and lengths differ by at most one. |
| Shards.AcceptedSplitFillsEveryShard | internal/cli/sharding.go:95-122 | An accepted split leaves no shard without flow or device. |
| Shards.AssignDriverPorts | internal/cli/driver_ports.go:47-77 | Succeeds exactly when the ports meant for the shards exist and all differ; otherwise names the first that does not, with the shards before it served and the rest untouched. |

## Left out

- Context cancellation, clocks, loggers and listeners, except where an answer of the environment stands for them.
- Wording of messages: errors are datatypes that keep the code, the feature, the source and the chain.
- Real file systems, gzip and tar decoding, SHA-256 and JSON: directories are maps from paths to entries, digests and
  encodings are arbitrary functions, and a tar stream is the list of its entries. No injectivity of digests is assumed, so
  a verified file has the declared size, digest and mode.
- The gzip archive format with its single file; only tar archives are unpacked.
- Path operations of the standard library: joining and cleaning are arbitrary functions of the model.
- Extension keys of a flow's configuration arrive sorted; tables of driver names and interpolation markers are parameters.
- The loader's own blank-path check and the handlers of the single commands, which are arbitrary plans here.
- Locks are mutual exclusion that the system releases when the holder stops; the lock file's own checks are not modelled.
- Modes of files decide nothing but equality with the manifest: every file can be read. A manifest may declare mode 0200,
  whose file a process without privileges cannot read back.
- A directory of the cache is a tree: whatever has a parent among its entries has a directory as parent.
- A tree is checked in one step of the cache protocol, since nothing else can change it while its lock is held.
- Copying of configuration, sessions, ledgers, timelines and the rendering of outcomes; the outcome of a failed flow is
  left to its error.
- Floating point: scroll lengths are exact reals and scaling is exact division with truncation toward zero. The program
  multiplies by a ratio rounded beforehand, so an exact quotient may come out one lower: a page 319 wide in a frame 320 wide
  is placed 319 wide.
- Overflow of placed coordinates that start outside the page; elements inside the page cannot overflow.
- Acceptance of a target by visibility percentage and hit test, and the centring scroll after acceptance: a parameter of
  the loop. The loop's endings by an error of the device are left out.
- Overflow of the host integer when parsed bounds are subtracted to give width and height.
- The wire adapter between converted messages and request bodies: any naming of roles is allowed.
- Listing of attached devices, and the choice of the base port.
- Preflight.Checker.Explore: needs a finite set of canonical paths, without which the search need not end.
- FailClosed.AcceptedPlanIsSupported: promises of a flow with a url no more than support of the url, because the program
  inspects nothing else of it.
- CacheTheorems.KeptDirectoriesStay: says nothing of assets being acquired meanwhile, because an acquisition may replace the
  directory; CleanupStepSparesKept covers what the cleanup itself does.
