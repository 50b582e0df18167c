# DevWorkspace Operator: a verified model

The DevWorkspace Operator is a Kubernetes controller that turns DevWorkspace objects into
running development environments. This project models the parts of it that are algorithms or
protocols, and proves what they are meant to guarantee for every input, every run or every
reachable state. `dafny verify dfyconfig.toml` checks all of it.

| file | what it models |
|---|---|
| `Lifecycle.dfy`, `WorkspaceController.dfy` | the phases of a workspace over any run of reconciles, user changes and replica moves; the controller's methods on a mutable workspace |
| `StartUpStatus.dfy`, `StopStatus.dfy` | what one reconcile reports, stores and touches while a workspace starts, and while it stops, fails, restarts or is deleted |
| `Conditions.dfy` | reconciliation of stored status conditions with observed ones, and the timeouts measured from them |
| `HttpClients.dfy` | the HTTP client cache with double-checked read-write locking, under any interleaving |
| `Flatten.dfy`, `FlattenResult.dfy`, `FlattenResolver.dfy` | resolution of parents, plugins and contributions over a possibly cyclic import graph; missing references and the order of the result; the resolver with its tree of parent pointers |
| `VolumeMerge.dfy`, `ContributionMerge.dfy` | merging volumes through shared pointers, and container contributions into one container |
| `ClusterSync.dfy`, `SharedOwners.dfy`, `ServiceSync.dfy` | the create, update and delete protocol against a server seen through a label-filtered cache: one object, one object shared by workspaces, a set of services |
| `Automount.dfy`, `AutomountResult.dfy`, `AutomountListing.dfy` | merging automounted volumes that ask for one mount path into projected volumes; what stands where in the result; the configmaps and secrets the operator lists |
| `Storage.dfy`, `CleanupJob.dfy`, `StorageCleanup.dfy` | rewriting volume mounts to sub-paths of a shared claim; what a clean-up job's shell command removes; cleaning up after deleted workspaces over any run |
| `Resources.dfy` | defaults, caps and sums of container resources |
| `ShellQuoting.dfy` | how a POSIX shell reads a command, and the quoting of a user script inside a postStart hook |
| `Sorting.dfy`, `Devfile.dfy`, `Options.dfy` | stable sorting, the template data types, option and result types |

Code that updates things in place is modelled by classes, heap cells and loops; each such method
is proved equal to a function of the old state, and the theorems are about that function. They say
what it computes on the fields of its input and result, not by its own helper functions. Concurrent
code is modelled by transition relations, and the theorems are about all runs.

## What the models assume

- The API server is a finite store. It stores the compared fields of an object as they were sent,
  except that it fills in a Service's type, protocols and cluster IP. The cache of the operator
  holds exactly the labelled objects; `SharedOwners` lets it lag behind as well.
- A reconcile is one atomic step, whose status write can be lost. Everything else it learns (the
  clock, the outcome of each provisioning stage, which calls fail) is an arbitrary input.
- A deployment scaled to zero only loses replicas, and nobody but the operator scales it.
- The `devfile/api` library's merge concatenates (parent, plugins, own elements) and fails on
  duplicate keys; its override changes the settings of elements it finds and fails on others.
- Go's map iteration order is an argument (`order`), so a theorem holds for every order.
- Quantities and times are integers; names derived by hashing are an injective argument (`naming`).
- Shell commands are read as the Shell Command Language of IEEE Std 1003.1-2017 has it, in a locale whose
  blanks are space and tab, except that braces, which bash expands even as `sh`, are not read. A command is read only
  if its first line is one simple command that needs no more than quoting, the patterns `*` and `?` and whole-word
  parameters. Of any other command no effect is claimed (`UnsettledIds` names some, among them syntax errors that
  run nothing); only where safety is at stake is it taken to be able to do anything.
- Workspace IDs are any text without a slash, as the ID override annotation admits them; what the API server would
  say to labels and names made from them is not part of the model. An ID can be used again once its workspace is
  gone. A clean-up job goes when the workspace that owns it goes.

## Where the code does not do what one might expect

Each of these has a lemma with a concrete input and an if-and-only-if.

- With clean-up on stop, an object that has another owner is listed at every reconcile and counts as
  not yet deleted, so such a workspace never reaches Stopped or Failed
  (`SharedConfigMapBlocksStop`, `CleanupCompletesExactlyWhenSolelyOwned`).
- The clean-up job passes the workspace's path to a shell unquoted. The job of `a b` removes workspace `a` and is
  not sure to remove its own files, that of `*` removes every workspace's files, and so does that of an empty ID,
  `.` or `..` (`BlankSplitsId`, `StarRemovesEverything`, `DottedJobRemovesEverything`). Where the shell's reading
  settles what `rm` runs on, `HarmfulExactlyUnlessPlainOrDot` says exactly which slash-free IDs cost other workspaces
  files, `CleansExactlyItsOwnWhenPlain` which clean exactly their own, and `OtherIdsDestroyFiles` gives a run in which
  a live workspace loses a file. Whatever is read, plain IDs harm nobody (`IsolatedWhenPlainOrRefused`,
  `LiveFilesSurvive`), and the IDs the operator generates are plain (`GeneratedIdsArePlain`).
- The operator gives a configmap and a secret of one name volumes of one name, and the secret's wins; mounted at one
  path, the secret is projected twice and the configmap not at all (`SameNameHidesConfigMap`, `ClashHides`). The
  merged volumes make visible exactly what was listed if and only if no mounted configmap has the name of a listed
  secret (`ListingConservedExactlyUnlessHidden`).
- A Deployment that exists without the watched label and with another selector is never brought in sync, and an
  unlabelled specification only if the object on the server is labelled and matches already
  (`HiddenDeploymentNeverSyncs`, `ConvergesExactly`).
- A workspace's own container that is marked as a contribution and listed first becomes the merge
  target and silently prevents the merge (`OwnContributionBlocksMerge`,
  `MergeSkippedExactlyWhenTargetContributes`).
- Defaults can leave a request above its limit (`DefaultsCanInvert`, `DefaultsValidExactlyWhenNotInverted`).

Two functions depend on an order that Go leaves open, but only on inputs the operator never passes to them:

- The order of new conditions shows when two types outside the condition order share a message
  (`Conditions.OrderCanMatter`, `OrderIndependentExactlyWhenMessagesDiffer`). No reconcile observes two such types,
  so no reconcile depends on the map order (`ReconcileObserves`, `ReconcileIgnoresMapOrder`).
- The order of automounted volumes shows when one configmap or secret is projected to one path twice with
  different items (`Automount.OrderCanMatter`, `OrderIndependentExactlyWhenDetermined`,
  `SortIsUniqueExactlyWhenDetermined`). The operator lists each configmap and each secret once, so the orders in which
  the cluster lists them never show in a merged result (`ListingDetermined`, `ListingOrderDoesNotMatter`).

## Model

| member | source | states |
|---|---|---|
| `Lifecycle.ReachablePhases` | controllers/workspace/devworkspace_controller.go:150-246 | in every state any run can reach, Stopped or Failed means the deployment is absent or has zero desired and zero actual replicas; Running means all seven conditions of a running workspace are True; Failing means FailedStart is True; no condition type but warnings occurs twice |
| `Lifecycle.NextKeepsInv` | controllers/workspace/devworkspace_controller.go:150-246 | each reconcile, lost status write, user change, replica move and deletion keeps that invariant |
| `Lifecycle.RunKeepsInv` | controllers/workspace/devworkspace_controller.go:110-246 | the invariant holds after any sequence of steps from a state that has it |
| `Lifecycle.FailureLastsUntilRestart` | controllers/workspace/devworkspace_controller.go:168-215 | however a run without deletion goes on, a failing workspace stays Failing or Failed with its FailedStart condition unchanged (status, message, reason and time) until it is Failed and told to start, and its next phase is then Starting |
| `Lifecycle.FailureStep` | controllers/workspace/devworkspace_controller.go:610-639 | one step from Failing or Failed stays there and keeps FailedStart, or goes from Failed to Starting when the workspace is told to start |
| `Lifecycle.RunningExactlyWhenEveryStagePasses` | controllers/workspace/devworkspace_controller.go:248-607 | over any table of stages, provisioning reports Running if and only if each stage has an outcome and that is Passed, Skipped or Warned, and then every condition of a mandatory stage was observed True; Failing always comes with FailedStart True |
| `Lifecycle.ProvisionedStatus` | controllers/workspace/devworkspace_controller.go:224-246 | after the deferred timeout check the phase is Running if and only if the outcome of every stage is Passed, Skipped or Warned and the start did not time out, and then all seven conditions of a running workspace were observed True |
| `StartUpStatus.RunningExactlyWhenAllStagesPass` | controllers/workspace/devworkspace_controller.go:217-607 | a written reconcile of a starting or running workspace leaves it Running if and only if the start is not overdue (Starting, and no condition changed within the timeout, or the timeout does not parse), there is an outcome for every stage, and each of them is Passed, Skipped or Warned |
| `StartUpStatus.EndedStartIsStored` | controllers/workspace/devworkspace_controller.go:468-607 | when a stage ends the reconcile, what is stored is: phase Failing exactly for a broken stage or, short of an error, an overdue start; the condition of that stage False with its message; those of the stages before it True with theirs; those of later stages Unknown or absent |
| `StartUpStatus.ReportedConditions` | controllers/workspace/devworkspace_controller.go:217-607 | for every condition type: what the reconcile reports of it, with its message, when its stage passed, did not apply, ended the reconcile or was not reached; Started is True throughout |
| `StartUpStatus.ReportedPhase` | controllers/workspace/devworkspace_controller.go:224-246 | Failing exactly for a broken stage or an overdue start without an error, Running exactly when no stage ended the reconcile and the start is not overdue; FailedStart is reported exactly with Failing and has the message and reason of the timeout, or else of the stage |
| `StartUpStatus.ReportedWarnings` | controllers/workspace/devworkspace_controller.go:707-723 | the warnings reported are the configuration's and those of the stages that passed with one |
| `StartUpStatus.ConditionsAreReachedInOrder` | controllers/workspace/devworkspace_controller.go:217-607 | once a condition is reported, all those before it in the condition order are True, except that PullSecretsReady and KubeComponentsReady may not be reported |
| `StartUpStatus.ObjectsTouched` | controllers/workspace/devworkspace_controller.go:492-588 | the deployment is touched exactly if the deployment stage was entered, the routing exactly if the routing stage was |
| `Lifecycle.SyncedKeeps` | controllers/workspace/status.go:108-138 | a stored condition observed as it is stored keeps its status, message, reason and time |
| `Lifecycle.SyncedHolds` | controllers/workspace/status.go:108-151 | a type observed True is present and True after the status write, whatever was stored |
| `Lifecycle.DoStopResult` | controllers/workspace/devworkspace_controller.go:641-692 | stopping reports success only with the deployment absent or at zero replicas, never disturbs a deployment at rest and changes nothing but the owned objects |
| `StopStatus.StopIsStored` | controllers/workspace/devworkspace_controller.go:610-639 | a written reconcile of a workspace told to stop ends at Stopped, or Failed after a failure, with Started False and its message, if and only if nothing is left to stop; until then the phase is Stopping, or stays what it was after a failure |
| `StopStatus.StopResultExactly` | controllers/workspace/devworkspace_controller.go:641-692 | stopping succeeds exactly when, with clean-up, nothing is listed, and without, both reads succeed, the routing is or gets marked and the deployment is absent or at zero desired and actual replicas; it fails exactly when one of the calls does |
| `StopStatus.StopTouches` | controllers/workspace/devworkspace_controller.go:641-692 | without clean-up, exactly when the routing gets its mark and exactly when the deployment is scaled to zero, which is only after that; nothing else is touched |
| `StopStatus.CleanupDeletes` | controllers/workspace/cleanup.go:30-104 | with clean-up, objects with another owner stay, and of the workspace's own exactly those before the failing call go |
| `StopStatus.FailingIsToldToStop` | controllers/workspace/devworkspace_controller.go:168-190 | a failing workspace told to run is told to stop, and nothing else changes, unless the patch fails or it is in debug mode and the last FailedStart condition is not older than a timeout that parses |
| `StopStatus.RestartForgets` | controllers/workspace/devworkspace_controller.go:198-215 | a workspace started from any other phase has phase Starting and the one condition Started, at the current time: an old failure is gone |
| `StopStatus.DeletionIsStored` | controllers/workspace/finalize.go:52-80 | what a deletion stores: Started with its message, Terminating, or Errored with the failure in the Error condition |
| `StopStatus.DeletionIsForGood` | controllers/workspace/devworkspace_controller.go:150-153 | over any run, a workspace being deleted only goes to Terminating or Errored, and nothing is made or scaled for it |
| `StopStatus.LostWriteKeepsStatus` | controllers/workspace/status.go:67-99 | a reconcile whose status write is lost changes no part of the status |
| `StopStatus.NothingBeforeId` | controllers/workspace/devworkspace_controller.go:155-166 | over any run, a workspace without an ID owns nothing, and reports nothing but that it could not get one |
| `Lifecycle.CleanupCompletesExactlyWhenSolelyOwned` | controllers/workspace/cleanup.go:30-104 | with clean-up on stop, some run reaches Stopped or Failed if and only if every listed object is owned by the workspace alone |
| `Lifecycle.SharedConfigMapBlocksStop` | controllers/workspace/cleanup.go:42-80 | a workspace whose last labelled configmap has another owner never finishes stopping |
| `Lifecycle.StopCompletes` | controllers/workspace/devworkspace_controller.go:641-692 | in every run of a stop without clean-up, whatever conflicts, lost writes, failing calls, debug toggles and replica moves lie between: once a scale-down was accepted, then the replicas drained, then a status written, the workspace is Stopped or Failed and stays so |
| `Lifecycle.CleanupCompletesEveryRun` | controllers/workspace/cleanup.go:30-104 | the same with clean-up on stop, for a workspace that alone owns what is listed: once a reconcile handled all of it, then a status was written |
| `Lifecycle.StopCanComplete` | controllers/workspace/devworkspace_controller.go:641-692 | without clean-up on stop, every workspace being stopped has such a run |
| `Lifecycle.ReconcileObserves` | controllers/workspace/devworkspace_controller.go:217-246 | whatever a reconcile is about to write, new types outside the condition order have different messages in it |
| `Lifecycle.ReconcileIgnoresMapOrder` | controllers/workspace/status.go:140-185 | a reconcile leaves the same state for every order in which Go iterates over its conditions |
| `WorkspaceController.Workspace.Reconcile` | controllers/workspace/devworkspace_controller.go:110-246 | the branches of Reconcile on the mutable workspace take exactly the step the theorems are about |
| `WorkspaceController.Workspace.StopWorkspace` | controllers/workspace/devworkspace_controller.go:610-639 | stopping writes phase and conditions together, keeps a stored failure, and does neither after an error |
| `WorkspaceController.Workspace.DoStop` | controllers/workspace/devworkspace_controller.go:641-692 | routing annotation, scale-down, conflicts and errors as the step function has them |
| `WorkspaceController.Workspace.DeleteWorkspaceOwnedObjects` | controllers/workspace/cleanup.go:30-104 | deletes, in listing order and up to a failing call, what the workspace alone owns; done only if nothing was listed |
| `WorkspaceController.Workspace.UpdateWorkspaceStatus` | controllers/workspace/status.go:67-99 | writes phase and synchronised conditions, or nothing if the write is lost |
| `WorkspaceController.Workspace.StartUp` | controllers/workspace/devworkspace_controller.go:217-246 | the start-up part with its deferred timeout check and status write |
| `WorkspaceController.Workspace.StopFailed` | controllers/workspace/devworkspace_controller.go:168-190 | a failing workspace told to run is told to stop, unless it is left for debugging or the patch fails |
| `WorkspaceController.Workspace.StartTimeout` | controllers/workspace/status.go:294-313 | times out exactly when a starting workspace's latest transition is too old, or the timeout does not parse |
| `WorkspaceController.Workspace.Finalize` | controllers/workspace/finalize.go:52-80 | what a finalizing reconcile writes, whether or not its finalizer removed the deployment or failed |
| `WorkspaceController.CurrentStatus.CheckStage` | controllers/workspace/devworkspace_controller.go:707-723 | a Waiting, Broken or Aborted outcome ends the reconcile and sets the stage's condition False with the outcome's message, a Broken one also phase Failing and FailedStart; any other outcome goes on, sets the condition of the stage True with its message unless an optional stage was skipped, and adds its warning; nothing else changes |
| `WorkspaceController.CurrentStatus.FailWorkspace` | controllers/workspace/devworkspace_controller.go:697-705 | sets phase Failing and FailedStart True with message and reason |
| `WorkspaceController.CurrentStatus.RunStages` | controllers/workspace/devworkspace_controller.go:248-607 | runs the stages in order until one ends the reconcile |
| `WorkspaceController.ConditionByType` | pkg/conditions/conditions.go:33-40 | finds the first condition of a type |
| `Conditions.WorkspaceStatus.SyncConditions` | controllers/workspace/status.go:101-188 | the three loops and the sort compute the synchronised conditions for any map order |
| `Conditions.UpdateStored` | controllers/workspace/status.go:104-138 | the first loop refreshes stored conditions and remembers types and warnings |
| `Conditions.AddMissing` | controllers/workspace/status.go:140-153 | the second loop adds observed types that were not stored |
| `Conditions.AddWarnings` | controllers/workspace/status.go:155-174 | the third loop reuses the stored warning with the same message |
| `Conditions.SyncKindCounts` | controllers/workspace/status.go:101-188 | a stored type keeps its number of occurrences and every other observed type appears exactly once |
| `Conditions.SyncTimestamps` | controllers/workspace/status.go:117-137 | a type stored once has exactly one successor, with the status, message and reason observed; unobserved it is Unknown and, unless it was, without message and reason; its time is the old one if status, message and reason are as they were, else the current one |
| `Conditions.SyncedIsOrdered` | controllers/workspace/status.go:176-185 | the result is in the condition order, types outside it first, and where places are equal no message is above the next one: equal, a prefix, or the smaller character at the first difference |
| `Conditions.SyncAdds` | controllers/workspace/status.go:140-153 | an observed type that was not stored appears exactly once, as observed, at the current time |
| `Conditions.SyncWarnings` | controllers/workspace/status.go:155-174 | there are as many warnings as observed ones, each made of an observed one and each observed one present; the time is that of a stored warning with that message if status and reason are the same, else the current one |
| `Conditions.SyncMembers` | controllers/workspace/status.go:101-188 | a condition is in the result if and only if it refreshes a stored one, is a new observed type or an observed warning |
| `Conditions.SyncIdempotentExactlyWhenSettled` | controllers/workspace/status.go:101-188 | synchronising again later with the same observations changes nothing at all, order included, if and only if warnings with one message agree and are True or already stored |
| `Conditions.SettledRunIsNoOp` | controllers/workspace/status.go:101-188 | the same for any later clock and any map order in the second run |
| `Conditions.RepeatedObservationKeepsStartTimeout` | controllers/workspace/status.go:294-313 | identical observations never move the time the start timeout is measured from |
| `Conditions.OrderIndependentExactlyWhenMessagesDiffer` | controllers/workspace/status.go:140-185 | the result is the same for every map order if and only if no two new types outside the condition order share a message |
| `Conditions.OrderCanMatter` | controllers/workspace/status.go:140-185 | an input to the function, though not one a reconcile passes, for which the map order shows in the result |
| `Conditions.OrderIndex` | controllers/workspace/condition.go:127-134 | the index at which the condition order holds the type, or -1 if it does not |
| `Conditions.StartTimedOut` | controllers/workspace/status.go:294-313 | times out exactly when some condition has a time and none is recent |
| `Conditions.FailingTimedOut` | controllers/workspace/status.go:319-338 | times out exactly when the last stored FailedStart condition is too old |
| `Conditions.LatestTransitionIsMaximum` | controllers/workspace/status.go:303-309 | the running maximum is the latest transition time |
| `Sorting.StableSortCorrect` | controllers/workspace/status.go:176-185 | the sort gives a sorted permutation that keeps the order within every class of equal elements |
| `Sorting.SortedIsDetermined` | controllers/workspace/status.go:176-185 | a sorted sequence is determined by its classes, so a stable sort has one possible result |
| `HttpClients.EveryCallGetsItsOwnCertificates` | controllers/workspace/http.go:101-130 | under any interleaving, a finished call returns a client that was built without certificates exactly if the call read none, and otherwise from a ConfigMap with the name, namespace and resource version the call itself read |
| `HttpClients.OneSnapshotOneClient` | controllers/workspace/http.go:101-166 | if all calls read ConfigMaps of one name, namespace and resource version, or none, at most one client is ever built |
| `HttpClients.ConsecutiveBuildsDiffer` | controllers/workspace/http.go:148-166 | two clients built one after the other differ in the name, namespace or resource version of their ConfigMaps, or one has none |
| `HttpClients.NoDeadlock` | controllers/workspace/http.go:104-129 | while a call is unfinished, some call can move |
| `HttpClients.WriterIsAlone` | controllers/workspace/http.go:111-129 | a call in the write section excludes all others from both sections |
| `HttpClients.NextKeepsInv` | controllers/workspace/http.go:101-166 | every step keeps locks, cached fields outside the write section, and the build log coherent |
| `Flatten.CycleDetectionIsExact` | pkg/library/flatten/flatten.go:80-158 | for every finite registry, success means no import path repeats a reference, and a reported cycle is an import path that does |
| `Flatten.SuccessMeansAcyclicFrom` | pkg/library/flatten/flatten.go:80-158 | the same from any point of the resolution |
| `Flatten.CycleReportFrom` | pkg/library/flatten/helper.go:44-57 | a reported cycle extends the path so far by a real import path |
| `Flatten.ResolvedIsFlattened` | pkg/library/flatten/common.go:20-40 | a resolved template has no parent, contributions or plugin components left |
| `Flatten.EveryElementIsAccounted` | pkg/library/annotate/plugins.go:27-58 | every element of the result is the workspace's own as written, or the parent's tagged `parent`, or entered through a chain of imports at any depth and is tagged with the outermost importing name; in name, body, contribution attributes and action it is an element of the template it came from, and its settings are that element's or what the overrides of the import of that template name for it |
| `Flatten.AccountedElementsSurvive` | pkg/library/flatten/flatten.go:80-158 | conversely every such element but merged volumes is in the result with that tag, body, attributes, action and settings |
| `Flatten.ResolvedKeysAreUnique` | pkg/library/flatten/flatten.go:150-158 | in a resolved template no component name and no key of a command or project occurs twice |
| `FlattenResult.ResolvedInOrder` | pkg/library/flatten/flatten.go:80-158 | the result lists the parent's elements, then those of each contribution and each plugin in turn, then the workspace's own, its commands and projects as they were written |
| `FlattenResult.SuccessMeansComplete` | pkg/library/flatten/flatten.go:160-213 | after a success every template on every import path exists, and so does its parent |
| `FlattenResult.MissingIsImported` | pkg/library/flatten/flatten.go:160-213 | a reference reported as not found is not there, and some import path leads to it or to a template whose parent it is |
| `FlattenResolver.RecursiveResolve` | pkg/library/flatten/flatten.go:80-158 | the code with its context tree terminates on every registry and computes the resolution for the path its context records |
| `FlattenResolver.ResolvePlugin` | pkg/library/flatten/flatten.go:130-146 | one iteration: fetch, extend the tree, check for a cycle, recurse, tag |
| `FlattenResolver.ResolveContributions` | pkg/library/flatten/flatten.go:85-103 | the loop over contributions |
| `FlattenResolver.ResolveComponents` | pkg/library/flatten/flatten.go:125-148 | the loop over components keeps own ones and resolves plugins |
| `FlattenResolver.ContextNode.HasCycle` | pkg/library/flatten/helper.go:44-57 | walking the parent pointers finds a cycle if and only if the path repeats a reference |
| `FlattenResolver.ContextNode.AddPlugin` | pkg/library/flatten/helper.go:34-42 | the new node's path is the parent's with the reference appended |
| `VolumeMerge.MergeVolumeComponents` | pkg/library/flatten/merge.go:55-97 | through its shared pointers the code leaves exactly the merged lists, and fails with the same error |
| `VolumeMerge.MergeVolume` | pkg/library/flatten/merge.go:99-126 | merging into a cell absorbs size and persistence of the other; where a size does not parse, only persistence has been merged |
| `VolumeMerge.MergedAcrossLists` | pkg/library/flatten/merge.go:55-97 | after merging, no volume name is left in two of main, parent and plugins |
| `VolumeMerge.MergedVolume` | pkg/library/flatten/merge.go:99-126 | each surviving volume has the maximum size of all definitions of its name and is persistent if and only if one of them is |
| `VolumeMerge.MergedVolumeMeans` | pkg/library/flatten/merge.go:55-126 | over the lists themselves: no earlier list defines the volume's name; no volume of that name in any list asks for more (a missing size counts as zero), one asks for just that size, and the volume is ephemeral exactly if all of them are |
| `VolumeMerge.MergeFailsExactly` | pkg/library/flatten/merge.go:55-126 | merging fails if and only if the devfile itself has two volumes of one name, or a name has two volumes over all lists and one of them a size that does not parse |
| `VolumeMerge.MergedList` | pkg/library/flatten/merge.go:55-97 | within each list the non-volume components keep their order and volume names are distinct |
| `VolumeMerge.EveryNameSurvives` | pkg/library/flatten/merge.go:55-97 | no volume name is lost |
| `VolumeMerge.MergedKeepsNonVolumes` | pkg/library/flatten/merge.go:55-97 | every other component stays as it was |
| `VolumeMerge.ListOrderDoesNotMatter` | pkg/library/flatten/merge.go:55-126 | size and persistence do not depend on the order of the plugins |
| `VolumeMerge.CombineIsMaximum` | pkg/library/flatten/merge.go:99-126 | combining definitions one by one gives the size of one of them, none of which is larger with missing sizes as zero, and is ephemeral exactly if all are |
| `VolumeMerge.StuckExactlyWhenUnmergeable` | pkg/library/flatten/merge.go:99-126 | merging hits an unreadable size if and only if a volume defined more than once has one |
| `ContributionMerge.NeededMergeHappens` | pkg/library/flatten/merge.go:178-223 | a needed merge that succeeds removes the contributions, keeps all other components in order, changes only the target, and every command that named a component still names one |
| `ContributionMerge.TargetIsFound` | pkg/library/flatten/merge.go:236-270 | if a merge is needed a target is found, and it is not a contribution |
| `ContributionMerge.ResourcesAreSummed` | pkg/library/flatten/merge.go:272-348 | each memory or CPU entry of the defaulted target becomes itself plus the contributions' entries, and no entry appears or vanishes |
| `ContributionMerge.MergedTemplateHasTheSum` | pkg/library/flatten/merge.go:178-348 | after a needed merge that succeeds, the template holds the target with its settings and the contributions' combined, and with each memory and CPU entry its defaulted value plus the sum of the contributions' |
| `ContributionMerge.CommandsStayValid` | pkg/library/flatten/merge.go:350-367 | a retargeted command names an existing component |
| `ContributionMerge.RebuiltInPlace` | pkg/library/flatten/merge.go:178-223 | the new list is the old one without contributions, changed only at the target |
| `ContributionMerge.MergeSkippedExactlyWhenTargetContributes` | pkg/library/flatten/merge.go:178-270 | a merge leaves contributions behind if and only if the target found is itself one |
| `ContributionMerge.OwnContributionBlocksMerge` | pkg/library/flatten/merge.go:178-270 | an input on which the merge is skipped |
| `ContributionMerge.NeedsMerge` | pkg/library/flatten/merge.go:138-176 | on the attributes of the containers: fails exactly when a contribution attribute does not parse, or a merge attribute without one does not, or two containers are marked as targets; otherwise a merge is needed exactly when a container is a contribution and another is marked, or unmarked and not imported by a plugin |
| `ContributionMerge.FindMergeTarget` | pkg/library/flatten/merge.go:236-270 | the first explicit target, else the first implicit one, else none |
| `ContributionMerge.TargetIsTheFirst` | pkg/library/flatten/merge.go:236-270 | the target is the first container marked for merging; failing that, the first named one that is not marked either way and was not imported by a plugin; failing that, there is none |
| `ContributionMerge.MergedTargetKeeps` | pkg/library/flatten/merge.go:272-348 | the merged target keeps its name, source and resources other than memory and CPU, and is neither contribution nor target any more |
| `ContributionMerge.CommandsFollowTheMerge` | pkg/library/flatten/merge.go:350-367 | after a merge, exec commands that named a contribution name the target and are otherwise unchanged, as is every other command; no apply command names a contribution |
| `ContributionMerge.RefusedExactlyForApply` | pkg/library/flatten/merge.go:350-367 | the commands are refused if and only if an apply command names a contribution |
| `ContributionMerge.Template.MergeContainerContributions` | pkg/library/flatten/merge.go:178-223 | rewrites components and commands in place as specified; on an error the components stay, and the commands too unless an apply command was refused, when the exec commands before it have been redirected |
| `ContributionMerge.RebuildComponents` | pkg/library/flatten/merge.go:193-213 | the loop that drops contributions and merges the target |
| `ContributionMerge.UpdateCommandTargets` | pkg/library/flatten/merge.go:350-367 | fails exactly at the first apply command that uses a contribution; exec commands that use one are redirected up to there and nothing after it is touched |
| `ClusterSync.Cluster.SyncObjectWithCluster` | pkg/provision/sync/sync.go:47-82 | one call, with its diff, deletion, creation and update, as the step function has it |
| `ClusterSync.Cluster.CreateObjectGeneric` | pkg/provision/sync/sync.go:137-152 | creates, or updates what exists but is not cached |
| `ClusterSync.Cluster.UpdateObjectGeneric` | pkg/provision/sync/sync.go:154-178 | updates with the version read, or deletes where the kind demands it |
| `ClusterSync.ThirdCallInSyncExactlyWhenReachable` | pkg/provision/sync/sync.go:47-82 | for a labelled specification and no other writer, the third and all later calls are in sync and change nothing if and only if the state is not an unlabelled Deployment with another selector |
| `ClusterSync.ConvergesExactly` | pkg/provision/sync/sync.go:47-82 | for every specification and every state, some call reports in sync if and only if the specification carries the watched label and the state is not an unlabelled Deployment with another selector, or it does not and the object is labelled and matches already |
| `ClusterSync.HiddenDeploymentNeverSyncs` | pkg/provision/sync/diff.go:101-108 | a state that no number of calls brings in sync |
| `ClusterSync.SettledForever` | pkg/provision/sync/sync.go:47-82 | two calls settle the object and every later one is a no-op |
| `ClusterSync.InSyncMeansMatches` | pkg/provision/sync/diff.go:56-108 | in sync means the object was not touched and the diff functions found nothing to update |
| `ClusterSync.InSyncExactlyWhenFulfilled` | pkg/provision/sync/diff.go:56-108 | for every specification and state, a call reports in sync, changing nothing, if and only if a labelled object is on the server and has, field by field, each annotation and label of the specification with its value, each of its owners by kind, name, UID and controller flag, and the data (ConfigMap), the selector and template (Deployment), or the selector, the ports of each name and the type where one is asked for (Service) |
| `ClusterSync.ThirdCallFindsFulfilled` | pkg/provision/sync/sync.go:47-82 | for a labelled specification and a reachable state, the object found by the third and every later call has all those fields |
| `ClusterSync.UpdateWrites` | pkg/provision/sync/update.go:36-68 | an update writes the specification's labels, annotations and owners with a new version; a Service keeps its cluster IP, and a ServiceAccount keeps every owner it had |
| `ClusterSync.SelectorChangeDeletes` | pkg/provision/sync/diff.go:101-108 | a Deployment whose selector has to change is deleted |
| `ClusterSync.MergedOwnersKeys` | pkg/provision/sync/update.go:54-68 | the merged owners are exactly those of specification and cluster |
| `ClusterSync.MergeOwners` | pkg/provision/sync/update.go:54-68 | the loop that appends the cluster's missing owners |
| `ClusterSync.MetadataDiff` | pkg/provision/sync/diff.go:64-86 | an update is required exactly when an annotation, label or owner of the specification is not on the cluster |
| `ClusterSync.ContainsOwnerRef` | pkg/provision/sync/diff.go:254-275 | finds a reference by kind, name, UID and controller flag, an unset flag counting as false |
| `SharedOwners.OwnersAreNeverDropped` | pkg/provision/sync/update.go:54-68 | over any interleaving of workspaces with lagging caches, every owner of the shared object, by kind, name, UID and controller flag, stays one |
| `SharedOwners.InSyncWorkspacesRemainOwners` | pkg/provision/sync/sync.go:154-178 | every workspace whose sync reported in sync stays an owner, by kind, name, UID and controller flag |
| `SharedOwners.NextKeepsInv` | pkg/provision/sync/update.go:54-68 | every read and every accepted or rejected write keeps the owners growing |
| `ServiceSync.ServicesConverge` | controllers/controller/devworkspacerouting/sync_services.go:31-73 | for distinct labelled specifications, from every state, the third and all later calls are in sync and change nothing, and the listed services are exactly the specified ones, each matching |
| `ServiceSync.InSyncExactlyWhenSettled` | controllers/controller/devworkspacerouting/sync_services.go:31-73 | a call reports in sync if and only if every listed service is specified and every specified one is visible and matches; it then changes nothing |
| `ServiceSync.OtherServicesUntouched` | controllers/controller/devworkspacerouting/sync_services.go:75-100 | a service that is neither specified nor labelled with the workspace's ID is left alone |
| `ServiceSync.OthersUntouchedThroughout` | controllers/controller/devworkspacerouting/sync_services.go:75-100 | nor does any number of calls touch it |
| `ServiceSync.InSyncExactly` | controllers/controller/devworkspacerouting/sync_services.go:31-73 | a call reports in sync if and only if each service labelled with the workspace's ID is specified and each specified one is there, labelled and with every field asked for |
| `ServiceSync.ServicesConvergeToSpecs` | controllers/controller/devworkspacerouting/sync_services.go:31-73 | from the second call on, the services labelled with the workspace's ID are exactly those specified, and each has every field asked for |
| `ServiceSync.FoundInOrder` | controllers/controller/devworkspacerouting/sync_services.go:50-73 | in sync, a call returns the services on the cluster in the order of the specifications |
| `ServiceSync.Reconciler.SyncServices` | controllers/controller/devworkspacerouting/sync_services.go:31-73 | the two loops compute the step the theorems are about; it fails exactly when listing, the deletion of a stale service or the call for a specified one fails, and then has deleted some stale services, or all of them and synchronised the services before the failing one, and touched nothing else |
| `ServiceSync.ServicesToDelete` | controllers/controller/devworkspacerouting/sync_services.go:92-100 | exactly the listed services that are not specified |
| `Automount.MergeProjectedVolumes` | pkg/provision/automount/projected.go:29-90 | the code computes the merged resources or the error |
| `Automount.GenerateProjectedVolume` | pkg/provision/automount/projected.go:92-156 | the projected volume of one path, or the error of its mounts |
| `Automount.CheckCanUseProjectedVolumes` | pkg/provision/automount/projected.go:158-181 | a problem exactly when a mount uses a sub-path or a claim |
| `Automount.GroupByPath` | pkg/provision/automount/projected.go:29-48 | mounts by path, paths in order of first use, and whether a path repeats |
| `Automount.FailsExactlyWhenUnmergeable` | pkg/provision/automount/projected.go:92-181 | merging fails if and only if a contested path has a mount with a sub-path, a claim or an unknown volume type |
| `AutomountResult.RefusedExactly` | pkg/provision/automount/projected.go:92-181 | merging fails if and only if two mounts share a path and one of them has a sub-path or a volume that is neither secret nor configmap |
| `AutomountResult.ErrorExplains` | pkg/provision/automount/projected.go:92-181 | the error names a path that is shared, and says whether a mount there uses a sub-path or claim or else a volume of unknown type |
| `AutomountResult.LookupIsLast` | pkg/provision/automount/projected.go:51-55 | a mount's volume is the last one of that name |
| `AutomountResult.UnsharedIsUnchanged` | pkg/provision/automount/projected.go:45-48 | without a shared path the resources are returned as they are |
| `AutomountResult.MergedMountsAscend` | pkg/provision/automount/projected.go:57-90 | otherwise the mounts come in strictly ascending order of their paths |
| `AutomountResult.SamePaths` | pkg/provision/automount/projected.go:57-90 | the paths of the result are those of the input, and environment sources are kept |
| `AutomountResult.MergedMount` | pkg/provision/automount/projected.go:57-131 | at a path of its own a mount stays as it is; at a shared path there is a read-only mount of a volume named for the path |
| `AutomountResult.ProjectedVolume` | pkg/provision/automount/projected.go:92-156 | that volume projects the source of each mount that shared the path, as often as it was asked for, configmaps first and each kind in ascending order of names |
| `Automount.MergedPathsAreDistinct` | pkg/provision/automount/projected.go:29-90 | output mount paths are distinct |
| `Automount.MergedIsClosed` | pkg/provision/automount/projected.go:29-90 | every output mount names an output volume, also where input volumes share names; output volume names are distinct where paths collided or the input's were |
| `Automount.MergingConserves` | pkg/provision/automount/projected.go:29-156 | the bag of (path, source) pairs that mounts expose is the same before and after, also where volumes share names and the last one counts |
| `Automount.OrderDoesNotMatter` | pkg/provision/automount/projected.go:29-156 | permuted input gives the same result where equal-looking sources are equal |
| `Automount.OrderIndependentExactlyWhenDetermined` | pkg/provision/automount/projected.go:29-156 | with a stable sort, on colliding input that merges, the result is the same for all permutations if and only if sources that compare equal at one path are equal |
| `Automount.OrderCanMatter` | pkg/provision/automount/projected.go:133-145 | an input to the function, though not one the operator passes, whose result depends on its order |
| `Automount.AnySortAgrees` | pkg/provision/automount/projected.go:133-145 | where sources that compare equal are equal, any sort, stable or not, gives the stable one's result |
| `Automount.SortIsUniqueExactlyWhenDetermined` | pkg/provision/automount/projected.go:133-145 | a sort, stable or not, has one possible result if and only if sources that compare equal are equal |
| `AutomountListing.ListingConservedExactlyUnlessHidden` | pkg/provision/automount/common.go:87-126 | for every listing of configmaps and secrets that merges, the result makes visible exactly what was to be mounted, each as often, if and only if no mounted configmap has the name of a listed secret |
| `AutomountListing.ClashHides` | pkg/provision/automount/projected.go:92-131 | a configmap and a secret of one name at one path give a volume that projects the secret twice |
| `AutomountListing.ListingDetermined` | pkg/provision/automount/configmap.go:88-101 | in a listing, also with shared names, sources that compare equal at one path are equal |
| `AutomountListing.ListingOrderDoesNotMatter` | pkg/provision/automount/common.go:87-126 | the orders in which the cluster lists configmaps and secrets never show in a merged result, also with shared names |
| `AutomountListing.SameNameHidesConfigMap` | pkg/provision/automount/common.go:87-126 | a listing that merges and loses a configmap |
| `Storage.PodAdditions.ProvisionStorage` | pkg/provision/storage/commonStorage.go:47-98 | succeeds exactly when the claim is there, pod overrides can be read, volume names are distinct, ephemeral sizes parse and every mount names a known volume; then mounts are the rewritten ones, the volumes are the old ones, the emptyDirs and the claim, and every container mount names a declared pod volume or an override volume; after an error the mounts before the undefined one, if that was it, are rewritten |
| `Storage.RewriteVolumeMounts` | pkg/provision/storage/commonStorage.go:135-213 | the nested loops rewrite the devfile mounts up to the first that names no known volume, and fail exactly if there is one |
| `Storage.MountsShareExactlyByVolume` | pkg/provision/storage/commonStorage.go:135-213 | two devfile mounts share a backing location if and only if they named the same devfile volume |
| `Storage.WorkspacesDoNotShare` | pkg/provision/storage/commonStorage.go:188-191 | sub-paths of different workspaces never coincide, even when one ID is a prefix of the other |
| `Storage.RewrittenMount` | pkg/provision/storage/commonStorage.go:170-195 | a mount of a persistent devfile volume, or of projects where the devfile defines none, becomes a mount of the claim at the same path with sub-path ID/name; every other mount stays as it is |
| `Storage.ClaimMountsDoNotShare` | pkg/provision/storage/commonStorage.go:170-195 | two such mounts, of any two workspaces, have one sub-path of the claim if and only if workspace and volume are the same |
| `Storage.AllDefinedMeans` | pkg/provision/storage/commonStorage.go:135-180 | mounts are accepted if and only if each names projects, a volume of the devfile, of the pod or of the overrides |
| `Storage.EphemeralGetsEmptyDir` | pkg/provision/storage/shared.go:144-186 | with distinct names and sizes that parse, each ephemeral volume gets an emptyDir of its name and size, and there are as many emptyDirs as ephemeral volumes |
| `Storage.WorkspaceNeedsStorage` | pkg/provision/storage/shared.go:42-61 | storage is needed if and only if a non-ephemeral volume is declared, or a container mounts sources and no projects volume is declared |
| `Storage.GetWorkspaceVolumes` | pkg/provision/storage/shared.go:188-213 | persistent and ephemeral volumes other than projects, each in order, and the last volume named projects |
| `Storage.PodAdditions.AddEphemeralVolumes` | pkg/provision/storage/shared.go:144-186 | appends, in order and with their sizes, the emptyDirs of the ephemeral volumes, projects last, up to the first whose size does not parse; fails exactly if there is one |
| `Storage.EphemeralVolumesMembers` | pkg/provision/storage/shared.go:144-213 | with distinct names the volumes that get an emptyDir are exactly the ephemeral ones |
| `StorageCleanup.LiveFilesSurvive` | pkg/provision/storage/commonStorage.go:100-129 | over any run whose jobs are those of plain or refused IDs, what a workspace wrote stays on the claim as long as the workspace is live |
| `StorageCleanup.OtherIdsDestroyFiles` | pkg/provision/storage/cleanup.go:169-174 | for every slash-free ID whose reading settles what rm runs on, and that is neither plain nor read as dot or dot-dot, there is a run in which a live workspace loses a file its job is sure to remove |
| `StorageCleanup.ClaimLastsWhileUsed` | pkg/provision/storage/commonStorage.go:100-129 | over any run, the claim lasts as long as there is at every moment some live workspace that uses it |
| `StorageCleanup.GoneWorkspacesLeaveNothing` | pkg/provision/storage/cleanup.go:57-111 | over any run, a workspace with a plain ID that is gone has left no file on the claim |
| `CleanupJob.PlainJobRemoves` | pkg/provision/storage/cleanup.go:169-174 | the job of a plain ID is sure to remove the files of its own workspace and can remove no other's, also where one ID is a prefix of another |
| `CleanupJob.PlainJobReads` | pkg/provision/storage/cleanup.go:169-174 | the shell reads a plain ID's command as rm, -rf and the workspace's path, and nothing else |
| `CleanupJob.CleansExactlyItsOwnWhenPlain` | pkg/provision/storage/cleanup.go:169-174 | for every slash-free ID whose reading settles what rm runs on, the job is sure to remove exactly its own workspace's files if and only if the ID is plain: not empty, `.` or `..`, and with nothing in it that the shell would not read as itself |
| `CleanupJob.HarmfulExactlyUnlessPlainOrDot` | pkg/provision/storage/cleanup.go:169-174 | for every such ID, the job is sure to remove a file of another workspace, for something that may be on the claim, if and only if the ID is neither plain nor read as dot or dot-dot |
| `CleanupJob.IsolatedWhenPlainOrRefused` | pkg/provision/storage/cleanup.go:169-174 | the job of a plain ID, or of one whose only operand reads as dot or dot-dot, can remove no other workspace's file, whatever is on the claim |
| `CleanupJob.DottedJobRemovesEverything` | pkg/provision/storage/cleanup.go:169-174 | the job of an empty ID, `.` or `..` removes every file |
| `CleanupJob.BlankSplitsId` | pkg/provision/storage/cleanup.go:169-174 | the job of `a b` is sure to remove the files of workspace `a`, and is not sure to remove its own |
| `CleanupJob.StarRemovesEverything` | pkg/provision/storage/cleanup.go:169-174 | the job of `*` is sure to remove the files of every workspace whose ID has no leading period |
| `CleanupJob.UnsettledIds` | pkg/provision/storage/cleanup.go:169-174 | IDs whose reading does not settle what rm runs on: syntax errors, braces, and words rm would take for options |
| `CleanupJob.GeneratedIdsArePlain` | controllers/workspace/devworkspace_controller.go:783-788 | the IDs the operator generates are plain |
| `StorageCleanup.CountShared` | pkg/provision/storage/shared.go:249-267 | counts the workspaces that are not terminating and use the shared claim |
| `StorageCleanup.Namespace.CleanupWorkspaceStorage` | pkg/provision/storage/commonStorage.go:100-129 | one finalizer reconcile: delete the claim, start or await the job, or finish; the claim goes only when no listed workspace is live and uses it; it waits for ever on a failed job and changes nothing if a call fails |
| `Resources.ApplyDefaults` | pkg/library/resources/helper.go:162-219 | the loops and branches compute the defaulted resources |
| `Resources.ApplyCaps` | pkg/library/resources/helper.go:223-255 | the loops and branches compute the capped resources |
| `Resources.DefaultsKeepDeclared` | pkg/library/resources/helper.go:162-219 | a declared entry is never altered, and an entry is there exactly when it was declared or its default is not zero |
| `Resources.DefaultedValue` | pkg/library/resources/helper.go:162-219 | a defaulted entry has the default value, except that for memory and CPU a limit is raised to a declared request and a request lowered to a declared limit |
| `Resources.DefaultsIdempotent` | pkg/library/resources/helper.go:162-219 | applying defaults twice is applying them once |
| `Resources.DefaultsValidExactlyWhenNotInverted` | pkg/library/resources/helper.go:162-219 | the result is valid if and only if none of three inversions of declared and default values occurs; valid resources without zero limits and valid defaults give valid resources |
| `Resources.DefaultsCanInvert` | pkg/library/resources/helper.go:162-219 | valid resources and valid defaults that give invalid resources |
| `Resources.CapsRespected` | pkg/library/resources/helper.go:223-295 | no entry is left above a non-zero cap, and none appears or disappears |
| `Resources.CappedValue` | pkg/library/resources/helper.go:223-295 | every entry becomes the smaller of itself and its cap, except that where this leaves a memory or CPU limit below its request, and just one of them has a cap and is at it, the other is set to that cap |
| `Resources.WithinCapsIsLeftAlone` | pkg/library/resources/helper.go:223-295 | a request and limit within their caps, the request not above the limit, are left alone |
| `Resources.CapsIdempotent` | pkg/library/resources/helper.go:223-295 | applying caps twice is applying them once |
| `Resources.CapsPreserveValidity` | pkg/library/resources/helper.go:257-311 | valid resources with valid caps stay valid |
| `ShellQuoting.EscapedReadsBack` | pkg/library/lifecycle/poststart.go:104-109 | reading the quoted form of any script by the shell's quoting rules (sections 2.2.1 and 2.2.2 of the Shell Command Language, IEEE Std 1003.1-2017) gives the script back |
| `ShellQuoting.QuotedWordIsTheScript` | pkg/library/lifecycle/poststart.go:104-109 | it is one word, equal to the script |
| `ShellQuoting.HookRunsTheScript` | pkg/library/lifecycle/poststart.go:226-243 | the hook's line runs the words its timeout part expands to, if any, then /bin/sh with exactly the arguments -c and the user's script, whatever follows the line |

## Left out

- Webhook server and configuration, RBAC creation, process set-up and `project-clone`: input and output, not algorithms.
- Strategic and JSON merges (container overrides, init containers, security contexts): wrappers over libraries that are not part of this model.
- `SyncUnrecognizedObjectWithCluster`: it swaps the delete and update flags of its diff function (pkg/provision/sync/sync.go:102, pkg/provision/sync/diff.go:250), so code and comment disagree.
- `podDiffFunc`: it compares pointers rather than values, so pods do not converge.
- The first-creation race on a shared ServiceAccount: that path updates without a resource version, so the owner theorems are about an existing, visible object.
- `syncRoutes`: shaped like `syncServices`, but lists a route once for each owner reference.
- The alternate claim, asynchronous storage and per-workspace claims; configuration merging, metrics and cron scheduling.
- Automount collision checks and the reading of automount objects (pkg/provision/automount/common.go): comparisons of names and paths that nothing here builds on.
- Status messages and error texts, including capitalisation and the spelled-out import cycle; of errors only the kind, and the cycle's path, is kept.
- Lifecycle.Provision: the start-up part is a table of its successive stages, each with the conditions it sets; consecutive checks that set no condition and fail alike (lines 335 to 456) are one stage, and a stage may end in any way, so the theorems cover more behaviours than the code has.
- Lifecycle.Reconcile: reads of a stale cache within a reconcile are not modelled; a write based on one is a lost write.
- WorkspaceController.Workspace.Finalize: which finalizers there are, and their order, is reduced to whether the one that ran removed the deployment or failed.
- HttpClients: building a client and reading the ConfigMap are single steps, and the health-check client is not modelled.
- VolumeMerge.MergeVolumeComponents: returns the new component lists instead of assigning them to the contents' fields.
- ContributionMerge: that merging into the target also writes to the contributions' own containers, which are then dropped.
- Storage and Automount: text forms of names are taken as they are; truncation and hashing of names is an injective function.
- ClusterSync: sorting of service ports is stable, which Go's sort.Slice does not promise for ports with one name.
- Automount.OrderIndependentExactlyWhenDetermined: its only-if half is about a stable sort, where `sort.Slice` may happen to hide the order; `SortIsUniqueExactlyWhenDetermined` is the statement for every sort.
- Resources: the text form of quantities, and the difference between a nil and an empty map.
- ShellQuoting: how the container runtime passes the hook to the shell, and the splitting of the timeout part into words, which are given.
- CleanupJob.HarmfulExactlyUnlessPlainOrDot: IDs with expansions, braces, bracket expressions, redirections or control operators, and IDs that give rm options, are left open; only the safe direction is claimed of them.
