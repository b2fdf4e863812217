# MetalK8s: models and proofs

A Dafny 4.11 model of the parts of MetalK8s whose behaviour is hardest to see from
one function at a time, with proofs of what they promise. Verify it with
`dafny verify dfyconfig.toml`.

- `Cluster.dfy`, `DrainPlan.dfy`, `DrainTrace.dfy`, `Drain.dfy`: draining a node. The cluster is an
  object that anybody may change, and whose clock may advance, before every call; it keeps the
  history of its states and the trace of the calls made to it. The plan is a function of the listing
  and of the answers about controllers; results are about the trace of a whole run.
- `PackageClosure.dfy`: the worklist traversal that collects a package and all it depends on,
  against reachability in the graph of chosen versions, which may be cyclic.
- `Volumes.dfy`: the present, prepared and removed states over the disks of a host, and what any
  sequence of them keeps. Which system calls fail is a parameter of each call.
- `Names.dfy`, `Conversion.dfy`: translating attribute names, and casting manifests to the typed
  objects that a (possibly cyclic) set of models describes.
- `Sysctl.dfy`: which sysctl files count, and whether a value written in one of them stays.
- `Ports.dfy`, `Routes.dfy`: the node checks on listening processes and on routes.
- `SaltClient.dfy`: the token of a Salt API client and what one request may cause.
- `FileTree.dfy`, `JobHandle.dfy`: the order in which directories are made, and the text form of a job.

Where the code and its documentation differ, the model follows the code:

- `unreplicated_filter` is documented to raise for a pod without a controller unless `force` is set
  (salt/_modules/metalk8s_drain.py:199-200); it accepts such a pod with a warning (215-217). Only a
  reference to a controller that does not exist raises.
- `run_drain` is documented to raise `CommandExecutionError`; when the second planning, made to report
  what remains, fails, its `DrainException` escapes (376, 382). See `IncompleteUndeletable`.
- A pod whose specification lists no volumes (`None`) makes `_has_local_storage` fail with a type error (84),
  which nothing catches: `Abort`.
- `select_package_version` is documented to take the newest version when none is given; for a root given
  without `=` it takes the first one listed (packages/debian/common/download_packages.py:149-156).
- The directories of a file tree are sorted from the root to the leaves, not the reverse
  (buildchain/buildchain/targets/file_tree.py:164).
- After a second rejection the Salt client keeps the rejected token, and it panics if the second request
  gets no response, because that error is not looked at (storage-operator/pkg/salt/client.go:320-322).
- `_convert_attribute_name` is not idempotent, and a manifest may name an attribute by two keys, of which the
  conversion keeps one without a word (salt/_utils/kubernetes_utils.py:887-894, 690-709).
- A missing `/etc/sysctl.conf` is an error of the sysctl check, since it is always listed
  (salt/_modules/metalk8s_sysctl.py:53, 97).

## Model

| member | source | states |
|---|---|---|
| `Drain.NodeDrain` | salt/_modules/metalk8s_drain.py:531-568 | The first call is the cordon, and without it nothing else is called; a completed drain evicted every planned pod in plan order and later saw it gone; if uids are never reused, no planned pod is left in the cluster when it returns; an incomplete one is a first planning, the drain of its plan and a second planning, which is what it reports |
| `Drain.Drainer.RunDrain` | salt/_modules/metalk8s_drain.py:336-387 | All or nothing: no eviction on a dry run or when planning fails, evictions follow the plan and precede any polling, at most floor(T/5)+1 retries and T+2 polling passes; the plan is what the filters select from the listing of the node with the answers the cluster gave; the calls of an incomplete drain are those of a first planning, of the drain of its plan, which ran out of time or met a call that failed, and of a second planning, made last, whose outcome is the report |
| `Drain.NoPlannedPodLeft` | salt/_modules/metalk8s_drain.py:372-450 | From the calls of a completed drain and the whole history of the cluster: without uid reuse no planned pod is in the last state |
| `Drain.ReportedPodsAreLeft` | salt/_modules/metalk8s_drain.py:375-386 | The pods that an incomplete drain reports are those on the node, but for static ones and those of a DaemonSet, in a state that was listed when all its evictions and polling were over |
| `Drain.ExistingControllerAllows` | salt/_modules/metalk8s_drain.py:219-251 | If the object that controls a pod is there in every state of the history, no run refuses to drain because the controller of that pod is missing |
| `Drain.MissingControllerBlocks` | salt/_modules/metalk8s_drain.py:219-254 | If it is there in none and the pod has not ended, no run without `force` gets past its planning, nor evicts anything |
| `DrainTrace.SeenGoneStaysGone` | salt/_modules/metalk8s_drain.py:434-437 | A pod listed, then read as absent or with another uid, is not in any later state when uids are not reused |
| `Drain.Drainer.EvictPods` | salt/_modules/metalk8s_drain.py:389-411 | Each pod is evicted until accepted before the next one is; on success exactly the planned pods were accepted, in order, and each was seen gone afterwards; a timeout means that the time is over |
| `DrainTrace.EvictingOnce` | salt/_modules/metalk8s_drain.py:399-409 | One eviction call, made in time, keeps the discipline and the bound on retries: an accepted one moves to the next pod, a rejected one stays on it and waits |
| `DrainTrace.EvictThenWait` | salt/_modules/metalk8s_drain.py:398-411 | Evictions followed by polling: order, bounds and, for each pod seen gone, acceptance before that |
| `DrainTrace.PlanAround` | salt/_modules/metalk8s_drain.py:350-386 | Planning before or after a drain changes neither its evictions nor its bounds |
| `DrainTrace.BoundsMean` | salt/_modules/metalk8s_drain.py:398-468 | In numbers: at most floor(timeout / 5) + 1 retries and floor(timeout) + 2 passes, and none of either for a negative timeout |
| `Drain.Drainer.WaitForEviction` | salt/_modules/metalk8s_drain.py:413-450 | Success means that every pod was read as gone; the polled list only shrinks, to a subsequence of itself; few passes |
| `Drain.Drainer.PollOnce` | salt/_modules/metalk8s_drain.py:425-445 | One pass reads every pending pod once, in order, and keeps exactly those still there with the same uid |
| `DrainTrace.StillThereMeaning` | salt/_modules/metalk8s_drain.py:434-445 | What stays pending is a subsequence of what was pending, and what leaves it was read as gone |
| `DrainTrace.PassEnds` | salt/_modules/metalk8s_drain.py:447-450 | After a pass, every pod that is no longer pending was seen gone, and the pending list is a subsequence of all earlier ones |
| `DrainTrace.PassTicks` | salt/_modules/metalk8s_drain.py:422-425 | A pass that starts with a tick while there is time keeps the bound on passes |
| `Drain.Drainer.EvictPod` | salt/_modules/metalk8s_drain.py:471-528 | Created and 404 are acceptance, 429 is retry, anything else is an error, and so is a 429 whose message cannot be read: that error is of another kind and ends the whole run, as nothing catches it |
| `Drain.Drainer.CheckTimer` | salt/_modules/metalk8s_drain.py:455-460 | Goes on exactly while the elapsed time is within the timeout |
| `Drain.Drainer.Tick` | salt/_modules/metalk8s_drain.py:462-468 | Two ticks are at least one interval apart |
| `Drain.Drainer.constructor` | salt/_modules/metalk8s_drain.py:154-170 | No timeout, or zero, means 2^64 - 1 seconds |
| `Drain.Drainer.GetPodsForEviction` | salt/_modules/metalk8s_drain.py:296-334 | Planning fails exactly when some filter refuses some listed pod, naming for each reason the refused pods in order; otherwise it gives the in-order selection of pods that all filters call deletable; each answer it goes by is about the pod's own controller |
| `Drain.Drainer.ExaminePod` | salt/_modules/metalk8s_drain.py:311-328 | The variables left over from the previous filter after an exception never influence a planning that succeeds |
| `Drain.Drainer.RunFilter` | salt/_modules/metalk8s_drain.py:179-294 | A filter asks the cluster about the pod's controller when it needs to, and decides from the answer; it asks for the kind, name and version of the first owner reference that is marked as controller, in the namespace of the pod |
| `DrainPlan.RefusedMeansBlocks` | salt/_modules/metalk8s_drain.py:179-294 | The four filters together refuse a pod exactly when there is a reason against it |
| `DrainPlan.RefusedForMeans` | salt/_modules/metalk8s_drain.py:172-294 | Each reason, by the fields of the pod: local data, a controller that is missing, an existing DaemonSet, against the options |
| `DrainPlan.FailuresAreReasons` | salt/_modules/metalk8s_drain.py:318-331 | The error of a failed planning gives exactly the reasons that some listed pod has |
| `DrainPlan.AbortedMeans` | salt/_modules/metalk8s_drain.py:76-87 | Planning breaks on a pod without a list of volumes, or when a lookup that is needed fails |
| `DrainPlan.WarnedWithMeans` | salt/_modules/metalk8s_drain.py:179-294 | When a drain warns, and of what: each option that was needed, and pods without a controller |
| `DrainPlan.ControllerOfIsFirst` | salt/_modules/metalk8s_drain.py:90-104 | The controller is the first owner reference that says so |
| `DrainPlan.DeletableMeansLeaves` | salt/_modules/metalk8s_drain.py:61-74 | A pod that no filter refuses is deletable unless it is static or run by an existing DaemonSet |
| `DrainPlan.PlanIsAllThatLeaves` | salt/_modules/metalk8s_drain.py:310-334 | The plan is exactly the listed pods that do not stay, whatever the options |
| `DrainPlan.PlanningFailsExactlyWhen` | salt/_modules/metalk8s_drain.py:318-331 | No plan exactly when some listed pod blocks the drain or cannot be examined |
| `DrainPlan.OptionMonotonicity` | salt/_modules/metalk8s_drain.py:179-294 | More options, with the same answers, keep a successful planning successful and its plan identical |
| `DrainPlan.GroupsHoldTheRemarks` | salt/_modules/metalk8s_drain.py:320-324 | Grouping by message forgets no pod, invents none and keeps their order |
| `DrainPlan.RefusalsEmpty` | salt/_modules/metalk8s_drain.py:330-331 | There is a failure to report exactly when some pod is refused |
| `Cluster.World.ListPods` | salt/_modules/metalk8s_drain.py:302-308 | The listing holds each pod of the node once |
| `Cluster.World.QueryController` | salt/_modules/metalk8s_drain.py:219-236 | The answer is true of the state that gave it |
| `Cluster.World.CreateEviction` | salt/_modules/metalk8s_drain.py:496-508 | One eviction call, recorded with its reply |
| `Cluster.World.ReadPod` | salt/_modules/metalk8s_drain.py:427-433 | The uid read is the one in the state that gave it |
| `PackageClosure.GetPackageDeps` | packages/debian/common/download_packages.py:131-167 | Terminates on any graph; the root's version is among the result, and it is the first one listed that holds the text asked for; that no version holds it is one error, which occurs exactly then; an error is that of something reachable that cannot be chosen; the result holds only versions of the closure and, when checksums identify versions, exactly the closure, and then everything reachable was found |
| `PackageClosure.DownloadAll` | packages/debian/common/download_packages.py:187-190 | The union of the closures of all roots, or the error of one of them |
| `PackageClosure.ClosureIsClosed` | packages/debian/common/download_packages.py:134-145 | The closure holds the root's version and the chosen version of every non-virtual need of its members |
| `PackageClosure.ClosureIsLeast` | packages/debian/common/download_packages.py:134-145 | Any set that holds the root's version and is closed holds the closure |
| `PackageClosure.FailingIsIncomplete` | packages/debian/common/download_packages.py:154-166 | The closure is complete exactly when no reachable package fails to be chosen |
| `PackageClosure.AllVisited` | packages/debian/common/download_packages.py:152-166 | With an empty stack, every package on any path from the root was visited |
| `PackageClosure.FoundIsClosure` | packages/debian/common/download_packages.py:152-167 | A traversal that ends has found the closure, and nothing is missing |
| `PackageClosure.TraversalVisits` | packages/debian/common/download_packages.py:152-166 | Visiting a package keeps what the traversal keeps and uses up a checksum, which is its termination measure |
| `PackageClosure.TraversalPops` | packages/debian/common/download_packages.py:157-159 | Skipping a package already filed keeps what the traversal keeps |
| `PackageClosure.PushNeeds` | packages/debian/common/download_packages.py:162-166 | All non-virtual needs are pushed, or one is not in the cache and the closure is incomplete |
| `PackageClosure.FlattenHoldsAll` | packages/debian/common/download_packages.py:161-162 | Flattening keeps every alternative of every group |
| `PackageClosure.NewestIsNewest` | packages/debian/common/download_packages.py:48-49 | Without a wanted version the newest one is chosen |
| `PackageClosure.FirstContainingIsFirst` | packages/debian/common/download_packages.py:50-57 | With one, the first listed version containing it is, and it fails only if there is none |
| `PackageClosure.PartitionIsFirst` | packages/debian/common/download_packages.py:149 | The name is what comes before the first `=` |
| `PackageClosure.NamedVersion` | packages/debian/common/download_packages.py:149 | `name=version` is read as that name and that version |
| `PackageClosure.RootChosen` | packages/debian/common/download_packages.py:50-57 | For the root: the version chosen is listed, holds the text asked for as a part, and nothing listed before it does; the error is that no listed version holds it |
| `PackageClosure.DependencyChosen` | packages/debian/common/download_packages.py:48-49 | For any other package: a version listed than which none is newer, the last of equally new ones |
| `PackageClosure.RootWithoutVersion` | packages/debian/common/download_packages.py:149-156 | A root given without `=` takes the first listed version, so the newest one exactly when that is listed first |
| `PackageClosure.OldestTaken` | packages/debian/common/download_packages.py:149-156 | It does happen: with an older version listed first, the root takes the older one and a dependency on the same package the newer one |
| `Volumes.Host.EnsurePresent` | salt/_states/metalk8s_volumes.py:16-47 | Success means that the storage exists, and if it exists the state succeeds and does nothing; nothing that was at a path is touched; it raises exactly for an unknown volume or a size that cannot be compared; the call is a step of the log, of which the run theorems below speak, whatever the outcome of the system calls |
| `Volumes.Host.EnsurePrepared` | salt/_states/metalk8s_volumes.py:50-81 | Success means that the device holds data; no device that held data is touched, and no place but the volume's; it raises exactly when there is nothing to probe or the probe fails; the call is a step of the log |
| `Volumes.Host.EnsureRemoved` | salt/_states/metalk8s_volumes.py:84-115 | Success, for real, means that there is no sparse file of the declared size; the call is a step of the log |
| `Volumes.ReportsChanges` | salt/_states/metalk8s_volumes.py:16-115 | A state reports a change exactly when it succeeded in changing something; test mode changes nothing |
| `Volumes.SparsePathsDiffer` | salt/_modules/metalk8s_volumes.py:271-273 | Sparse volumes with different uuids have different files |
| `Volumes.LogicalPathsDiffer` | salt/_modules/metalk8s_volumes.py:446-456 | Logical volumes are one device only for the same name in the same group |
| `Volumes.Host.Prepare` | salt/_modules/metalk8s_volumes.py:236-259 | The device is formatted exactly if it is blank and the storage class is usable, and otherwise left alone; on success it carries the volume's uuid, or the one that the options of `mkfs` set instead |
| `Volumes.Host.CreateSparse` | salt/_modules/metalk8s_volumes.py:283-296 | A new file of exactly the declared size, or the disk as it was, but for an empty file when truncation and removal both fail |
| `Volumes.Host.CreateLogicalVolume` | salt/_modules/metalk8s_volumes.py:464-486 | A new logical volume exactly when nothing is in its place and LVM creates it, or nothing changed |
| `Volumes.Host.CleanUp` | salt/_modules/metalk8s_volumes.py:306-312 | Only the volume's own sparse file is ever removed |
| `Volumes.StepKeepsData` | salt/_modules/metalk8s_volumes.py:239-249 | No state changes a device that holds a file system or a partition table, but for deleting a volume's own sparse file |
| `Volumes.DataSurvives` | salt/_modules/metalk8s_volumes.py:236-259 | Over any run on any volumes, a device that holds data keeps it as long as nothing deletes it |
| `Volumes.PreparedCarries` | salt/_modules/metalk8s_volumes.py:231-259 | After a successful preparation the device holds data and carries a uuid: the volume's own exactly unless it was just formatted with options that set another |
| `Volumes.PreparedOver` | salt/_modules/metalk8s_volumes.py:231-247 | Preparing over a device that carries a uuid changes nothing, and succeeds only for that uuid |
| `Volumes.PreparedForever` | salt/_modules/metalk8s_volumes.py:231-259 | Once a volume is prepared its device never changes again in a run; preparing any volume on the same device changes nothing, and succeeds only for the volume whose uuid is there |
| `Volumes.SizeOverRun` | salt/_modules/metalk8s_volumes.py:279-296 | Over any run, a file of a certain size goes only by removing a volume that declares that size and path and, unless it is empty, comes only by making such a volume present |
| `Volumes.PresentForever` | salt/_modules/metalk8s_volumes.py:279-296 | Once a sparse volume was made present, any run without its removal keeps its file, of exactly the declared size, and making it present again does nothing |
| `Volumes.RemovedForever` | salt/_modules/metalk8s_volumes.py:302-312 | Once it was removed, in any run that does not make it present there is no file of the declared size, and removing it again does nothing |
| `Volumes.LeftEmptyForever` | salt/_modules/metalk8s_volumes.py:283-296 | If truncation and removal of a new file both fail, no run of any states ever removes the empty file, and the volume can never be made present |
| `Volumes.SparseVolumesApart` | salt/_modules/metalk8s_volumes.py:271-312 | Over any run, no state of a sparse volume makes, removes or resizes the file of another one with a different uuid |
| `Volumes.EachHasItsOwn` | salt/_modules/metalk8s_volumes.py:271-281 | So what is done to other sparse volumes never makes a sparse volume present or absent |
| `Names.ConvertAttributeName` | salt/_utils/kubernetes_utils.py:859-893 | The two successive substitutions are one local rule: an underscore at every boundary of the key, then lower case |
| `Names.SplitWordsIsLocal` | salt/_utils/kubernetes_utils.py:892-893 | The first substitution, whose matches do not overlap, finds every lower-case letter followed by a capital or digit |
| `Names.SplitAcronymsIsLocal` | salt/_utils/kubernetes_utils.py:892-893 | The second one, whose matches are three characters long, misses none either |
| `Names.BothAtOnce` | salt/_utils/kubernetes_utils.py:892-893 | The second substitution sees the boundaries of the original key, as the first hides and makes none |
| `Names.TranslationKeepsLetters` | salt/_utils/kubernetes_utils.py:892-894 | Up to underscores, translation only changes the case |
| `Names.DocumentedNames` | salt/_utils/kubernetes_utils.py:868-886 | Documented examples of words, acronyms, keywords and `$` |
| `Names.NotIdempotent` | salt/_utils/kubernetes_utils.py:892-894 | Translating twice may differ from translating once |
| `Names.IdempotentExactlyWhen` | salt/_utils/kubernetes_utils.py:887-894 | For every key, translating twice is translating once exactly when: a keyword has no capital; what follows a `$` is no special case and has no capital and no boundary; for any other key, the name is no keyword and nothing in the key is unstable (a capital stuck to a digit, or two digits to a capital) |
| `Conversion.CastValue` | salt/_utils/kubernetes_utils.py:718-798 | Succeeds exactly on values that conform to the type, always ends, and gives an object of that type all the way down, or the error of the first bad element; the data of the result is what is kept of the manifest, one entry for each attribute, and it is all of the manifest, with keys renamed, exactly when the entries that name one attribute agree, at any depth |
| `Conversion.BuildStandardObject` | salt/_utils/kubernetes_utils.py:674-711 | The same for models, whatever the order of the entries: each attribute holds one of the entries that name it; only value errors leave it |
| `Conversion.CastDict` | salt/_utils/kubernetes_utils.py:766-775 | The same for dictionaries with text keys: every entry is kept under its key |
| `Conversion.CastList` | salt/_utils/kubernetes_utils.py:777-783 | The same for lists: every item is kept, in order |
| `Conversion.AttributeOfMeans` | salt/_utils/kubernetes_utils.py:688-692 | A key names the attribute of the last pair of the attribute map that has it, and a key that no pair has names itself |
| `Conversion.NamedManifestConforms` | salt/_utils/kubernetes_utils.py:690-709 | A manifest keyed by the names of the attribute map conforms exactly when each value conforms to the type declared for its own attribute |
| `Conversion.NamedManifestKept` | salt/_utils/kubernetes_utils.py:690-711 | What is built from it is each value under its own attribute, and nothing else |
| `Conversion.RenamingIsUnique` | salt/_utils/kubernetes_utils.py:690-709 | A manifest has one renaming at most, so a conversion keeps that data and no other |
| `Conversion.SameDataExactlyWhen` | salt/_utils/kubernetes_utils.py:690-709 | Two manifests hold the same data, by a comparison of their entries, exactly when a renaming of one is a renaming of the other |
| `Conversion.LosslessExactlyWhen` | salt/_utils/kubernetes_utils.py:690-709 | Whichever entries are kept, nothing is lost exactly when the entries that name one attribute hold the same data, at any depth |
| `Conversion.NoCollisionIsLossless` | salt/_utils/kubernetes_utils.py:690-709 | In particular nothing is lost when no two keys of one dictionary name the same attribute |
| `Conversion.CollisionLoses` | salt/_utils/kubernetes_utils.py:690-709 | A manifest that gives an API version by both of its keys is converted in any case, and has a renaming exactly when both give the same |
| `Conversion.RenamingIsKeyCast` | salt/_utils/kubernetes_utils.py:823-830 | Where attribute names follow the translation rule and free keys are left alone by it, the built object's data is the manifest with all keys translated |
| `Sysctl.GetSysctlFiles` | salt/_modules/metalk8s_sysctl.py:41-55 | Sorted by name, one file for each name, from the directory of highest precedence that offers it, then the default file |
| `Sysctl.RetainDirectory` | salt/_modules/metalk8s_sysctl.py:44-50 | Files met in any order: earlier directories win, and none is forgotten |
| `Sysctl.SortNames` | salt/_modules/metalk8s_sysctl.py:52 | The names in order |
| `Sysctl.ListingUnique` | salt/_modules/metalk8s_sysctl.py:41-55 | There is one such listing, so the order in which files are met does not matter |
| `Sysctl.ConfigListed` | salt/_modules/metalk8s_sysctl.py:46-53 | The configuration is listed exactly when it is the default file or sits in a known directory with no counting file of its name in an earlier one |
| `Sysctl.ListedExactlyWhen` | salt/_modules/metalk8s_sysctl.py:41-55 | A file is listed exactly when its name ends in `.conf` (or it is the configuration), its directory is known and no directory before that one has such a file of the same name |
| `Sysctl.LessExactlyWhen` | salt/_modules/metalk8s_sysctl.py:52 | Names are in the order of their first differing character |
| `Sysctl.HasPrecedence` | salt/_modules/metalk8s_sysctl.py:58-108 | Passes exactly when the configuration is listed and every later file can be read and agrees; the errors tell which of these fails |
| `Sysctl.WordsHoldTheRest` | salt/_modules/metalk8s_sysctl.py:93 | The words of a value are not empty, hold no space, and hold all else in order |
| `Sysctl.SpaceSeparates` | salt/_modules/metalk8s_sysctl.py:93 | Any space separates what is before it from what is after it |
| `Sysctl.SolidIsOneWord` | salt/_modules/metalk8s_sysctl.py:93 | A text without spaces is one word |
| `Sysctl.EpuredExactlyWhen` | salt/_modules/metalk8s_sysctl.py:93-102 | Comparing texts with normalized whitespace is comparing their words |
| `Sysctl.ListingAfterWrite` | salt/_modules/metalk8s_sysctl.py:46-50 | Writing the configuration does not change the listing |
| `Sysctl.PassingIsEffective` | salt/_modules/metalk8s_sysctl.py:93-108 | If the check passes, applying all listed files in order after the write gives the wanted value up to whitespace |
| `Sysctl.StrictMeansLast` | salt/_modules/metalk8s_sysctl.py:101-103 | In strict mode it passes exactly when all later files can be read and the configuration is the last file to define the name |
| `Sysctl.PassesExactlyWhen` | salt/_modules/metalk8s_sysctl.py:101-103 | Otherwise it passes exactly when all later files can be read and none sets another value, whereas the value stays exactly when the last later file to set it restores it |
| `Sysctl.RestoredValueRefused` | salt/_modules/metalk8s_sysctl.py:101-108 | The two differ: a value that a file disturbs and a later one restores is refused |
| `Sysctl.OtherBoundRefused` | salt/_modules/metalk8s_sysctl.py:93-102 | With a value of two words, a later file that changes the second one is refused, and one that only spaces them otherwise is not |
| `Ports.Check` | salt/_modules/metalk8s_checks.py:251-361 | An error for exactly the entries that are not accepted, in order; the connection tables are as before, and the lists of patterns gain at most the absence of a process |
| `Ports.CheckNext` | salt/_modules/metalk8s_checks.py:256-359 | One entry: an error exactly when it is not accepted, blaming only listeners that matter, and some whenever one does |
| `Ports.CheckEntry` | salt/_modules/metalk8s_checks.py:276-340 | Accepted exactly when some expectation is satisfied; the table that the error borrows keeps its content |
| `Ports.CheckOne` | salt/_modules/metalk8s_checks.py:284-336 | The branches on one expectation decide whether what listens satisfies it |
| `Ports.CheckAll` | salt/_modules/metalk8s_checks.py:331-336 | Without an address every listener of the port has to match |
| `Ports.ProcessesOf` | salt/_modules/metalk8s_checks.py:267-273 | The given list is extended in place, a single pattern is not |
| `Ports.AcceptedMeans` | salt/_modules/metalk8s_checks.py:270-340 | Accepted exactly when nothing relevant listens and that is allowed, or something does and one pattern matches all of it |
| `Ports.UnsharedWanted` | salt/_modules/metalk8s_checks.py:270-273 | With lists of their own, entries are judged by their own list |
| `Ports.SharedListExactly` | salt/_modules/metalk8s_checks.py:270-273 | The verdict on a mandatory entry is that of its own list, except that it is accepted when it should not be exactly when an earlier entry, not mandatory, extended the list, the list itself does not allow nothing, and nothing relevant listens |
| `Ports.RPartitionIsLast` | salt/_modules/metalk8s_checks.py:258 | The port is what comes after the last `:` |
| `Ports.ResolveMeans` | salt/_modules/metalk8s_checks.py:256-264 | The names of the two planes stand for their addresses |
| `Routes.RouteExists` | salt/_modules/metalk8s_checks.py:397-434 | A route is found exactly when a single one covers every address of the block; the partial error occurs exactly when none does but a longer prefix starts at the same address |
| `Routes.SubnetIsInclusion` | salt/_modules/metalk8s_checks.py:438-447 | Comparing bounds is comparing sets of addresses |
| `Routes.ContainsMeansPrefix` | salt/_modules/metalk8s_checks.py:411-421 | A network holds exactly the addresses of 32 bits that have its prefix, bit for bit (section 3.1 of RFC 4632) |
| `Routes.NestedOrDisjoint` | salt/_modules/metalk8s_checks.py:413-421 | Two aligned blocks that share an address are nested |
| `Routes.FirstAddressOnly` | salt/_modules/metalk8s_checks.py:419-421 | A route that does not cover a block holds its first address exactly when it starts there with a longer prefix |
| `SaltClient.Client.AuthenticatedRequest` | storage-operator/pkg/salt/client.go:292-325 | The calls of one request, login by login and send by send; it logs in first exactly without a token or with an expired one; what the caller gets is the content of the last answer, and a result means exactly one execution; every request ever sent carried the token granted last |
| `SaltClient.Client.SendOrRetry` | storage-operator/pkg/salt/client.go:305-324 | A rejected request is sent once more with a new token; the client panics exactly when that second request gets no response |
| `SaltClient.Client.Authenticate` | storage-operator/pkg/salt/client.go:328-360 | The token changes only when a login grants one |
| `SaltClient.Client.Send` | storage-operator/pkg/salt/client.go:373-400 | A request carries the client's token, which is there |
| `SaltClient.AtMostOnce` | storage-operator/pkg/salt/client.go:252-325 | At most one execution, two logins and two sends for one call; nothing follows a request that was not rejected |
| `SaltClient.SessionAtMostOnce` | storage-operator/pkg/salt/client.go:252-325 | Over any sequence of calls, no more executions than calls |
| `SaltClient.TokenIsFromLogin` | storage-operator/pkg/salt/client.go:354-358 | The client's token is nil or was granted by a login |
| `FileTree.ComputeDirTree` | buildchain/buildchain/targets/file_tree.py:158-165 | Exactly the directories above the files, each once, every parent before its children |
| `FileTree.SortByDepth` | buildchain/buildchain/targets/file_tree.py:165 | The directories by depth |
| `FileTree.DepthMeansParentsFirst` | buildchain/buildchain/targets/file_tree.py:164-165 | Sorting by depth puts parents first |
| `FileTree.FileSystem.Mkdirs` | buildchain/buildchain/targets/file_tree.py:112-114 | Making them one by one works unless a file is in the way |
| `FileTree.MakeTree` | buildchain/buildchain/targets/file_tree.py:109-155 | The tree is made unless a file is in the way, there is then a directory for every file to copy, and making it again changes nothing |
| `JobHandle.FromStringMeans` | storage-operator/pkg/salt/job.go:18-30 | Parsing fails exactly on non-empty text without a separator; no text is the empty handle |
| `JobHandle.FromParts` | storage-operator/pkg/salt/job.go:18-30 | The first two parts of a text are the name and the ID, in this order, whatever follows |
| `JobHandle.RoundTripExactlyWhen` | storage-operator/pkg/salt/job.go:18-35 | A handle is read back exactly when neither part holds a separator |
| `JobHandle.OldFormat` | storage-operator/pkg/salt/job.go:23-26 | The old three-part form gives its first two parts |

## Left out

- Cluster.World.CreateEviction: the reply is arbitrary and the cluster afterwards is whatever others make of it, so nothing says that an accepted eviction removes a pod; a drain finds out by polling.
- Volumes.Host.Prepare: libblkid, `mkfs` and `lvm` are their effect on an abstract device; which uuid the options of `mkfs` set, if any, is given with the storage class, and only a file system has a uuid.
- Volumes.Host.EnsurePrepared: probing and formatting happen in one step, so another process formatting the same device in between is not modelled.
- Conversion.BuildStandardObject: the constructor of the model, which may refuse a missing attribute, is not called; the order of a dictionary's entries is arbitrary, so any of the entries that name one attribute may be the one that is kept.
- Conversion.CastValue: declared types are given parsed, whether a text is a date is a parameter, and turning an integer into a float is exact.
- Names.ConvertAttributeName: lower case is that of ASCII letters only.
- Sysctl.HasPrecedence: paths are already resolved, and a file is a map from names to values, so key case folding and duplicate keys are not modelled.
- Ports.Check: matching of process names is a parameter; merging the lists of the node's roles and the text of messages are not modelled.
- Routes.RouteExists: networks are given parsed and aligned; parsing text and rejecting host bits are not modelled.
- SaltClient.Client.AuthenticatedRequest: the server's answers are given; a server is assumed to execute nothing that it answers with 401. Requests that cannot be built count as sent without a response.
- PackageClosure.GetPackageDeps: exactness assumes that no two different versions have the same checksum; without it the result is still sound, and an error still means that something is missing.
- Drain.Drainer.RunDrain: messages are kept by kind and not by text, clock readings are real numbers, and the grace period and connection parameters are not modelled.
- FileTree.MakeTree: paths are relative and have no `..`; copying the files and the other tasks of the plan are not modelled.
- Volumes in Block mode: they have no guard against formatting, and are outside the safety claim.
- The reading of resource quantities: a size is a positive number of bytes, or unreadable.
- `validate_manifest` as a whole, and the Kubernetes, Docker, etcd and Alertmanager clients.
- The polling of Salt jobs and the reconciliation loop of the operator, which is not part of this model.
- The build chain, the charts and the user interfaces, apart from the file tree: wiring, or facts about a single branch.
