# A model of flate's caches, graph algorithms and protocols

flate renders Flux repositories offline. What decides whether it is right sits in a few places: the caches that
reuse a render, the graph algorithms that order and partition the inputs, the protocols that threads follow, and
the fast forms that stand in for a full recount or comparison. This project models those places and proves what
they are for.

- `SourceTree`, `RenderOverlay`, `OverlayLaws`, `RenderCache`, `TreeFiles`: the recording filesystem of a Kustomize
  render and its read set: what each call answers and records over any sequence of calls, and when that may be
  reused. A stored output may be reused on every tree its read set accepts, because the same build would get the
  same answers there; this holds exactly when the records decide each operation, writes included, and always for
  builds that look a path up before they may fail on it.
- `Graph`, `RemoteWaves`, `WaveRunner`: the order in which recorded remotes are validated, and the concurrent runner.
- `ControlFiles`, `PreflightWalk`: the memoised walk that finds remote inputs, against what can be reached and against
  the walk without memory.
- `Text`, `Ordering`, `SchemaLine`, `DiagnosticForest`, `SchemaReport`, `SiblingOrder`, `SiblingExamples`,
  `SchemaTexts`: the canonical form of Helm schema errors, as a parser and a printer that are inverse to each other,
  and which texts it rewrites.
- `EntryRoots`, `RootOwners`, `Separation`, `CollisionGroups`, `EntryGroups`, `EntryPaths`: which roots are kept, which
  must not share an entry, and how they are grouped and admitted.
- `NameCounts`, `ReportNames`: the incremental count of groups per kind behind the labels of a report.
- `LazyBaseline`, `TreeChanges`: change detection without reading everything.
- `Accepted`, `RenderFrame`, `FrameRuns`: the accepted inventory, the frame it is stored in, and what happens to
  frames from one publication to the next.
- `EventStack`, `ProgressBar`: the lock-free stack of progress events, and what the bar knows after draining it.
- `KeyLock`, `ChartCache`: the lock per key, and the chart cache under these locks.
- `DependencyWait`: when a dependency is ready, blocked or failed.
- `DiffRows`, `Permute`: the two views of a diff, and the Cartesian product of input groups.

Things the models treat as given, as parameters or hypotheses: builds are deterministic; SHA-256 is idealised (equal
exactly on equal contents, or an injective function); JSON is an invertible pair of functions; the opcodes of a diff
are well formed; a git status names every path of HEAD that the checkout changed; what fetching a remote gives is a
function of its descriptor within one walk. Resource identities whose inner structure does not matter are strings in
their order. Characters stand for bytes where the source splits and compares ASCII text.

## What turned out not to hold

- The text of a schema error is *not* independent of the order of sibling diagnostics: one whose head ends with a
  colon and that has lines below it is taken for a chart heading when it comes first, printed as it is, and may
  leave the others uncanonicalised. `SiblingExamples.OrderMatters` and `SiblingExamples.OrderMattersBehind` give
  inputs, `SiblingExamples.OrderTolerated` one where it does no harm, and `SiblingOrder.OrderInvariantIff` the exact
  condition for every forest.
- Reading a path that cannot be resolved leaves no record, a node record is dropped when the path was also read with
  an error, and a write records nothing of what it had to pass; so a read set can accept a tree on which the build
  would go another way. `RenderCache.LookupNotRecorded`, `RenderCache.NodeDropped` and
  `RenderCache.WriteNotRecorded` give a build and two trees for each, `RenderOverlay.AnswerDecidedIff` and
  `RenderCache.CacheSoundIff` say exactly when it does not happen, and `RenderCache.CarefulCacheSound` that it does
  not happen to a build that looks paths up.
- Draining harder keeps every answer of `Classify` that was not blocked, but for `Available` only its kind, error and
  omission: another producer may be named (`DependencyWait.ReasonMayChange`). The whole answer stands exactly when no
  producer listed before the one named comes to fail (`DependencyWait.AnswerStandsIff`).
- Permutations of different selections can have one identifier, since it is a checksum (`Permute.IdentifiersCollide`):
  the texts differ (`Permute.TextsTellApart`), and identifiers are the same exactly when both sums of the texts agree
  (`Permute.SameIdentifierIff`).
- A report row for an entry path loses its kind when resources of a kind called "entry" come from several groups
  (`ReportNames.EntryLabelEmpty` is such a report, `ReportNames.EntryLabelLost` the condition).

An inventory published with a raw fingerprint other than that of the header as written would be read back as missing
(`RenderFrame.Publish` states both cases). That never happens to frames this program wrote: over every run, each frame
in hand has no raw fingerprint yet or its own (`FrameRuns.RunKeepsMatching`).

## Model

| member | source | states |
|---|---|---|
| SourceTree.KnownIsPinned | pkg/kustomize/readset.go:239-279 | what a read set knows of a path's kind holds on every tree it accepts |
| SourceTree.PinnedIffKnown | pkg/kustomize/readset.go:176-222 | the kinds a read set pins down on all trees it accepts are exactly those its records settle |
| SourceTree.NeverRegularIff | pkg/kustomize/readset.go:239-279 | a path is a regular file on no tree a read set accepts iff its kind is settled or a failed read of it was recorded |
| SourceTree.NeverDirectoryIff | pkg/kustomize/readset.go:239-279 | a path that is no directory is one on no accepted tree iff its kind is settled |
| RenderOverlay.StepKeepsInv | pkg/kustomize/treefs.go:134-248 | every operation keeps the overlay consistent and its records true of the lower tree |
| RenderOverlay.StepAgrees | pkg/kustomize/treefs.go:134-248 | an operation settled by a read set answers, records and writes the same on every tree the set accepts |
| OverlayLaws.EveryAnswerRight | pkg/kustomize/treefs.go:212-248 | over any sequence of calls, each answers what the source tree and the successful writes before it say: contents as last written or as in the source, directories and listings with what was written below them, and which writes conflict |
| OverlayLaws.ReadsWhatWasWritten | pkg/kustomize/treefs.go:360-370 | a file written is read back until its path is written again |
| OverlayLaws.ReadsTheSource | pkg/kustomize/treefs.go:237-248 | a path no write has touched reads as in the source |
| OverlayLaws.RecordsExactly | pkg/kustomize/treefs.go:134-248 | exactly the paths probed, read and listed while nothing there or above was written are recorded |
| RenderCache.CacheSound | pkg/kustomize/readset.go:239-279 | a build all of whose operations are settled runs identically, records included, on every tree its read set accepts |
| RenderCache.RecordsAreTrue | pkg/kustomize/readset.go:79-112 | what a build records is true of the source whatever it wrote, so a fresh entry is valid |
| RenderOverlay.SettlesItself | pkg/kustomize/treefs.go:202-248 | probes, successful reads and listings of source directories settle themselves |
| RenderOverlay.AnswerDecidedIff | pkg/kustomize/treefs.go:134-248 | any operation, also a write or one on what was written, has the same answer on all accepted trees iff the records decide it |
| RenderCache.CacheSoundIff | pkg/kustomize/readset.go:239-279 | for any build, the read set may stand in for it on all accepted trees iff it decides every answer |
| RenderCache.CarefulCacheSound | pkg/kustomize/treefs.go:202-235 | a build that probes what it fails to read or list and what it writes, and reads no directory it probes, runs identically on every accepted tree |
| RenderCache.LookupNotRecorded | pkg/kustomize/treefs.go:237-248 | a build and two trees: the failed read is not recorded, and on the other tree it succeeds |
| RenderCache.NodeDropped | pkg/kustomize/readset.go:206-215 | a build and two trees: the probe's record is dropped, and on the other tree the directory is gone |
| RenderCache.WriteNotRecorded | pkg/kustomize/treefs.go:360-370 | a build and two trees: on the other tree a file is in the way of the write |
| TreeFiles.ReadSet.RecordFile | pkg/kustomize/readset.go:79-91 | records the digest of what was read, or that nothing was |
| TreeFiles.ReadSet.RecordDir | pkg/kustomize/readset.go:93-102 | records the names listed |
| TreeFiles.ReadSet.RecordNode | pkg/kustomize/readset.go:104-112 | records what a path was seen to be |
| TreeFiles.ReadSet.TakeSnapshot | pkg/kustomize/readset.go:176-222 | the snapshot lists every file and listing, and the nodes neither read nor listed, each once and in the order of paths |
| TreeFiles.LocalsValid | pkg/kustomize/readset.go:239-279 | answers yes exactly when not cancelled and every entry of the snapshot is true of the tree, or the source is immutable |
| TreeFiles.TreeFS.WasModified | pkg/kustomize/treefs.go:134-143 | a path counts as modified when a write changed it or what is above it |
| TreeFiles.TreeFS.Probe | pkg/kustomize/treefs.go:202-210 | records the kind of an unmodified path |
| TreeFiles.TreeFS.Exists | pkg/kustomize/treefs.go:212-222 | answers and records as the step of the overlay |
| TreeFiles.TreeFS.IsDir | pkg/kustomize/treefs.go:224-235 | answers and records as the step of the overlay |
| TreeFiles.TreeFS.ReadFile | pkg/kustomize/treefs.go:237-248 | answers and records as the step of the overlay, and records nothing when the path does not resolve |
| TreeFiles.TreeFS.ReadDir | pkg/kustomize/treefs.go:317-330 | answers and records as the step of the overlay |
| TreeFiles.TreeFS.WriteFile | pkg/kustomize/treefs.go:360-370 | writes the overlay, marks what it changed, records nothing |
| Graph.LevelIsLongestChain | pkg/kustomize/readset.go:393-414 | a level that is one above some parent and above all is the length of the longest parent chain |
| Graph.NoSourceMeansCyclic | pkg/kustomize/readset.go:393-414 | where every member of a set has a predecessor in it there is a cycle |
| RemoteWaves.OrderRemoteValidation | pkg/kustomize/readset.go:393-414 | places every index iff the relation is acyclic, in waves by longest chain |
| RemoteWaves.RemoteValidationWaves | pkg/kustomize/readset.go:358-391 | succeeds iff inputs are distinct, parents known and the parent relation acyclic; the waves hold every index once |
| RemoteWaves.WavesRespectParents | pkg/kustomize/readset.go:358-414 | every parent is in a strictly earlier wave, and a wave's number is the longest parent chain |
| WaveRunner.RunKeepsInv | pkg/kustomize/readset.go:296-335 | the invariant of every interleaving of runner, tasks and cancellation |
| WaveRunner.AncestorsFirst | pkg/kustomize/readset.go:296-335 | in every schedule a remote is acquired only after all its ancestors matched their recorded identity |
| WaveRunner.AcquiredOnce | pkg/kustomize/readset.go:296-335 | no remote is acquired twice |
| WaveRunner.AnswerIsExact | pkg/kustomize/readset.go:282-356 | the answer is yes iff every entry matched and the context was not cancelled |
| PreflightWalk.WalkFileThrough | pkg/kustomize/preflight.go:82-140 | coming to a control file through more parents adds exactly those parents to every remote below it |
| PreflightWalk.InputWalk.RecordRemote | pkg/kustomize/preflight.go:351-366 | credits a remote to the files on the way back and no other; the loop over parents ends on any graph |
| PreflightWalk.InputWalk.Reuse | pkg/kustomize/preflight.go:368-377 | records every remote of a known file under the present parents, in any order |
| PreflightWalk.InputWalk.Acquire | pkg/kustomize/preflight.go:344-349 | records the remote with its identity whether or not fetching succeeded |
| PreflightWalk.InputWalk.FetchGitBase | pkg/kustomize/gitbase.go:13-55 | mounts a base on first use only, and records it under the present parents each time |
| PreflightWalk.InputWalk.Directory | pkg/kustomize/preflight.go:82-140 | records exactly what a walk without memory of this file would, and remembers all remotes below it |
| PreflightWalk.InputWalk.References | pkg/kustomize/preflight.go:230-278 | the same for the references of a file, stopping at the first that cannot be fetched |
| PreflightWalk.InputWalk.ResourceOperand | pkg/kustomize/preflight.go:290-321 | the same for one reference; below a remote base the base is added to the parents |
| PreflightWalk.WalkedAgain | pkg/kustomize/preflight.go:95-98 | re-recording the remembered remotes under new parents equals walking the file again |
| PreflightWalk.WalkIsWays | pkg/kustomize/preflight.go:290-321 | the parents of a remote are the remote bases passed on the ways of references to it |
| ControlFiles.AllExplored | pkg/kustomize/preflight.go:73-80 | a finished walk over control files of any shape has come to all files and remotes the root leads to, and to no others |
| PreflightWalk.PreflightRemoteResources | pkg/kustomize/preflight.go:73-80 | succeeds iff every remote the root leads to can be fetched, also where control files contain each other; then files, inputs and identities are exactly those reached, and without such rings a remote's parents are the bases passed on the ways to it |
| SchemaLine.SchemaQuoted | pkg/helm/schema_error.go:179-195 | finds the quoted token at the start of a text, if it is a complete one |
| SchemaLine.SchemaProperties | pkg/helm/schema_error.go:120-171 | sorts the quoted properties of a list and leaves any other message as it is |
| SchemaLine.ParseThenPrint | pkg/helm/schema_error.go:120-171 | printing a parsed property list gives the message back |
| SchemaLine.PrintThenParse | pkg/helm/schema_error.go:120-171 | parsing a printed property list gives the list back |
| SchemaLine.PropertiesCanonical | pkg/helm/schema_error.go:120-171 | sorting the properties is idempotent and equal for rearranged lists |
| SchemaLine.DiagnosticWithMessage | pkg/helm/schema_error.go:62-76 | replacing the message of a diagnostic line keeps it one of the same indent |
| SchemaLine.CanonicalLineSettled | pkg/helm/schema_error.go:83-118 | a canonical line is its own canonical line |
| SchemaTexts.QuotedIff | pkg/helm/schema_error.go:179-195 | what is found is the one quotation the text begins with: quotes around characters and the escapes Go accepts |
| SchemaTexts.DiagnosticIff | pkg/helm/schema_error.go:62-76 | a line is a diagnostic iff it is an even number of spaces, "- at ", a quotation, ": " and the message |
| SchemaTexts.ListSorted | pkg/helm/schema_error.go:120-171 | missing, additional and dependent properties, as written by Helm and with blanks behind, come out sorted and otherwise unchanged |
| SchemaTexts.OtherMessagesKept | pkg/helm/schema_error.go:120-171 | every other message is left as it is |
| SchemaTexts.ForestTakes | pkg/helm/schema_error.go:83-118 | a forest reaches to the first line that is neither one of its heads nor below them, and its blocks begin at its heads |
| DiagnosticForest.ParsedForestPrints | pkg/helm/schema_error.go:83-118 | what is parsed from lines prints back to those lines |
| DiagnosticForest.PrintedForestParses | pkg/helm/schema_error.go:83-118 | a well-formed forest is what parsing its print gives, whatever follows |
| DiagnosticForest.CanonicalIsCanonical | pkg/helm/schema_error.go:83-118 | sorting siblings at every depth gives a forest in which all are in order |
| DiagnosticForest.CanonicalWellFormed | pkg/helm/schema_error.go:83-118 | sorting keeps a forest well formed |
| DiagnosticForest.SchemaForest | pkg/helm/schema_error.go:83-118 | the loop computes parse, sort and print, and how many lines it used |
| DiagnosticForest.SchemaBlock | pkg/helm/schema_error.go:89-113 | the inner loop computes one block with its children |
| SchemaReport.ReportKeepsLines | pkg/helm/schema_error.go:18-54 | a report has the same bag of canonical lines as its source |
| SchemaReport.ReportSettled | pkg/helm/schema_error.go:18-54 | reporting a report changes nothing |
| SchemaReport.SchemaTextIdempotent | pkg/helm/schema_error.go:18-54 | the canonical text of a canonical text is itself |
| SchemaReport.CanonicalErrorText | pkg/helm/schema_error.go:18-54 | the loop over the lines of an error computes the report |
| SchemaTexts.ReportedInOrder | pkg/helm/schema_error.go:18-54 | below Helm's preamble and a chart heading a diagnostic has its message in order |
| SchemaTexts.ListReportedInOrder | pkg/helm/schema_error.go:18-54 | a property list of any of the three kinds is sorted in a whole report |
| SiblingOrder.SimilarForestsAgree | pkg/helm/schema_error.go:83-118 | forests that differ by sibling and property order at any depth have one canonical form |
| SiblingOrder.OrderForgotten | pkg/helm/schema_error.go:18-54 | such forests in the same place of a report give the same lines |
| SiblingOrder.ChartOrderForgotten | pkg/helm/schema_error.go:18-54 | below a chart heading the order of diagnostics leaves no trace, whatever stands around |
| SiblingOrder.OrderInvariantIff | pkg/helm/schema_error.go:18-54 | the order of diagnostics leaves no trace iff they are all alike, or each one printed as it is when put first is the first in canonical order and, in turn, the same holds of the others printed after it |
| SiblingOrder.UnexposedInvariant | pkg/helm/schema_error.go:18-54 | where no head ends with a colon above lines of its own, order never shows |
| SiblingExamples.OrderMatters | pkg/helm/schema_error.go:18-54 | a pair of diagnostics whose order changes the text |
| SiblingExamples.OrderTolerated | pkg/helm/schema_error.go:18-54 | a pair whose order does not, although one is taken for a heading when first |
| SiblingExamples.OrderMattersBehind | pkg/helm/schema_error.go:18-54 | three whose order does, although the one taken for a heading is the first in canonical order |
| RootOwners.PinnedRootOwners | pkg/discovery/partition.go:110-127 | the owners matrix is exactly the transitive closure of the claims |
| RootOwners.IndependentExists | pkg/discovery/partition.go:84-95 | a nonempty set of pending roots always has an independent one |
| RootOwners.FirstIndependent | pkg/discovery/partition.go:84-100 | takes the first independent root, and index 0 unfound only when there is none |
| RootOwners.SelectRoots | pkg/discovery/partition.go:81-107 | every dropped root is covered by a kept one, none covers a later one, and a later one claims an earlier only in a ring |
| RootOwners.UnpinnedRoots | pkg/discovery/partition.go:76-108 | each root kept has the least path among those left that are claimed only inside rings; every other is claimed by a kept root or has its path, and no two kept roots are |
| RootOwners.ArrivalForgotten | pkg/discovery/partition.go:83 | for roots with paths of their own the order in which they are found plays no part |
| RootOwners.RingKeepsLeast | pkg/discovery/partition.go:84-107 | of roots that claim each other, and that no one else claims, the one with the least path is the first kept |
| Ordering.LexLeIff | pkg/discovery/partition.go:83 | a text comes after those that begin it; otherwise the first character in which two texts differ decides |
| Separation.SeparationEdges | pkg/discovery/entries.go:188-221 | two roots have an edge iff they declare one object in different places; it is the least label of such a pair, and edges are symmetric |
| CollisionGroups.CollisionComponents | pkg/discovery/entries.go:267-287 | the components are the classes of connectedness by conflicts, each once |
| CollisionGroups.PartitionGroup | pkg/discovery/entries.go:318-337 | collects all that is reached from the first root through pairs with equal anchors and no conflict |
| CollisionGroups.PartitionComponent | pkg/discovery/entries.go:289-305 | splits a component into the classes of compatibility, but a lone root without anchors into none |
| EntryGroups.GroupTargets | pkg/discovery/entries.go:146-156 | lists each anchor of the group once, in the order first seen |
| EntryGroups.SeenInOrder | pkg/discovery/entries.go:146-156 | an anchor listed earlier occurs before the first occurrence of one listed later |
| EntryGroups.GroupConflict | pkg/discovery/entries.go:307-316 | finds a conflict inside a group iff there is one |
| EntryGroups.ClashMeansTriangle | pkg/discovery/entries.go:240-244 | a conflict inside a group means that compatibility does not carry over between three roots |
| EntryGroups.NoTriangle | pkg/discovery/entries.go:240-244 | without conflicts inside groups compatibility carries over everywhere |
| EntryGroups.PartitionGroups | pkg/discovery/entries.go:223-265 | refuses iff conflicting roots share an anchor, compatibility does not carry over, or no component has strictly the most groups, more than one |
| EntryGroups.CompanionsExactly | pkg/discovery/entries.go:318-337 | a root's companions are exactly the roots of its component with its anchors that it has no conflict with |
| EntryGroups.ChosenExactly | pkg/discovery/entries.go:256-264 | a group is chosen iff it has an anchor or belongs to the strongest component |
| EntryGroups.GroupsApart | pkg/discovery/entries.go:223-265 | groups are disjoint; roots of one component with equal anchors in different groups conflict, roots of different components do not |
| EntryGroups.ComponentCovered | pkg/discovery/entries.go:289-305 | every root of a component is in a group unless it is alone and has no anchor |
| EntryPaths.GroupPath | pkg/discovery/entries.go:158-166 | the deepest path that contains every root of the group |
| EntryPaths.ContainsIff | pkg/discovery/entries.go:158-166 | a path contains those whose names begin with its own |
| EntryPaths.GroupScans | pkg/discovery/entries.go:168-186 | keeps, in order, the scans that contain the group and touch no root of another |
| EntryPaths.NativeSeparates | pkg/discovery/entries.go:116-122 | the path chosen contains every root of the group and none of a group it is apart from |
| NameCounts.AdjustExact | internal/output/names.go:159-180 | the number of distinct groups stays exact while counts do not go below zero |
| NameCounts.NameUpdater.Update | internal/output/names.go:54-76 | changes one count and keeps the collisions those of the counts |
| NameCounts.NameUpdater.CollidesExactly | internal/output/names.go:54-76 | a kind collides iff two of its groups are in use |
| NameCounts.CollectNameOccurrences | internal/output/names.go:78-94 | the counts are those of the whole inventory, each cluster under its mapping |
| NameCounts.RecountMoves | internal/output/names.go:96-114 | showing one resource differently moves exactly its occurrences, and never below zero |
| ReportNames.CountOccurrences | internal/output/report.go:185-192 | counts each resource of an inventory |
| ReportNames.AdjustNameOccurrences | internal/output/names.go:96-114 | in any order of the map, the counts become those under the other mapping |
| ReportNames.ShownExactly | internal/output/names.go:138-149 | the kind shown is the one a fresh count would give |
| ReportNames.KindTexts | internal/output/names.go:138-149 | the text of a kind: with its group iff it is there and several groups of the kind are in use |
| ReportNames.NameTexts | internal/output/names.go:138-149 | the text of a name: prefix, namespace and name, or the quoted path of an entry |
| ReportNames.KindsToldApart | internal/output/names.go:138-149 | two resources of one kind in use are shown alike iff they are of one group |
| ReportNames.EntryLabelLost | internal/output/names.go:138-149 | the kind of an entry path is empty iff kinds called "entry" come from several groups |
| ReportNames.EntryLabelEmpty | internal/output/names.go:138-149 | a report in which it is empty |
| ReportNames.LabelsToldApart | internal/output/names.go:116-149 | of the resources a cluster shows as themselves, two have the same label only if they are the same |
| ReportNames.PrepareGroupNames | internal/output/names.go:116-149 | labels every resource of the inventory with its kind under the counts in force and its name with prefix and path |
| ReportNames.BindModel | internal/output/report.go:197-209 | a model with its own identities is labelled under them, and the counts are then as before |
| ReportNames.BindOverrides | internal/output/report.go:226-245 | each warning is labelled as if only its resource were shown otherwise, and the counts are then as before |
| ReportNames.Prepare | internal/output/report.go:89-102 | every label of a report equals the one from a recount under the mapping in force |
| LazyBaseline.EqualReaders | pkg/baseline/lazy.go:505-526 | decides equality of two streams in chunks; a stream that breaks off is never called equal |
| LazyBaseline.HeadCandidates | pkg/baseline/lazy.go:162-201 | all base paths without a HEAD, otherwise the paths HEAD changed, as clean |
| LazyBaseline.FindCandidates | pkg/baseline/lazy.go:112-160 | which paths are candidates and which may be clean, with and without a status |
| LazyBaseline.CandidateChanged | pkg/baseline/lazy.go:332-365 | a candidate changed iff presence, mode or content differs |
| LazyBaseline.CompareCandidates | pkg/baseline/lazy.go:302-330 | routes exactly the candidates outside the base, the clean ones and the changed ones |
| LazyBaseline.PolicyFileIff | pkg/baseline/lazy.go:390-391 | a policy file is one whose last name is ".sourceignore" |
| LazyBaseline.RoutingExact | pkg/baseline/lazy.go:112-201 | the routing holds every difference, and otherwise only paths that neither side has |
| LazyBaseline.SelectedExactly | pkg/baseline/lazy.go:367-417 | which routed and shared paths differ once each side is seen through its policy |
| LazyBaseline.FilterChanges | pkg/baseline/lazy.go:367-417 | selects, in order and once, the paths that differ between the two filtered trees |
| LazyBaseline.SelectChanges | pkg/baseline/lazy.go:37-86 | the lazy selection equals the full comparison of the two filtered trees |
| TreeChanges.ScanTree | pkg/change/with_readers.go:538-579 | both ways of scanning give the files the policy keeps outside the other input |
| TreeChanges.UnderIff | pkg/change/with_readers.go:538-579 | a path lies under a directory iff its names begin with those of the directory |
| TreeChanges.CompareScannedFiles | pkg/change/detect.go:527-555 | what names, sizes and digests settle, and what is left to read |
| TreeChanges.HashJobs | pkg/change/detect.go:346-373 | in any interleaving of the workers each job is done exactly once |
| TreeChanges.Detect | pkg/change/detect.go:268-310 | with digests or without, the result is the set of paths that differ between the two views |
| Accepted.CollectRoots | pkg/kustomize/render_cache.go:259-264 | one root for each source in order, whatever order the map gives |
| Accepted.PrepareAccepted | pkg/kustomize/render_cache.go:226-274 | fails iff an identity repeats; otherwise a complete inventory in the order the decoder demands |
| Accepted.OrderForgotten | pkg/helm/template_cache.go:304-345 | listings that say the same in another order, or with repetitions, give the same inventory |
| Accepted.History | pkg/kustomize/render_cache.go:277-304 | only the owner gets the records back, each once |
| Accepted.HistorySays | pkg/kustomize/render_cache.go:277-304 | what is read back says the same as what was recorded |
| RenderFrame.EncodeFrame | pkg/kustomize/render_cache.go:148-171 | writes prefix, header and output; fails iff the header is over the limit |
| RenderFrame.DecodeSound | pkg/kustomize/render_cache.go:173-224 | only well-formed frames are decoded, and an inventory comes back only if admissible |
| RenderFrame.DecodeAssembled | pkg/helm/template_cache.go:258-302 | every well-formed frame is decoded into its parts |
| RenderFrame.InventoryReadIff | pkg/kustomize/render_cache.go:199-222 | which inventory comes back with a frame, each demand spelled out |
| RenderFrame.FrameLayout | pkg/kustomize/render_cache.go:148-171 | the bytes of a frame one by one |
| RenderFrame.CutShort | pkg/kustomize/render_cache.go:173-198 | a frame cut short anywhere is not decoded |
| RenderFrame.PrepareRenderPublication | pkg/kustomize/render_cache.go:502-553 | binds and fingerprints the header, and prepares the inventory about it |
| RenderFrame.WriteTo | pkg/kustomize/render_cache.go:383-408 | writes the frame and the inventory behind it; fails iff one is over the limit |
| RenderFrame.WrittenReadBack | pkg/kustomize/render_cache.go:173-224 | header, output and inventory are read back; the inventory iff admissible for the header as written |
| RenderFrame.Publish | pkg/helm/template_cache.go:419-470 | publishing then decoding keeps the whole inventory iff the raw fingerprint is fresh or that of the header |
| RenderFrame.DecodedMatches | pkg/kustomize/render_cache.go:502-529 | a frame read from the cache matches its own raw fingerprint, so it can be published again |
| FrameRuns.RunKeepsMatching | pkg/kustomize/flux.go:354-378 | in every run of rendering, storing, loading, rebinding and publishing, a frame in hand has no raw fingerprint yet or that of its own header |
| FrameRuns.PublishInRun | pkg/helm/template_cache.go:419-470 | whatever happened to a frame before, publishing it and reading it back keeps the whole inventory |
| FrameRuns.LoadedMatchesIff | pkg/kustomize/render_cache.go:173-224 | of any frame read under its own binding, also a foreign one: it is as good as fresh iff its header is encoded as this program does it |
| EventStack.PublisherKeepsInv | internal/cli/statusbar.go:64-73 | every step of a publisher keeps the lists in memory and the order of publication |
| EventStack.ConsumerKeepsInv | internal/cli/statusbar.go:75-85 | every step of the consumer does |
| EventStack.DeliveredInOrder | internal/cli/statusbar.go:64-85 | in every run the events received are the first ones published, once each in the order of their compare-and-swap, and all of them once nothing is pending |
| EventStack.OnlyDetachedWritten | internal/cli/statusbar.go:75-85 | the consumer relinks only nodes off the stack that no publisher owns |
| ProgressBar.Bar.Track | internal/cli/statusbar.go:139-158 | the bar's fields say what the history of events says |
| ProgressBar.Bar.DrainEvents | internal/cli/statusbar.go:132-137 | however events come in batches |
| ChartCache.MergedSettles | pkg/helm/client.go:160-191 | storing a description keeps a chart and an analysis already there, and leaves a chart or its bytes |
| ChartCache.StepKeepsInv | pkg/helm/client.go:105-248 | every step of every thread keeps the invariant, also storing without the key lock |
| ChartCache.DecodedOnce | pkg/helm/client.go:193-248 | in every run a chart is decoded with success at most once, and all descriptions in hand share it |
| ChartCache.CacheOnlyGrows | pkg/helm/client.go:160-191 | over any run entries stay, and a chart or an analysis once set never changes |
| KeyLock.Exclusion | internal/keylock/keylock.go:31-49 | in every interleaving of lookups, channel making, sends and releases, two threads are never inside the lock of one key |
| KeyLock.StepRefines | internal/keylock/keylock.go:31-49 | seen from outside, every step leaves a map of holders alone, adds a thread for a free key, or takes one away |
| DependencyWait.Waiter.Classify | pkg/depwait/classify.go:60-69 | promotes at most once and gives the one answer that the facts of the store as promoted call for |
| DependencyWait.Waiter.ClassifyOnce | pkg/depwait/classify.go:71-113 | one round of the decision, with the answer the facts call for |
| DependencyWait.DecideRight | pkg/depwait/classify.go:71-209 | when the answer is ready, blocked, which error and which failure, each iff, in terms of what is known of the dependency |
| DependencyWait.AnswersStand | pkg/depwait/classify.go:60-209 | raising the drain level never changes an answer that was not blocked, and under force none is blocked |
| DependencyWait.BlocksParent | pkg/depwait/availability.go:129-146 | yes iff the parent is reached; ends on rings too |
| DependencyWait.Available | pkg/depwait/availability.go:33-62 | names the first producer that keeps the value away, or else all that are awaited in order, or else what data or its absence calls for |
| DependencyWait.ForceDecides | pkg/depwait/availability.go:33-127 | under force no availability is blocked |
| DependencyWait.AvailabilityStands | pkg/depwait/availability.go:33-127 | raising the drain level keeps kind, error and omission of an answer that was not blocked |
| DependencyWait.ReasonMayChange | pkg/depwait/availability.go:33-84 | but not always the producer named: an input |
| DependencyWait.AnswerStandsIff | pkg/depwait/availability.go:33-84 | the whole of an answer that was not blocked stands iff no producer listed before the one it names comes to fail in a way that counts |
| DiffRows.FoldGaps | internal/output/html.go:210-235 | the runs of equal lines before, between and after the groups |
| DiffRows.AppendUnifiedRows | internal/output/html.go:441-462 | adds the rows of an opcode, each with its kind, numbers and line: all old lines of a replaced part and then all new ones |
| DiffRows.AppendSideRows | internal/output/html.go:464-507 | the same side by side: equal and replaced lines are aligned, the rest faces blanks |
| DiffRows.UnifiedRows | internal/output/html.go:242-266 | shows every line of both sides once and in order, with the folds of the gaps; each row is one of a fold or of an opcode, marked as such |
| DiffRows.SideRows | internal/output/html.go:273-298 | the same side by side |
| DiffRows.SameFolds | internal/output/html.go:242-298 | both views fold the same runs under the same names |
| DiffRows.RuneDiffRange | internal/output/html.go:326-340 | the lines agree outside the ranges, which cannot be cut down at either end |
| Permute.AdvancePermutation | internal/resourcesetinput/permute.go:89-98 | adds one to the selection as a number, and says no exactly on the way from the last back to zero |
| Permute.ValueOrders | internal/resourcesetinput/permute.go:89-98 | selections are numbered in lexicographic order, each by a number of its own |
| Permute.ScopeGroups | internal/resourcesetinput/permute.go:14-37 | which group stops the product: empty, nameless or too many; the count does not wrap |
| Permute.PermuteGroups | internal/resourcesetinput/permute.go:14-56 | emits as many permutations as the product of the sizes, at most 10000, the k-th for the k-th selection; under each name of its own lies the input selected, and "id" is the checksum of names and positions |
| Permute.EveryChoiceOccurs | internal/resourcesetinput/permute.go:39-55 | every choice of one input from each group lies in some permutation |
| Permute.TextsTellApart | internal/resourcesetinput/permute.go:42-48 | different selections are named by different texts |
| Permute.SameIdentifierIff | internal/resourcesetinput/permute.go:63-65 | two texts share an identifier iff their sums and running sums agree modulo 65521 |
| Permute.IdentifiersCollide | internal/resourcesetinput/permute.go:48 | two selections of three groups whose permutations have one identifier |
| Permute.FirstUpstreamIdentifier | internal/resourcesetinput/permute_internal_test.go:11-22 | the identifier the repository expects of two providers' first inputs |
| Permute.EachSelectionOnce | internal/resourcesetinput/permute.go:39-55 | every selection is emitted, none twice, in order |
| Permute.NormalizeKeyForTemplate | internal/resourcesetinput/permute.go:67-87 | joins what is kept between breaks with underscores: the plain characters of the input, lowered and in order; keeps what is already so |

## Left out

- Symlinks, Walk, Open handles, plugin snapshot views, mounts and the cleaning of paths in the overlay: paths are sequences of names in a plain tree.
- The nil recorder, and renders of immutable sources, which record nothing.
- TreeFiles.LocalsValid: an entry's digest of a listing is the set of its names.
- RenderCache.CacheSound: records of remotes are validated in `RemoteWaves` and `WaveRunner`, not here.
- PreflightWalk.PreflightRemoteResources: the parent edges are exact only where control files do not contain each other; the build rejects the others.
- PreflightWalk.InputWalk.ResourceOperand: plugin views, inline plugin configuration, rewriting of YAML nodes and the fallback from HTTP to Git are not modelled; what a control file refers to is given.
- PreflightWalk.InputWalk.Directory: plugin roots and views, and mounts that fail.
- PreflightWalk.InputWalk.References: the references of a file are data; rewriting them and inline plugin configuration are not modelled.
- WaveRunner.RunKeepsInv: tasks are steps of a state machine, not code; the fetch itself is up to the environment.
- SchemaLine.SchemaProperties: multi-byte characters are stepped over as characters, which for quoting gives the same result as stepping over bytes.
- RootOwners.UnpinnedRoots: whether a root lies under a claim is a parameter; the order of roots with equal paths is left open by the source, and SelectRoots holds for every order.
- EntryGroups.PartitionGroups: the error text with its candidates and witnesses is not built.
- Assembling entries: the single entry when nothing conflicts, duplicate entry identities and the check against the requested scan.
- ReportNames.Prepare: the inventory of printed subjects, and which warnings name another subject, are given; quoting a path is a parameter.
- ReportNames.BindModel: whether a model has its own identities is given.
- ReportNames.BindOverrides: the text of the warnings.
- LazyBaseline.FilterChanges: symlinks and submodules in either tree, and the inputs collected from one-sided paths.
- LazyBaseline.CandidateChanged: errors of looking at or reading the worktree file; presence, mode and content are given.
- LazyBaseline.SelectChanges: fetching missing objects, cancellation and read errors of the worktree.
- TreeChanges.Detect: routing of changed files to their readers, and the contents of one-sided files.
- TreeChanges.ScanTree: the skipping of .git and the policy are a parameter.
- TreeChanges.HashJobs: read errors and cancellation of the workers.
- Accepted.PrepareAccepted: identities and productions are strings in their order, and nil and empty lists are the same.
- RenderFrame.PrepareRenderPublication: the frame is a value returned with its changes instead of being updated in place; cache lookups, and the reuse of an earlier inventory that is equal, are not part of this model.
- FrameRuns.RunKeepsMatching: bindings are their fingerprints, and the cache holds nothing but what such a run wrote.
- EventStack.DeliveredInOrder: memory is sequentially consistent, and nodes are never freed.
- ChartCache.DecodedOnce: what a capture or a decoding costs or logs, and render records beyond their analysis; a key lock is taken and released in one step, as `KeyLock.StepRefines` allows.
- DependencyWait.Waiter.Classify: errors and failures are without their subject and causes, and ready expressions are given by their outcome.
- DependencyWait.Available: producers and an absent dependency are classified from one snapshot, without looking them up outside the store and promoting what is found.
- DiffRows.UnifiedRows: highlighting; each shown line carries its text. A diff without groups shows no rows.
- Permute.ScopeGroups: groups have fewer than 2^50 inputs; beyond that the 64-bit product of the source may wrap.
- Permute.PermuteGroups: an input is an opaque payload.
- Commands, terminal rendering, HTTP, OCI and Git transport, stores, selection, loading, retries, credentials, disk caches and their collection.
