# Proofs about the Atlas Kubernetes operator

This project models the parts of the MongoDB Atlas Kubernetes operator that hold real algorithms or
state machines, and proves what they are for. `dafny verify dfyconfig.toml` checks all of it.

* **Canonical form** (`Normalize`, `NormalForms`, `NormalizeInPlace`, `SliceSorting`, `Sorting`). The traversal of
  `internal/cmp` sorts every slice of nested data, children first, with an unstable sort. A
  traversal is a relation between the data before and after, which covers every outcome of the sorts
  and of `PermuteOrder`. The normal form of all reorderings of the data is the same exactly when no
  slice of it holds two different elements that compare equal; then `SemanticEqual` decides equality
  up to order. An encoding makes all data canonical exactly when it tells normal forms apart.
  `NormalForms` says without recursion what a normal form is: a reordering in which every slice that
  the traversal reaches ascends. `NormalizeInPlace` shows that the loops over backing arrays produce
  such an outcome.
* **Alert keys** (`AlertKeys`, `KeyTexts`, `AlertOrder`, `AlertCanonical`). The separator-joined `Key` texts, read back: two
  configurations whose texts hold no separators have the same key exactly when they agree in what a
  key shows. From this follows when the alert configurations of a spec, sorted by their keys at every
  depth, have a canonical form, as a condition on the configurations given.
* **Dry run** (`DryRun`). The global error queue, error trees and the loops over reconcilers,
  namespaces and items, against a specification of the event log in which any event creation may fail.
* **Deep copy and redaction** (`DeepCopying`, `ProjectRedaction`). Go memory with pointers as
  objects and slices as arrays. What is logged is a redacted copy in fresh memory.
* **Watch indexes** (`Indexer`, `Common`). Over every run of puts and deletes the mappers find exactly the
  stored objects that refer to the changed one.
* **Lists used as maps** (`KeyedList`, `GoSlices`, `StatusLists`, `Conditions`). Conditions,
  search-index statuses, IP entries and stream connections refine maps over whole runs, from any
  stored list; the status lists are changed in place in their backing arrays.
* **Names and pointers** (`KubeNames`, `JsonPointer`, `Text`). Normalized names, pod names, and JSON
  Pointer escaping with the decoding of section 4 of RFC 6901.
* **Backup compliance** (`BackupCompliance`). Comparing specs by normalizing them in place, the
  round trip to Atlas and back, and the two comparisons of the controller.
* **Chat sessions** (`Chat`). The bot's calls suspend while they wait for the network; histories and
  payloads are characterized over every interleaving.
* **Smaller algorithms** (`Compare`, `Deprecations`, `FederatedAuth`). `Picking` says what loops that
  skip elements leave: each wanted element at its rank.

Some findings of the proofs, each with its exact condition and a case in which it bites:

* `NormalizeIdentifier` does not always return a valid identifier. It does exactly when the name is
  valid already or, after stripping, something is left in which every dot stands between
  alphanumerics (`KubeNames.IdentifierValidIff`). "a.#b", the example of the comment in
  `internal/kube/kube.go`, fails (`KubeNames.CommentedExample`).
* The comparison in `handleUpserting` runs on the live spec. Normalizing clears the overwrite flag
  before the flags are compared, so the spec's own flag makes no difference to the answer; `upsert`
  compares a deep copy and its answer does depend on the flag. On one state they agree exactly when
  the specs differ, nothing is recorded as applied, or the flag is not set
  (`BackupCompliance.BothComparisons`, `BackupCompliance.ComparisonsDiffer`).
* To Atlas and back does not keep a nil item list apart from an empty one, nor an on-demand unit that
  is not in lower case (`BackupCompliance.RoundTripIff`, `BackupCompliance.NilListComesBackEmpty`,
  `BackupCompliance.CapitalUnitComesBackLowered`).
* Clearing a chat or switching its mode does not reach a suspended call, whose turn opens the new
  history. The history after a reset is what was asked after it, whatever follows, exactly when no
  call of the chat is suspended at the time (`Chat.CleanResetIff`, `Chat.SuspendedCallOutlivesReset`).
  Switching to an unknown mode fails only after the mode and the history have been changed: the
  failing callback leaves all as it was exactly when the chat was in that mode already and had no
  history (`Chat.Bot.OnCallback`, `Chat.FailingCallbackBites`).
* `IsEqualWithoutOrder` decides rearrangement for all first lists exactly when its second list has no
  repeats. The order of its arguments makes no difference for any partner exactly when a list has at
  most one element (`Compare.DecidesRearrangementIff`, `Compare.OrderNeverMattersIff`).
* The key of a matcher or a threshold is the key of no other exactly when none of its texts holds a
  bar, the key of a list of matchers exactly when there is at most one, and the key of a notification
  without bars shows all but what `ShownNotification` drops exactly when its roles hold no comma
  between or in them (`AlertKeys.MatcherKeyUniqueIff`, `AlertKeys.MatcherListKeyUniqueIff`,
  `AlertKeys.NotificationKeyUniqueIff`).
* Secret tokens do not enter a notification's key. Alert configurations have a canonical form exactly
  when those whose keys show the same up to order are the same up to order; notifications that differ
  only in a token break it (`AlertCanonical.AlertsCanonicalIff`, `AlertCanonical.SecretTokensBreakIt`).

Conventions: Go strings are byte sequences with one `char` per byte, except in `KubeNames`, where
bytes and runes are told apart, and in `Chat`, where a `char` is a Python character. What the code
takes from outside becomes a parameter: clock readings, the answers of clients, the failures of event
creation, `strings.ToLower`, JSON texts (as a function of the value, injective where that matters).
Places where the Go code would panic on a nil pointer appear as preconditions.

## Model

| member | source | states |
|---|---|---|
| `Normalize.NormalizeOnlyReorders` | internal/cmp/normalize.go:50-69 | whatever the unstable sorts do, normalizing only reorders slices: the result is one `PermuteOrder` could produce |
| `Normalize.ReordersSym` | internal/cmp/normalize.go:82-88 | what shuffling at every depth can do, shuffling can undo |
| `Normalize.ReordersTrans` | internal/cmp/normalize.go:82-88 | two shuffles at every depth amount to one |
| `Normalize.Canonical` | internal/cmp/normalize.go:50-126 | two reorderings of the same data, at any depth, have the same normal form, for every outcome of the unstable sorts, if marshalling did not fail and no slice of the form holds different elements that compare equal |
| `Normalize.CanonicalIffTieFree` | internal/cmp/normalize.go:50-126 | all reorderings and all outcomes of the sorts give the same form exactly when the form holds no tie between different elements |
| `Normalize.Idempotent` | internal/cmp/normalize.go:50-69 | normalizing a tie-free normal form changes nothing |
| `Normalize.SemanticEqualDecidesReordering` | internal/cmp/normalize.go:30-40 | without an error and without ties the answer is whether one value is a reordering of the other |
| `Normalize.CanonicalIffUnambiguous` | internal/cmp/normalize.go:50-126 | the same said of the value before: one form exactly when, in each of its slices, elements whose normal forms can be compared by one text are reorderings of each other |
| `Normalize.NormalizeAfterReorder` | internal/cmp/normalize.go:50-88 | normalizing any reordering of a value gives a normal form of the value itself |
| `Normalize.AlwaysCanonicalIff` | internal/cmp/normalize.go:50-126 | all data are canonical exactly when the encoding gives different texts to different normal forms |
| `Normalize.InjectiveIsCanonical` | internal/cmp/normalize.go:50-126 | with injective keys and JSON texts that never fail, no error is reported and all reorderings of any data have one normal form |
| `Normalize.NormalFormExists` | internal/cmp/normalize.go:94-126 | every value has a normal form |
| `NormalForms.NormalFormIff` | internal/cmp/normalize.go:50-126 | a value is a normal form of another exactly when it is a reordering of it in which every slice that stands on a way of pointers, exported fields and elements has its texts in ascending byte order, but for slices that cannot be sorted |
| `NormalForms.ShuffleChangesIff` | internal/cmp/normalize.go:82-126 | shuffling can change a value exactly when some slice on such a way has two different elements |
| `NormalForms.FailsIff` | internal/cmp/normalize.go:50-69 | an error is reported exactly when a slice on such a way has two or more elements, no keys, and an element that does not marshal |
| `Text.CompareIsByteOrder` | internal/cmp/sort.go:43-57 | the comparison is ascending: negative exactly when, at the first place where the strings differ, the first has ended or has the smaller byte |
| `NormalizeInPlace.NormalizeData` | internal/cmp/normalize.go:94-126 | the traversal over backing arrays that are not shared leaves data whose value is a normal form of the value before, in the same arrays; without an error every slice reached ascends, and an error comes exactly from a slice that cannot be sorted |
| `NormalizeInPlace.NormalizeSlice` | internal/cmp/normalize.go:110-125 | a slice: elements first, then the slice itself; without an error it and every slice in it ascend; one of length zero is left alone |
| `NormalizeInPlace.NormalizeParts` | internal/cmp/normalize.go:100-122 | fields of a struct or elements of a slice, each normalized without disturbing the others |
| `NormalizeInPlace.SortElements` | internal/cmp/normalize.go:52-67 | one slice sorted in place to a permutation whose texts ascend, unless a comparison failed; an error exactly when two or more elements include one that does not marshal |
| `NormalizeInPlace.Less` | internal/cmp/normalize.go:53-66 | one comparison: whether the key, or for other element types the JSON text, of the first precedes that of the second in byte order; an error exactly when one of the two does not marshal |
| `NormalizeInPlace.SemanticEqual` | internal/cmp/normalize.go:30-40 | two pieces of data without shared arrays, or one and itself, are normalized in place; an error of either gives no answer; otherwise, for unambiguous data, the answer is whether one is a reordering of the other |
| `SliceSorting.NormalizeSlice` | internal/cmp/normalize.go:42-48 | nil for an empty slice, otherwise the slice itself, sorted with ties in their old order |
| `SliceSorting.StableFormUnique` | internal/cmp/normalize.go:42-48 | sorted slices are equal exactly when their ties stand in the same order, so the stable sort has one possible outcome |
| `AlertKeys.SliceKeyOf` | internal/cmp/sort.go:35-41 | the loop joins one key per element, in order, in brackets |
| `AlertKeys.MatcherKeyIs` | api/v1/alert_configurations.go:119-121 | a matcher's key is field name, operator and value with bars between them |
| `KeyTexts.ThresholdKeyIs` | api/v1/alert_configurations.go:142-144 | a threshold's key is operator, units and threshold with bars between them |
| `KeyTexts.MetricThresholdKeyIs` | api/v1/alert_configurations.go:370-376 | a metric threshold's key is metric name, operator, threshold, units and mode with bars between them |
| `KeyTexts.NotificationKeyIs` | api/v1/alert_configurations.go:252-275 | a notification's key is its 27 texts in the order of the code with bars between them, and the roles in brackets |
| `AlertKeys.SameKeyIffSameShown` | api/v1/alert_configurations.go:50-58 | configurations without separators in their texts, notifications included, have the same key exactly when they are equal up to secret tokens, nil against zero values, nil against empty lists, and a single empty role against none |
| `KeyTexts.SameShownIff` | api/v1/alert_configurations.go:50-58 | two configurations show the same exactly when they agree in every field but the notifications, up to nil lists, and each notification agrees up to secret tokens, nil against zero values and a single empty role against none |
| `AlertKeys.KeyOfShown` | api/v1/alert_configurations.go:252-275 | a key is determined by what it shows; the secret tokens and nil-ness do not enter it |
| `AlertKeys.KeysWithoutNotifications` | api/v1/alert_configurations.go:50-58 | without notifications, the same key means equal up to nil against empty lists |
| `AlertKeys.MatchersShown` | api/v1/alert_configurations.go:119-121 | matcher lists without separators are recovered from their joined keys |
| `AlertKeys.ThresholdShown` | api/v1/alert_configurations.go:142-144 | an optional threshold is recovered from its key, nil from "nil" |
| `AlertKeys.MetricThresholdShown` | api/v1/alert_configurations.go:370-376 | an optional metric threshold is recovered from its key |
| `AlertKeys.PointerShown` | internal/cmp/sort.go:28-33 | a pointer's key tells nil from every key of two or more parts |
| `AlertKeys.NotificationShown` | api/v1/alert_configurations.go:252-275 | a notification key is recovered from any longer text that starts with it |
| `AlertKeys.MatcherKeyUniqueIff` | api/v1/alert_configurations.go:119-121 | a matcher's key is the key of no other matcher exactly when none of its three texts holds a bar |
| `AlertKeys.MatcherListKeyUniqueIff` | internal/cmp/sort.go:35-41 | the key of a list of matchers is the key of no other list exactly when there is at most one, without bars in its texts |
| `AlertKeys.NotificationKeyUniqueIff` | api/v1/alert_configurations.go:252-275 | a notification without bars in its texts shares its key with one that shows otherwise exactly when there is a comma between or in its roles |
| `AlertKeys.ThresholdKeyUniqueIff` | api/v1/alert_configurations.go:142-144 | a threshold's key is the key of no other threshold exactly when none of its three texts holds a bar |
| `AlertKeys.MetricThresholdKeyUniqueIff` | api/v1/alert_configurations.go:370-376 | the same for the five texts of metric thresholds |
| `AlertCanonical.AlertsCanonicalIff` | internal/cmp/normalize.go:50-80 | normalizing configurations without separators reports no error and gives a reordering of the configurations, their matchers, notifications and roles; all reorderings have this one form exactly when the configurations given, and the notifications of each, are the same up to order wherever their keys show the same up to order |
| `AlertCanonical.LikeAlertIff` | internal/cmp/normalize.go:82-88 | configurations are the same up to the order of matchers, notifications and roles exactly when their data are reorderings of each other |
| `AlertCanonical.NothingHiddenIsCanonical` | internal/cmp/normalize.go:50-80 | configurations whose keys show all of them, without secret tokens, nil pointers and nil lists, always have a canonical form |
| `AlertCanonical.SecretTokensBreakIt` | api/v1/alert_configurations.go:252-275 | two notifications that differ only in a secret token leave their configuration without a canonical form |
| `AlertOrder.AlertsReordered` | internal/cmp/normalize.go:82-88 | shuffling the data of configurations at every depth gives data of configurations, each like one of the old ones |
| `AlertOrder.KeyedEncoding` | internal/cmp/normalize.go:71-80 | there is an encoding that compares sortable elements by their keys, as assumed of it above |
| `DryRun.ErrorQueue.AddTerminationError` | internal/dryrun/error_queue.go:31-40 | errors are queued, in order, only while the queue is active |
| `DryRun.ErrorQueue.TerminationError` | internal/dryrun/error_queue.go:42-50 | nil exactly when nothing but nil errors is queued, otherwise an error that holds the others in order, with their texts on lines of their own; the queue is kept |
| `DryRun.ErrorQueue.ClearTerminationErrors` | internal/dryrun/error_queue.go:52-57 | empties the queue and leaves its activity alone |
| `DryRun.ErrorQueue.EnableErrors` | internal/dryrun/error_queue.go:59-64 | activates the queue and keeps its errors |
| `DryRun.JoinKeepsLeaves` | internal/dryrun/error_queue.go:42-50 | joining loses no leaf error and keeps their order |
| `DryRun.LeavesByPath` | internal/dryrun/manager.go:226-242 | the leaves are all the leaves of the tree, from left to right, each at its path |
| `DryRun.ContainsIffLeaf` | internal/dryrun/error.go:44-47 | a tree contains a dry-run error exactly when one of its leaves is one |
| `DryRun.ErrorEventsLeaveTrace` | internal/dryrun/manager.go:259-270 | every non-nil error is reported by at least one event, and by a warning, then exactly one, if and only if its tree holds no dry-run error |
| `DryRun.ErrorEventsAre` | internal/dryrun/manager.go:226-270 | of an error with a dry-run error in it, one normal event on the object for each leaf, from left to right, that is a dry-run error, with its message, or whose text holds the prefix, with that text; of any other error one warning with its text |
| `DryRun.Manager.constructor` | internal/dryrun/manager.go:80-94 | no namespaces given means all namespaces; no reconcilers yet |
| `DryRun.Manager.SetupReconciler` | internal/dryrun/manager.go:96-98 | reconcilers run in the order they are set up |
| `DryRun.Manager.Eventf` | internal/dryrun/manager.go:101-142 | one attempt: the event is in the log exactly when its creation did not fail |
| `DryRun.Manager.ReportDryRunErrors` | internal/dryrun/manager.go:226-257 | the log gets one normal event per leaf that is a dry-run error (its message alone) or whose text holds the prefix (the text), left to right, up to the first failing creation |
| `DryRun.Manager.ReportError` | internal/dryrun/manager.go:259-270 | the log gets the events of an error: those of its leaves when one is a dry-run error, otherwise one warning, up to the first failing creation |
| `DryRun.Manager.Reconcile` | internal/dryrun/manager.go:59-66 | an item's error is the one its reconcile returned, and if it returned none the join of those it queued, whatever the global queue held before, also when a reconciler's behaviour depends on what it reconciled before |
| `DryRun.Manager.DryRunItem` | internal/dryrun/manager.go:183-194 | an item's reports, then its "done" |
| `DryRun.Manager.DryRunNamespace` | internal/dryrun/manager.go:178-195 | the items of a namespace in order; a failing list call ends the run |
| `DryRun.Manager.DryRunReconcilers` | internal/dryrun/manager.go:156-198 | the log of all reconcilers, namespaces and items in order, cut at the first failure |
| `DryRun.Manager.ExecuteDryRun` | internal/dryrun/manager.go:144-154 | the whole run writes exactly the specified log, "finished" last, cut at the first failure |
| `DryRun.FailureCutsTheLog` | internal/dryrun/manager.go:144-198 | if the k-th event creation is the first to fail, the log is the first k-1 events of the fault-free log and the run reports failure |
| `DryRun.SuccessMeansFinished` | internal/dryrun/manager.go:144-154 | a run that reports success delivered every event, "finished" last, and listed every namespace |
| `DryRun.EachItemIsDone` | internal/dryrun/manager.go:163-196 | in the log of a run that reports success every namespace of every reconciler was listed, and right after the events of all reconcilers, namespaces and items before it stand an item's own reports and its "done" |
| `DryRun.ChainHoldsEachPiece` | internal/dryrun/manager.go:163-196 | the pieces of a loop stand in its log one after the other |
| `DeepCopying.CopyCell` | api/v1/zz_generated.deepcopy.go:1596-1600 | a pointer's target copied to fresh memory, nil stays nil |
| `DeepCopying.CopySlice` | api/v1/zz_generated.deepcopy.go:1601-1605 | a slice copied to fresh memory, nil stays nil |
| `DeepCopying.CopyGroups` | api/v1/zz_generated.deepcopy.go:1607-1613 | private endpoints and teams, with the slices inside them, equal and in fresh memory |
| `DeepCopying.CopyCustomRoles` | api/v1/zz_generated.deepcopy.go:2566-2580 | custom roles with their actions, resources and the pointers inside those, equal and in fresh memory |
| `DeepCopying.CopyActions` | api/v1/zz_generated.deepcopy.go:76-85 | actions with their resources, equal and in fresh memory |
| `DeepCopying.CopyRecord` | api/v1/zz_generated.deepcopy.go:3371-3388 | a struct of pointers to plain values, equal and in fresh memory |
| `DeepCopying.CopyEncryption` | api/v1/zz_generated.deepcopy.go:2767-2772 | the key management of three providers behind a pointer, equal and in fresh memory |
| `DeepCopying.CopySettings` | api/v1/zz_generated.deepcopy.go:3305-3337 | the project settings behind a pointer, equal and in fresh memory |
| `ProjectRedaction.CopyNotification` | api/v1/zz_generated.deepcopy.go:3117-3145 | an equal notification whose pointers and roles are fresh |
| `ProjectRedaction.CopyAlert` | api/v1/zz_generated.deepcopy.go:280-304 | an equal alert configuration in fresh memory, notifications included |
| `ProjectRedaction.CopyAlerts` | api/v1/zz_generated.deepcopy.go:1624-1630 | equal alert configurations, each in fresh memory of its own |
| `ProjectRedaction.DeepCopy` | api/v1/zz_generated.deepcopy.go:1683-1690 | an equal spec in fresh memory, the alert configurations apart from the rest and from each other |
| `ProjectRedaction.RedactNotifications` | api/v1/atlasproject_types.go:167-177 | in place, every secret of every notification overwritten and nothing else |
| `ProjectRedaction.RedactAlerts` | api/v1/atlasproject_types.go:166-178 | redacting the alert configurations of the copy turns each into the redacted one |
| `ProjectRedaction.MarshalLogObject` | api/v1/atlasproject_types.go:163-182 | modifies nothing that existed before; what is logged denotes the redacted spec, in fresh memory |
| `ProjectRedaction.RedactionHidesExactlyTheSecrets` | api/v1/atlasproject_types.go:165-178 | in the logged value the eight secret fields of every notification read as the redaction text, and every other field, length and nil-ness is the original one |
| `ProjectRedaction.EverySpecDenotes` | api/v1/atlasproject_types.go:163-182 | the precondition of the copy and of the logging holds for every spec in memory |
| `Common.SelectNamespace` | api/v1/common/common.go:85-93 | the first non-empty namespace, empty only when all are |
| `Common.ResolveIsRefersTo` | api/v1/common/common.go:54-62 | a reference resolves to an object exactly when the names agree and the namespace is the given one or, without one, the parent's |
| `Indexer.KeyOfSlashFreeNameIsUnique` | internal/indexer/atlasreferredprojects.go:69-74 | the key of a name without slashes is the key of no other name |
| `Indexer.KeyDeterminesNameIff` | internal/indexer/atlasreferredprojects.go:69-74 | a name is determined by its key exactly when it has no slash |
| `Indexer.KeyReadsBack` | internal/indexer/atlasprojectsecrets.go:54-58 | split at its slash, a key reads as namespace and name |
| `Indexer.ProjectKeyMeansReference` | internal/indexer/atlasreferredprojects.go:46-59 | an object is indexed under a project's key exactly when it refers to the project |
| `Indexer.ProjectSecretKeys` | internal/indexer/atlasprojectsecrets.go:48-86 | the nested loops gather a key exactly for each non-empty reference in the connection secret, the three encryption secrets, or any of the six secrets of a notification |
| `Indexer.IndexIsScan` | internal/indexer/atlasreferredprojects.go:46-59 | over every run of puts and deletes a key's bucket holds exactly the stored objects with that key, in their last version |
| `Indexer.MapperIsScan` | internal/indexer/atlasreferredprojects.go:61-83 | looking a key up in the index finds what a scan of the stored objects would |
| `Indexer.ProjectMapperFindsReferrers` | internal/indexer/atlasreferredprojects.go:46-83 | the requests for a changed project are exactly the stored objects that refer to it, over every run |
| `Indexer.CredentialsMapperFindsUsers` | internal/indexer/localcredentials.go:54-96 | the requests for a changed secret are exactly the stored objects of the kind with these local credentials, over every run |
| `Indexer.SecretMapperFindsProjects` | internal/indexer/atlasprojectsecrets.go:48-86 | the requests for a changed secret are exactly the stored projects that refer to it in one of these places, over every run |
| `KeyedList.Table.ListIsMap` | api/v1/status/atlasdeployment.go:186-225 | over every run of updates, removals and prunings a list has no key twice and finding a key gives what a map would hold |
| `KeyedList.Table.RunInBirthOrder` | api/v1/status/atlasdeployment.go:198-225 | surviving entries stand in the order of their insertion |
| `KeyedList.Table.SlotIsLastValue` | api/v1/status/atlasipaccesslist.go:40-70 | where an update keeps nothing of the old entry, a key holds what was last put and not removed since |
| `KeyedList.Table.RunFromIsRun` | api/v1/status/atlasdeployment.go:186-225 | a run from a stored list without repeated keys is a run from the empty one that first inserts its entries |
| `KeyedList.Table.FilterPicks` | api/v1/status/atlasdeployment.go:186-196 | what a filter keeps is each wanted entry, at its rank |
| `GoSlices.Slice.RemoveAt` | api/v1/status/atlasdeployment.go:220 | the tail moves down in the same backing array, what lies behind the new end stays |
| `GoSlices.Slice.Append` | api/v1/status/atlasdeployment.go:211 | one element at the end, in the same backing array or a new one |
| `StatusLists.AtlasDeploymentStatus.SetSearchIndexStatus` | api/v1/status/atlasdeployment.go:199-213 | updates the entry of that name where it stands or appends; an empty ID keeps the old one |
| `StatusLists.AtlasDeploymentStatus.UnsetSearchIndexStatus` | api/v1/status/atlasdeployment.go:216-225 | in the same backing array, removes the entry of that name and closes the gap |
| `StatusLists.AtlasDeploymentStatus.RemoveStatusesWithEmptyIDs` | api/v1/status/atlasdeployment.go:186-196 | a new slice of exactly the entries whose ID is not empty, in order; the old one is left as it was |
| `StatusLists.AtlasIPAccessListStatus.AddEntryStatus` | api/v1/status/atlasipaccesslist.go:40-58 | sets the status of an entry where it stands or appends it |
| `StatusLists.AtlasIPAccessListStatus.RemoveEntryStatus` | api/v1/status/atlasipaccesslist.go:60-70 | in the same backing array, removes the entry and closes the gap |
| `StatusLists.AtlasStreamInstanceStatus.AddConnection` | api/v1/status/atlasstreaminstance.go:51-63 | sets the reference of a connection where it stands or appends it |
| `StatusLists.AtlasStreamInstanceStatus.RemoveConnection` | api/v1/status/atlasstreaminstance.go:65-74 | in the same backing array, removes the connection and closes the gap |
| `StatusLists.SearchIndexRun` | api/v1/status/atlasdeployment.go:186-225 | over every run, from any duplicate-free list, the search indexes are a map by name; an entry's ID is the last non-empty one set since it was inserted, its status and message those of the last set |
| `StatusLists.IDNeverErased` | api/v1/status/atlasdeployment.go:199-213 | while an entry stays, its ID is kept or replaced by a non-empty one |
| `StatusLists.EntriesRun` | api/v1/status/atlasipaccesslist.go:40-70 | over every run, from any duplicate-free list, IP entries are unique and hold what was last added for them |
| `StatusLists.ConnectionsRun` | api/v1/status/atlasstreaminstance.go:51-74 | over every run, from any duplicate-free list, connections are unique and hold their last reference |
| `StatusLists.InsertionOrder` | api/v1/status/atlasdeployment.go:186-225 | in all three lists the entries stand in the order of their insertion, those of the starting list first |
| `Conditions.HasConditionType` | api/condition.go:172-179 | true exactly when a condition of the type is in the list |
| `Conditions.EnsureConditionExists` | api/condition.go:191-209 | updates or appends in a copy, keeps the transition time when the status did not change, and leaves the source slice as it was |
| `Conditions.RemoveConditionIfExists` | api/condition.go:211-219 | the conditions of the other types, in order, in a list of their own |
| `Conditions.ConditionsRun` | api/condition.go:191-219 | over every run, from any stored list without repeated types, types stay unique, a type is present exactly when its last call was an update, and its entry is that update's condition with the time of the call that last changed its status; a stored condition counts as an update at its stored time |
| `Conditions.LastChangeUnique` | api/condition.go:197-200 | only one call last changed a type's status, so the stored time is determined |
| `Conditions.TransitionTimesGrow` | api/condition.go:191-209 | with a clock that never goes back transition times do not either |
| `KubeNames.DecodeRune` | internal/kube/kube.go:81-89 | bytes below 0x80 read as themselves and all others as runes outside ASCII, one to four bytes each |
| `KubeNames.RunesAre` | internal/kube/kube.go:85-87 | the runes of a string are those whose encodings, by section 3 of RFC 3629, stand in it one after the other, and the replacement rune for every byte where none stands |
| `KubeNames.Normalize` | internal/kube/kube.go:81-89 | what the four assignments return is within the limit, of allowed characters, empty or with alphanumeric ends, without double dashes; it has exactly the letters and digits of the lowered, cut name, in order; and it is left alone by another call |
| `KubeNames.NormalizedForm` | internal/kube/kube.go:81-89 | for every input: within the limit, allowed characters and dashes only, empty or with alphanumeric ends, never two dashes in a row |
| `KubeNames.LettersKept` | internal/kube/kube.go:81-89 | no letter or digit of the lowered, cut name is lost, added or moved |
| `KubeNames.NormalizedTwice` | internal/kube/kube.go:81-89 | normalizing again changes nothing |
| `KubeNames.LabelValueAlwaysValid` | internal/kube/kube.go:57-62 | the result is a valid label value for every input |
| `KubeNames.LabelValueIs` | internal/kube/kube.go:57-62 | exactly the valid label values are left as they are; any other name is cut to 63 bytes, lowered, freed of what is not alphanumeric at its ends, and gets one dash for every maximal run of runes that are not kept |
| `KubeNames.IdentifierIs` | internal/kube/kube.go:47-52 | exactly the DNS-1123 subdomains and the strings in the form of a result are left as they are; any name but a subdomain is cut to 253 bytes, lowered, stripped and dashed in the same way |
| `KubeNames.WhatIsKept` | internal/kube/kube.go:28-34 | an identifier keeps lower-case letters, digits and dots, a label value underscores too |
| `KubeNames.IdentifierValidIff` | internal/kube/kube.go:47-52 | the result is a DNS-1123 subdomain exactly when the name is one, or something is left after stripping in which every dot stands between alphanumerics |
| `KubeNames.CommentedExample` | internal/kube/kube.go:78-80 | "a.#b" gives no valid identifier |
| `KubeNames.DotFreeIdentifier` | internal/kube/kube.go:47-52 | a dot-free name gives the empty string or a DNS-1123 subdomain |
| `KubeNames.DNSLabelsIff` | internal/kube/kube.go:48-50 | dot-separated labels are the strings with alphanumeric ends, allowed characters and dots between alphanumerics |
| `KubeNames.ParseRoundTrip` | internal/kube/kube.go:70-76 | a pod name yields a deployment name exactly when it is that name followed by two dash-free hashes |
| `KubeNames.ParseFailsIff` | internal/kube/kube.go:70-76 | parsing fails exactly on strings with fewer than two dashes |
| `JsonPointer.EscapeIsToken` | pkg/controller/state/annotations.go:24 | the escaped form has no slash, and every tilde in it is followed by 0 or 1 |
| `JsonPointer.EscapeIsImages` | pkg/controller/state/annotations.go:24 | the escaped form is, byte after byte, "~0" for a tilde, "~1" for a slash and every other byte itself |
| `JsonPointer.DecodeOfEscape` | pkg/controller/state/annotations.go:24 | the two decoding passes of section 4 of RFC 6901 restore every string |
| `JsonPointer.EscapeOfDecode` | pkg/controller/state/annotations.go:24 | decoding and escaping restores exactly the reference tokens |
| `JsonPointer.OnePassIsTildesFirst` | pkg/controller/state/annotations.go:24 | the single pass does what two passes do that escape tildes first |
| `JsonPointer.SlashesFirstAgreesIff` | pkg/controller/state/annotations.go:24 | two passes in the other order agree exactly on strings without a slash |
| `JsonPointer.OtherOrderRestoresIff` | pkg/controller/state/annotations.go:24 | decoding in the other order restores exactly the strings without "~1" |
| `JsonPointer.NamesOfPointer` | pkg/controller/state/reapply.go:106-110 | a pointer built from escaped names refers to exactly those names |
| `JsonPointer.AnnotationPathNames` | pkg/controller/state/reapply.go:106-110 | the patch path addresses the named annotation, for every annotation name |
| `Text.JoinOfSplit` | internal/kube/kube.go:71-75 | splitting gives separator-free parts, one more than separators, that join to the string |
| `Text.SplitOfJoin` | internal/kube/kube.go:71-75 | separator-free parts are recovered from their join |
| `BackupCompliance.Normalize` | api/v1/atlasbackupcompliancepolicy_types.go:160-166 | the receiver itself ends with its items in ascending byte order of their JSON texts and the overwrite flag cleared, all else kept |
| `BackupCompliance.SemanticEqual` | internal/cmp/normalize.go:30-40 | two specs, possibly nil, identical or sharing items, are equal exactly when all fields but the overwrite flag agree, nil-ness of the lists agrees and the items agree as multisets; both are left normalized |
| `BackupCompliance.NormalFormsAgreeIff` | api/v1/atlasbackupcompliancepolicy_types.go:160-166 | normal forms are equal exactly for the same specs |
| `BackupCompliance.SameSpecIsEquivalence` | api/v1/atlasbackupcompliancepolicy_types.go:160-166 | being the same spec is an equivalence |
| `BackupCompliance.ShowTheSameIff` | api/v1/atlasbackupcompliancepolicy_types.go:160-166 | two specs show the same exactly when they agree in each of the eight fields that are compared besides the items |
| `BackupCompliance.DeepCopy` | api/v1/zz_generated.deepcopy.go:380-398 | an equal spec in fresh memory |
| `BackupCompliance.ToAtlas` | api/v1/atlasbackupcompliancepolicy_types.go:91-125 | e-mail, both names, window and the four fields of every item carried over, each to its own field; the flags as pointers to the spec's own, the on-demand value kept and its unit lowered, an empty on-demand policy left out, a nil list made empty |
| `BackupCompliance.NewBCPFromAtlas` | api/v1/atlasbackupcompliancepolicy_types.go:127-158 | nil for nil, otherwise a fresh spec with e-mail, both names, flags, window, on-demand policy and the four fields of every item, each from its own field, absent ones with their zero value |
| `BackupCompliance.RoundTripIff` | api/v1/atlasbackupcompliancepolicy_types.go:91-158 | to Atlas and back gives the same spec exactly when the list is not nil and the on-demand policy is empty or its unit in lower case |
| `BackupCompliance.RoundTrip` | api/v1/atlasbackupcompliancepolicy_types.go:91-158 | the same for the code, converting there and back and comparing |
| `BackupCompliance.UpsertUnchanged` | internal/controller/atlasproject/backupcompliancepolicy.go:135-149 | the comparison leaves the live spec alone; specs that differ are not equal, no annotation leaves them equal, an unreadable one is an error, and otherwise the live spec's own overwrite flag must be the one last applied |
| `BackupCompliance.UpsertingUnchanged` | internal/controller/atlasproject/backupcompliancepolicy.go:96-110 | the comparison normalizes the live spec, so its own overwrite flag does not enter the answer |
| `BackupCompliance.BothComparisons` | internal/controller/atlasproject/backupcompliancepolicy.go:96-149 | the two comparisons, one after the other on one spec, answer alike exactly when the specs differ, nothing is recorded as applied, or the live flag is not set |
| `BackupCompliance.ComparisonsDiffer` | internal/controller/atlasproject/backupcompliancepolicy.go:96-149 | on a spec with the flag set that is in Atlas and was applied as it is, one comparison says unchanged and the other says changed |
| `BackupCompliance.NilListComesBackEmpty` | api/v1/atlasbackupcompliancepolicy_types.go:91-158 | no spec with a nil list survives the round trip |
| `BackupCompliance.CapitalUnitComesBackLowered` | api/v1/atlasbackupcompliancepolicy_types.go:91-158 | a spec with a capital letter in its on-demand unit does not survive it either |
| `Chat.Bot.StartCall` | bot.py:46-85 | up to the await: the payload sent, and the user message kept by the suspended call, text or image with the text as its caption |
| `Chat.Bot.ReturnCall` | bot.py:85-102 | after the await: a whole turn appended on a reply, nothing on an error; the reply is the texts of the text blocks in order, or the fixed text when there is nothing in them |
| `Chat.ReturnIs` | bot.py:94-98 | the call is no longer suspended, its question and the answer are new at the end of the chat's history, and nothing else changes |
| `Chat.ReplyTextIs` | bot.py:90-92 | the reply is the texts of the text blocks one after the other, or the fixed text |
| `Chat.Bot.ClearHistory` | bot.py:136-138 | the chat's history goes, suspended calls stay |
| `Chat.Bot.OnCallback` | bot.py:176-206 | "p:" switches to the mode after it and drops the history, "toggle_search" flips the search, "clear" drops the history, anything else changes nothing; an unknown mode fails after the state has changed, and leaves it as it was exactly when the chat was in that mode and had no history |
| `Chat.SwitchChangesNothingIff` | bot.py:182-186 | a switch changes nothing exactly then |
| `Chat.UnknownModeIsGeneral` | bot.py:42-43 | after a switch to an unknown mode the chat is asked as in the general one |
| `Chat.FailingCallbackBites` | bot.py:182-186 | a chat with an answered question loses it to a callback that fails |
| `Chat.HistoryIsTurns` | bot.py:46-102 | in every interleaving each history is whole turns, one per completion since the last reset, with what the call was started with and what it returned |
| `Chat.HistoryByPosition` | bot.py:46-102 | the same by positions: two messages for each reply since the last reset, in the order of the replies, the content of the last start of its call before it, and what the reply says |
| `Chat.ModeIs` | bot.py:182-186 | the mode of a run is the key of the last switch, or the general one |
| `Chat.PayloadOfRun` | bot.py:46-85 | in every interleaving each payload holds the last ten turns and the new message, alternates, starts and ends with the user, has at most 21 messages, and carries the mode last switched to and the search as toggled |
| `Chat.SuspendedCallOutlivesReset` | bot.py:94-98 | a call suspended during a reset opens the new history with its turn |
| `Chat.CleanResetIff` | bot.py:136-138 | after a clear or a mode switch the history is what was asked after it, for every continuation, exactly when no call of the chat is suspended at the time |
| `Chat.ChatsAreIsolated` | bot.py:33-35 | a chat sees what it would see if its events were the only ones |
| `Chat.SendChunks` | bot.py:104-106 | message i is the text from character 4000 i on, all but the last of 4000 characters, none empty, and together they are the text |
| `Compare.IsEqualWithoutOrder` | internal/compare/comparation.go:17-31 | true exactly when the lengths agree and the first list holds every element of the second |
| `Compare.RearrangementsAreEqual` | internal/compare/comparation.go:17-31 | true for every pair of permutations |
| `Compare.NoRepeatsMeansRearranged` | internal/compare/comparation.go:17-31 | without repeats in the second list, true means a permutation |
| `Compare.DecidesRearrangementIff` | internal/compare/comparation.go:17-31 | it decides permutation for all first lists exactly when the second has no repeats |
| `Compare.SymmetricIff` | internal/compare/comparation.go:17-31 | two lists get the same answer both ways exactly when their lengths differ or both or neither hold the other's elements; always, when neither has repeats |
| `Compare.OrderNeverMattersIff` | internal/compare/comparation.go:17-31 | the order of the arguments makes no difference for any partner exactly when the list has at most one element |
| `Deprecations.ComparatorIsTotalOrder` | tools/scandeprecation/scan_deprecations.go:65-73 | the three-field comparator is a total order whose ties are equality, and it orders rows by Java method, then type, then date, each in ascending byte order |
| `Deprecations.Compact` | tools/scandeprecation/scan_deprecations.go:74 | runs of equal elements cut to one, in place |
| `Deprecations.SortedAndCompacted` | tools/scandeprecation/scan_deprecations.go:64-74 | sorted and compacted rows increase strictly in that order and hold exactly the responses |
| `Deprecations.Scan` | tools/scandeprecation/scan_deprecations.go:49-56 | the responses of the lines that parse, in order; the pieces of every line are printed |
| `Deprecations.ScanDeprecations` | tools/scandeprecation/scan_deprecations.go:35-99 | standard output holds the pieces of every line and then, unless no line parses, the table: its header and one line with type, Java method and date for each distinct parsed response, strictly ascending by method, type and date |
| `Deprecations.RowsDetermined` | tools/scandeprecation/scan_deprecations.go:64-80 | two logs give the same rows exactly when they hold the same responses |
| `FederatedAuth.ToAtlas` | api/v1/atlasfederatedauth_types.go:65-117 | every mapping at its place with its name and what its resolving assignments become, every unknown project reported in order, optional fields set only when not empty |
| `FederatedAuth.AssignmentsConserved` | api/v1/atlasfederatedauth_types.go:69-92 | kept assignments and reported errors add up to all assignments |
| `FederatedAuth.KeptInOrder` | api/v1/atlasfederatedauth_types.go:72-87 | the kept assignments are what the resolving ones become, in their order: their own role, and the named project's group or the organization |
| `FederatedAuth.ReportedInOrder` | api/v1/atlasfederatedauth_types.go:75-80 | the errors of a mapping name the projects of its other assignments, in their order |
| `FederatedAuth.ErrorsByMapping` | api/v1/atlasfederatedauth_types.go:66-117 | the errors are those of the mappings one after the other |
| `FederatedAuth.KeptHasOneTarget` | api/v1/atlasfederatedauth_types.go:73-85 | each kept assignment has the role of an assignment of the mapping and exactly one target: the group of the project that one names or, when it names none, the organization |
| `FederatedAuth.NoErrorIff` | api/v1/atlasfederatedauth_types.go:75-80 | no error exactly when every named project resolves |

## Left out

- Reflection, JSON text syntax, `%` formatting and the regexp engine: trees, encoding functions and hand-written scanners stand for them.
- PermuteOrder: a relation (`Normalize.Reorders`) that allows every outcome of the shuffles; the swaps in place are not modelled.
- NormalizeInPlace.NormalizeData: data whose slices share a backing array is not modelled, and a pointer target is part of the data that points to it, not an object of its own.
- Normalize.Canonical: a JSON encoding is any function that may fail; that Go's encoding replaces invalid UTF-8, and so is not injective there, is not modelled.
- NormalizeInPlace.SemanticEqual: comparing different data that share an array is not modelled; `BackupCompliance.SemanticEqual` covers it for its specs.
- AlertCanonical.AlertsCanonicalIff: the plain fields of a struct are grouped, which the traversal does not see, and only the alert configurations of a spec are encoded.
- BackupCompliance.SemanticEqual: the JSON text of an item is assumed injective, which holds for valid UTF-8 texts; spec lists that overlap without being the same list are not modelled.
- AlertKeys.NotificationKeyUniqueIff: which notifications with bars in their texts share a key is not characterized, nor is it for whole configurations with separators.
- DryRun.Manager.Eventf: names, timestamps, annotations and the reference lookup of an event are left out; a lookup that fails counts as a failing creation.
- DryRun.Manager.Reconcile: what a reconciler does depends on the item and on how many were reconciled before, what its list call returns on the namespace only; the queue's mutex and concurrent writers are left out, and so are custom `As` and `Is` methods of errors.
- ProjectRedaction.MarshalLogObject: structs that hold no pointers are summarized as field lists, and the encoder call is the returned value.
- GoSlices.Slice: another slice over the same backing array is not modelled.
- Indexer.MapperFunc: listing through the cache returns the bucket at once, without delay between store and index.
- The database-user-by-project index: it reads another object's status when it indexes.
- KubeNames.NormalizedTwice: of `unicode.ToLower` only its values on ASCII are known, and that nothing else lowers to a dot.
- Chat: access control, statistics, reports and the Telegram messages are left out, and so is the text of errors.
- FederatedAuth.ToAtlas and BackupCompliance.NewBCPFromAtlas: the unchecked dereferences of the source are preconditions.
- Deprecations.Scan: parsing a log line is a parameter.
- Clients, reconcilers, the translation layer, finalizers, result types, threshold parsing, web pages and the database: I/O, plumbing, or code whose behaviour lies in libraries.
