# Verified model of crane-lib

crane-lib moves Kubernetes applications between clusters. This project models two of its parts and proves what they guarantee.

**The transform pipeline.** Plugins look at a resource and return JSON patches (RFC 6902). `Runner` collects them and keeps one operation per path, by plugin priority; it emits the survivors by ranging over a Go map, so in arbitrary order. `Applier` applies a stored patch, creating missing paths on add and ignoring them on remove. `NewResource` goes the other way and splits a resource into a skeleton and add operations. `KubernetesPlugin`, `ServicePlugin`, `ServiceLaws` and `RoleBindings` produce removals from a resource, `JobOrder` and `MemberOrder` put them together and show that their order does not matter, and `Compare` decides equality of patches. Around them, `Grouping`, `ApiVersion`, `YamlDocuments`, `Registry` and `Filenames` model the string work that lays out the output.

**Quiescing.** Passes over a cluster's objects save replica counts or node selectors in annotations, stop the objects, and later restore them. A write may fail and end a pass anywhere. `Workloads` models what a pass does with one object, `QuiesceRuns`, `DaemonRuns` and `JobRuns` whole runs with users changing objects in between, `SelectorCodec` the text that selectors are saved as, and `Cluster` the passes themselves.

`PatchOrder` proves when the order of a patch's operations cannot show; `Outcomes`, `NestedOrder`, `ListOrder`, `PairOrder` and `EmissionOrder` prove exactly when that of two operations does.

`Json`, `Pointer`, `Patch`, `Removals`, `ListPruning`, `Unstructured`, `Strings`, `Strconv`, `Sorting` and `Pairings` are the foundation: documents, RFC 6901 pointers, patch semantics and the library calls that the code relies on.

Three phrases recur. A path is *off lists* when its last token names no element of an existing list. A path is *safe* for an operation when its last token names an object member, every list on the way is indexed at an existing element, and whatever an add has to create on the way are objects. Two operations are *independent* when neither path lies on the other, or both only remove.

Run `dafny verify dfyconfig.toml` to check everything. Some lemmas about texts take tokens such as "spec" as parameters and require them to be those texts; that keeps character sequences out of the solver's way.

## What turned out not to hold

- Emission order shows. Conflict resolution compares whole paths, so it keeps every pair of operations with different paths (`EmissionOrder.DifferentPathsKept`), and for `/a` and `/a/b` the two orders can apply to different resources (`EmissionOrder.NestedOrderShows`). For any two operations, at any places of any document, `PairOrder.OrderHiddenIff` says exactly when the order is hidden, and `EmissionOrder.EmissionShowsIff` carries that from the plugins to the applied resource. The cases are in `NestedOrder` (one inside the value of the other, or the same place named by two texts) and `ListOrder`.
- The comment at transform/internal/jsonpatch/compare.go:82 says that a value that cannot be decoded makes operations unequal. The code compares two nils and finds them equal: 1e400 and 2e400 are valid JSON, do not decode, and collide (`Compare.UnreadableCollide`, and exactly when in `Compare.UnreadableEqualIff`). The model follows the code.
- A null value decoded from JSON text is a nil pointer in the patch library, which `ValueInterface` reports as missing. The model calls it `Nil`; it equals an absent value (`Compare.DecodedNullIff`) and is applied as null. `Present(Null)` stands for raw null bytes, which only an operation that was not decoded from text can hold.
- An ignored operation can equal the kept one: exactly when in `RunnerLaws.IgnoredEqualsKeptIff`, with `RunnerLaws.NoneIgnoredEqual` as a simple guard.
- Jobs and CronJobs are tested for being stopped by comparing addresses (state_transfer/quiesce.go:491 and state_transfer/quiesce.go:548), so they are never passed over. `Workloads.JobRestoredIff`, `JobRuns.JobComesBackIff` and `Workloads.CronJobRestoredIff` say exactly what comes back.
- A user who scales a quiesced object to zero gets the old count back (`Workloads.ScaleKeepsSoundIff`), and a user who sets the quiesce key on a daemon set with a saved selector gets the saved one back (`Workloads.SelectorEditIff`).
- A string node port is read and then ignored (`ServicePlugin.StringNodePortIgnored`); an apiVersion without parts panics (`ApiVersion.ParsePanicsIff`); dots in kinds make type keys ambiguous (`ApiVersion.DottedKindCollides`).

## Model

| member | source | states |
|---|---|---|
| `Pointer.EscapeRoundTrip` | transform/new_resource.go:128-134 | Decoding a token as RFC 6901 section 4 asks undoes the two-pass escape for every string, and an escaped token holds no "/" |
| `Pointer.OtherOrderCollides` | transform/new_resource.go:130-132 | Escaping "/" before "~" would write two different tokens alike |
| `Pointer.ReadWrite` | transform/kubernetes/kubernetes.go:630-635 | Reading the pointer text that is built from escaped tokens gives back the tokens |
| `Pointer.WriteInjective` | transform/kubernetes/kubernetes.go:630-635 | Different token lists are written as different pointers |
| `Patch.ResolveIs` | apply/applier.go:29-33 | What an operation asks for, by its kind, path and value |
| `Patch.EffectAt` | apply/applier.go:43-47 | After an operation its path holds the written value, or nothing after a removal, and so does every path below |
| `Patch.FrameAt` | apply/applier.go:43-47 | An operation leaves the value, or the absence, of every path that is neither above nor below its own |
| `Patch.RemoveSucceeds` | apply/applier.go:43-47 | Removing a safe path succeeds whether or not it is there |
| `Patch.AddShifts` | apply/applier.go:43-47 | Adding at an index of a list puts the value there, shifts the elements from that index on by one and loses none |
| `Patch.RemoveUndoesAdd` | apply/applier.go:43-47 | Removing the index just added to gives back the list, and replacing there is the same as having added the other value |
| `Patch.PastTheEnd` | apply/applier.go:43-47 | "-" adds after the last element; removing an index past the end changes nothing, replacing it fails |
| `Applier.ApplyIff` | apply/applier.go:17-59 | Applying succeeds, and with what, exactly when the patch applies and leaves an object with a nonempty string as kind |
| `Applier.AnyOrderApplies` | apply/applier.go:17-59 | Independent operations stored in another order apply with the same outcome, failure included |
| `PatchOrder.CommuteAt` | transform/runner.go:210-215 | Two operations on a document commute when neither path lies on the other, or both only remove |
| `PatchOrder.StaysSafe` | transform/runner.go:210-215 | An operation keeps the path of an independent one safe |
| `PatchOrder.BringForward` | transform/runner.go:210-215 | An operation that is independent of all before it may be applied first |
| `PatchOrder.OrderIrrelevant` | transform/runner.go:210-215 | Every permutation of pairwise independent operations fails, or every permutation gives the same document, so ranging over the map is harmless for them |
| `Outcomes.FailsIff` | apply/applier.go:43-47 | Exactly which operations fail, by what can be looked up before: a replacement of nothing, a removal by a token that is no index, an add that something on the way blocks |
| `Outcomes.SafeAddFailsIff` | apply/applier.go:43-47 | On a safe path only a value on the way that is no container makes an add fail |
| `Outcomes.SettlesIff` | apply/applier.go:43-47 | Exactly which operations succeed and change nothing |
| `NestedOrder.NestedAddIff` | transform/runner.go:210-215 | An add off lists and any operation inside the value it adds: the order is hidden exactly when the add fails, or the inner operation fails on the old and the new value, or works on the old one and changes nothing in the new one |
| `NestedOrder.NestedReplaceIff` | transform/runner.go:210-215 | The same for a replacement of any value, list elements included: with nothing to replace, it is hidden unless the inner operation adds something |
| `NestedOrder.NestedRemoveIff` | transform/runner.go:210-215 | A removal off lists and any operation inside what it removes: hidden for a removal exactly when it works, for a replacement exactly when it fails, for an add exactly when it fails in both orders |
| `NestedOrder.NestedOrderIff` | transform/runner.go:210-215 | The three together, for every operation off lists and every one inside its value |
| `NestedOrder.SamePlaceIff` | transform/runner.go:210-215 | Two operations at the very same place off lists: exactly when their order is hidden |
| `Pointer.TwoTextsOnePlace` | transform/runner.go:155-159 | Two different path texts, which conflict resolution keeps apart, can name the same place |
| `ListOrder.OrderWithin` | transform/runner.go:210-215 | Two operations inside an existing value show their order in the document exactly when they show it in the value |
| `ListOrder.MembersHidden` | transform/runner.go:210-215 | Operations that go to different members of an object never show their order, safe or not |
| `ListOrder.ElementsIff` | transform/runner.go:210-215 | Operations on two different elements of a list: the order is hidden exactly when the higher one finds the same on both sides of the shift |
| `ListOrder.SameElementIff` | transform/runner.go:210-215 | Operations on one and the same element: exactly when the order is hidden |
| `ListOrder.TwoAppendsIff` | transform/runner.go:210-215 | Two appends to one list: hidden exactly when the values are equal |
| `ListOrder.InsideElementIff` | transform/runner.go:210-215 | An operation on an element and one inside an element: exactly when the order is hidden |
| `ListOrder.AppendElementIff` | transform/runner.go:210-215 | Appending and an operation on an element: hidden exactly when that is not the element appended, or for an add the place behind it |
| `ListOrder.AppendInsideIff` | transform/runner.go:210-215 | Appending and an operation inside an element: exactly when the order is hidden |
| `ListOrder.InsideTwoElements` | transform/runner.go:210-215 | Operations inside two different elements never show their order |
| `ListOrder.NoElementHidden` | transform/runner.go:210-215 | An operation whose token names no element of a list never shows its order |
| `PairOrder.AddsIff` | transform/runner.go:210-215 | Two operations that part where nothing is yet: the order shows exactly when, of two adds, one fails alone and works once the other has made the object |
| `PairOrder.ListIff` | transform/runner.go:210-215 | Two operations that part at a list, whatever their tokens |
| `PairOrder.OrderHiddenIff` | transform/runner.go:210-215 | Any two operations at any two places of any document: both orders come to the same exactly when a condition on what can be looked up before holds |
| `EmissionOrder.DifferentPathsKept` | transform/runner.go:154-215 | Conflict resolution keeps two operations with different paths, whatever the priorities, and may emit them either way round |
| `EmissionOrder.ApplyShowsIff` | apply/applier.go:43-58 | Two orders apply alike exactly when they give the same document or neither gives a resource with a kind |
| `EmissionOrder.EmissionShowsIff` | transform/runner.go:210-215 | From plugins to applied resource, for any two operations with different paths: conflict resolution keeps both, and the order of emission is hidden exactly when that condition holds, or both orders spoil the kind; beside the kind exactly when it holds |
| `EmissionOrder.NestedOrderShows` | transform/runner.go:210-215 | On every resource with a kind there are two operations that conflict resolution keeps and whose two orders apply to different results |
| `Compare.EqualOperationIff` | transform/internal/jsonpatch/compare.go:33-86 | Two operations are equal exactly when kind, path and, for move and copy, source agree, and so do the values: equal ones, or two that are absent or null pointers, or two that do not decode, or one such and raw null |
| `Compare.EqualOperationEquivalence` | transform/internal/jsonpatch/compare.go:33-86 | Operation equality is symmetric and transitive, and reflexive exactly on operations with a readable path and, for move and copy, source |
| `Compare.UnreadableEqualIff` | transform/internal/jsonpatch/compare.go:58-83 | An operation with a value that does not decode equals exactly those with the same kind, path and source whose value does not decode either or is raw null bytes |
| `Compare.UnreadableCollide` | transform/internal/jsonpatch/compare.go:58-83 | Two adds of different numbers that are too large to decode are equal, although the comment there says they are not |
| `Compare.DecodedNullIff` | transform/internal/jsonpatch/compare.go:61-75 | An operation with a decoded null equals exactly those with the same target that have a decoded null or no value |
| `Compare.Claim` | transform/internal/jsonpatch/compare.go:19-25 | The inner loop claims the first free operation that equals the given one |
| `Compare.Equal` | transform/internal/jsonpatch/compare.go:11-31 | Greedy matching returns true exactly when the operations of both patches can be paired one to one, with the same target and value in each pair |
| `Compare.EqualIsPairing` | transform/internal/jsonpatch/compare.go:11-31 | Such a pairing exists exactly when both patches consist of the same well-formed operations as multisets |
| `Compare.EqualEquivalence` | transform/internal/jsonpatch/compare.go:11-31 | Patch equality is symmetric, transitive, and reflexive exactly on well-formed patches |
| `Runner.Emit` | transform/runner.go:210-215 | Ranging over the map emits every kept operation once, in no particular order |
| `Runner.SanitizePatches` | transform/runner.go:151-216 | The loop settles the operations one after the other; exactly the paths that occur are kept, each with its first operation of the lowest priority number, plugins without a number last |
| `Runner.RunPlugins` | transform/runner.go:77-105 | Operations and new resources of the plugins that succeed are collected in list order; the first failing plugin is remembered |
| `Runner.Run` | transform/runner.go:76-145 | A failing plugin comes before a whiteout, a whiteout before the patches; the error returned is that of the first plugin that fails |
| `Runner.KeptIsFirstBest` | transform/runner.go:151-216 | The same for each path: no operation there has a lower number than the kept one, and every earlier one has a higher number or none |
| `RunnerLaws.FirstBestUnique` | transform/runner.go:160-163 | There is only one such operation on a path |
| `RunnerLaws.Conservation` | transform/runner.go:154-208 | As multisets, input operations are the kept ones, the ignored ones and the equal repeats |
| `RunnerLaws.NothingLost` | transform/runner.go:154-208 | Every input operation is kept or ignored, or equals one that is |
| `RunnerLaws.IgnoredLost` | transform/runner.go:176-194 | Every ignored operation lost to an unequal one on its path with no higher priority number |
| `RunnerLaws.IgnoredEqualIff` | transform/runner.go:176-194 | For any operation x: some ignored operation equals x exactly when, after one equal to x has come in, something unequal is at some moment the best so far on that path |
| `RunnerLaws.IgnoredEqualsKeptIff` | transform/runner.go:176-194 | For the kept operation x, exactly when that happens before x comes in |
| `RunnerLaws.NoneIgnoredEqual` | transform/runner.go:176-194 | It does not happen when nothing before the kept operation equals it |
| `RunnerLaws.IgnoredMayEqualKept` | transform/runner.go:176-194 | It happens whenever, of three operations that outrank each other in turn, the first and the last are equal and the one between is not |
| `RunnerLaws.SanitizeFailsIff` | transform/runner.go:155-175 | Conflict resolution fails exactly when an operation has no path, or two share a path and one of them has an unreadable value |
| `PluginOrder.RankedByPriorities` | transform/runner.go:160-163 | Strict ranking means distinct names, distinct priorities and at most one plugin without a priority |
| `PluginOrder.Contribution` | transform/runner.go:83-105 | What each plugin of the list adds to the collected operations and resources: those of its response, under its name and in their order, or nothing when it fails |
| `PluginOrder.PluginOrderIrrelevant` | transform/runner.go:83-105 | Permuting strictly ranked plugins changes neither whether conflict resolution succeeds nor what is kept |
| `PluginOrder.PipelineDeterministic` | transform/runner.go:76-145 | From plugins to applied resource: neither plugin order nor emission order shows when the kept operations are independent |
| `Strings.LessIff` | transform/new_resource.go:119-126 | The first difference decides the order of two strings |
| `Sorting.SortedKeys` | transform/new_resource.go:119-126 | The keys of a map, each once, strictly increasing |
| `NewResource.BuildSkeleton` | transform/new_resource.go:51-74 | The skeleton has exactly apiVersion, kind and, for object metadata, name and namespace, with their values |
| `NewResource.BuildPatchOps` | transform/new_resource.go:78-111 | One add per missing key: first metadata, then top level, each in key order |
| `NewResource.Rebuilds` | transform/new_resource.go:22-111 | Applying the operations to the skeleton gives back the original object exactly |
| `NewResource.RebuildIndependent` | transform/new_resource.go:78-111 | The operations are pairwise independent and safe on the skeleton |
| `NewResource.RebuildsInAnyOrder` | transform/new_resource.go:22-111 | They rebuild the object in whatever order they are applied |
| `NewResource.SplitNewResource` | transform/new_resource.go:22-47 | Splitting fails exactly for a nil object; otherwise every order of the patch rebuilds the object from the skeleton |
| `Removals.StripExact` | transform/kubernetes/kubernetes.go:622-644 | For any field list: the patch applies, nothing is left at or below the fields, paths beside them keep their values, shapes above stay, and a second run finds nothing |
| `KubernetesPlugin.StripListed` | transform/kubernetes/kubernetes.go:622-644 | The loop removes the fields that are there and fails at the first one that cannot be walked to |
| `KubernetesPlugin.StripFields` | transform/kubernetes/kubernetes.go:70-83 | Exact stripping of the twelve listed fields, failing exactly when one of them runs into a value that is no object |
| `KubernetesPlugin.StripListIs` | transform/kubernetes/kubernetes.go:70-83 | Exactly which fields are listed, by their tokens |
| `KubernetesPlugin.RemoveKeys` | transform/kubernetes/kubernetes.go:1004-1018 | A removal for each key that is there, failing exactly when one is not a string |
| `KubernetesPlugin.RemoveSelectorUID` | transform/kubernetes/kubernetes.go:966-1002 | The whole selector unless manualSelector is true, and then its two labels |
| `KubernetesPlugin.RemoveJobControllerUID` | transform/kubernetes/kubernetes.go:957-1021 | Succeeds exactly when what it reads has the expected types, and removes exactly the fields listed for the Job |
| `JobOrder.JobTransforms` | transform/kubernetes/kubernetes.go:427-455 | When it succeeds, and it says when, the patch applies in every order and leaves, by what the documents hold: no server field and no controller identity, suspend true unless owned or marked, and all other places unchanged |
| `KubernetesPlugin.SuspendApplied` | transform/kubernetes/kubernetes.go:1039-1071 | By what the document holds: afterwards spec.suspend is true, unless the Job has owners or is annotated as idempotent among annotations that are all strings, and then it is as before |
| `KubernetesPlugin.NoControllerLeft` | transform/kubernetes/kubernetes.go:957-1021 | No controller-uid label or annotation is left anywhere in a prepared Job, nor a selector that is not manual |
| `JobOrder.StripAnyOrder` | transform/runner.go:210-215 | The stripping patch works in any order |
| `JobOrder.JobAnyOrder` | transform/runner.go:210-215 | The removals and the suspension of a Job prepare it in any order |
| `MemberOrder.MemberAnyOrder` | transform/runner.go:210-215 | Stripping and removals inside another member, in any order: the stripped resource with that member as the removals alone leave it |
| `MemberOrder.ServiceTransforms` | transform/kubernetes/kubernetes.go:602-608 | The whole patch of a Service succeeds exactly when its fields and ports are readable, and in every order gives the stripped Service with addresses and node ports as those results say |
| `MemberOrder.RoleBindingTransforms` | transform/kubernetes/kubernetes.go:490-511 | The whole patch of a RoleBinding, likewise: the stripped binding without the namespaces of its local service accounts |
| `ListPruning.PruneExact` | transform/kubernetes/kubernetes.go:893-932 | Removing a member from marked list elements gives exactly the pruned list and an otherwise unchanged document |
| `ServicePlugin.DeclaredNodePorts` | transform/kubernetes/kubernetes.go:848-891 | The names and numbers that the last applied configuration declares with a positive node port, and when reading them fails |
| `ServicePlugin.UndeclaredNodePorts` | transform/kubernetes/kubernetes.go:893-934 | A removal for every port whose node port is nonzero and was not declared |
| `ServicePlugin.GetNodePortPatch` | transform/kubernetes/kubernetes.go:820-935 | Applied, the patch gives the Service without the undeclared node ports and nothing else changed |
| `ServicePlugin.NodePortSurvivesIff` | transform/kubernetes/kubernetes.go:893-932 | A nonzero node port survives exactly when its name, or its number without a name, was declared; the rest of the port stays |
| `ServicePlugin.StringNodePortIgnored` | transform/kubernetes/kubernetes.go:948-954 | A node port given as a string reads as 0 and is never removed |
| `ServiceLaws.AddressesExact` | transform/kubernetes/kubernetes.go:724-818 | By what the documents hold: external addresses go exactly for load balancers, cluster addresses exactly unless they say None, and all other members of the spec but the ports stay |
| `ServiceLaws.NodePortsServiced` | transform/kubernetes/kubernetes.go:820-955 | By what the documents hold: for a Service with a type other than ExternalName a port loses its node port exactly when it is a number other than zero that no last applied port with a positive one asks for, by name or without one by number; all else stays |
| `ServiceLaws.NodePortIntIs` | transform/kubernetes/kubernetes.go:937-955 | A number is read towards zero, a string as 0 if it is a numeral, anything else as 0 |
| `ServiceLaws.PortsReadableIff` | transform/kubernetes/kubernetes.go:820-955 | Exactly when the node ports can be handled: the ports are objects with usable members, and the last applied configuration decodes, if there is one, and holds usable ports |
| `ServiceLaws.RemoveServiceFields` | transform/kubernetes/kubernetes.go:724-754 | Addresses and node ports become what these two results say |
| `RoleBindings.RoleBindingPatch` | transform/kubernetes/kubernetes.go:490-511 | Applied, the operations give exactly the binding without the namespaces of its local service accounts; every other subject, and everything else, stays |
| `RoleBindings.IsLocalIff` | transform/kubernetes/kubernetes.go:501-503 | Local is a subject of kind ServiceAccount whose namespace is that of the binding, nothing and null counting as the empty one |
| `RoleBindings.SubjectsExact` | transform/kubernetes/kubernetes.go:490-511 | By what the documents hold: local service accounts lose their namespace, all other subjects stay as they are and where they are |
| `RoleBindings.ReadableBindingIff` | transform/kubernetes/kubernetes.go:490-511 | Exactly which bindings can be read, by the types of what is read |
| `RoleBindings.NamespaceSurvivesIff` | transform/kubernetes/kubernetes.go:501-510 | A subject keeps its namespace exactly when it is not a service account of the binding's own namespace |
| `ApiVersion.SplitAPIVersion` | transform/types.go:114-135 | The parts that are not empty, without the last one when it ends in a character of more than one byte |
| `ApiVersion.ParseShapes` | transform/types.go:91-111 | "v" is version v of the core group, "g/v" is version v of group g, and so is "g/v/x" |
| `ApiVersion.ParsePanicsIff` | transform/types.go:96-111 | Exactly which apiVersions leave no part and make the index panic |
| `ApiVersion.TypeKeyShapes` | transform/types.go:139-151 | The key is the kind in the core group, and kind, dot and group in any other |
| `ApiVersion.TypeKeyInjective` | transform/types.go:139-151 | For kinds without dots, type keys agree exactly when kind and group agree |
| `ApiVersion.DottedKindCollides` | transform/types.go:139-151 | A kind with a dot can share a key with another kind and group |
| `Grouping.GroupResourcesByType` | transform/grouping.go:15-40 | A sorted, stable partition: keys strictly increasing, groups nonempty and in input order, every resource in exactly one place |
| `Grouping.PartitionKeepsAll` | transform/grouping.go:15-40 | The groups one after the other are a permutation of the input |
| `Grouping.SameGroupIff` | transform/grouping.go:19-23 | Two resources with dot-free kinds share a group exactly when kind and group agree |
| `YamlDocuments.SplitYAMLDocuments` | transform/grouping.go:115-160 | The loop computes the documents of the text, and what remains gets shorter in every round |
| `YamlDocuments.RemainderKept` | transform/grouping.go:115-160 | A text without separators is one document, blank or not |
| `YamlDocuments.WriteDocuments` | transform/grouping.go:50-66 | The buffer holds the documents with a separator line between them |
| `YamlDocuments.SplitUndoesJoin` | transform/grouping.go:52-66 | For clean documents, splitting the joined text gives them back, all but the last without their final newline, exactly when the last one does not start with a separator line |
| `YamlDocuments.DocumentsSeparated` | transform/grouping.go:115-160 | On any input no document contains a separator line or is empty, and only the last can be blank |
| `Registry.UpdateImageRegistry` | transform/util/registry.go:16-28 | Succeeds exactly when some key is a path prefix of the image; the longest such key is replaced and the rest of the image kept |
| `Registry.LongestMatchUnique` | transform/util/registry.go:19-21 | There is only one longest key |
| `Registry.PathPrefixIsCut` | transform/util/registry.go:18-20 | Every path prefix of the image is the join of a run of its parts |
| `Filenames.SanitizePointwise` | transform/kustomize/serializer.go:119-133 | Sanitizing turns exactly the unsafe characters into dashes |
| `Filenames.PlainFilename` | transform/kustomize/serializer.go:66-115 | The layout of the name for components that need no sanitizing |
| `Filenames.FilenameInjective` | transform/kustomize/serializer.go:66-115 | Different targets made of such components get different names |
| `Filenames.NamesCollideIff` | transform/kustomize/serializer.go:66-133 | Two object names share a file name exactly when they differ only in which unsafe characters or dashes they use |
| `Strconv.AtoiIff` | transform/kubernetes/kubernetes.go:948-952 | Exactly which texts are read as a number, and which number: a sign if wanted, zeros, and its decimal text |
| `Strconv.AtoiOfFormatInt` | state_transfer/quiesce.go:251-253 | Saving an int32 count as text and reading it back returns the count |
| `Workloads.QuiesceStops` | state_transfer/quiesce.go:335-371 | By kind and owner: replica sets that something owns are passed over by both passes, everything else is at zero afterwards, with its count in the annotation |
| `Workloads.QuiesceKeepsSound` | state_transfer/quiesce.go:211-224 | Quiescing a recoverable object stops it, unless it is an owned replica set, and keeps it recoverable |
| `Workloads.UnquiesceRestores` | state_transfer/quiesce.go:240-262 | Unquiescing a recoverable object that is no owned replica set gives it the wanted count and annotations |
| `Workloads.ScaleKeepsSoundIff` | state_transfer/quiesce.go:254-257 | Scaling by a user keeps an object restorable exactly when the count is positive or none is saved |
| `Workloads.QuiesceDaemonWrites` | state_transfer/quiesce.go:417-436 | A daemon set without the quiesce key gets it in its selector, and its old selector in the annotation; others are passed over |
| `Workloads.QuiesceDaemonKeepsSound` | state_transfer/quiesce.go:417-436 | The same for daemon sets and their node selectors |
| `Workloads.UnquiesceDaemonRestores` | state_transfer/quiesce.go:451-475 | Unquiescing gives the wanted selector back, and the annotations unless a user changed the selector meanwhile |
| `SelectorCodec.MarshalFaithful` | state_transfer/quiesce.go:426-430 | The JSON text of a selector, keys sorted and characters escaped as the encoder of the source does, determines the selector, which the results about daemon sets rest on |
| `SelectorCodec.QuotedCharReads` | state_transfer/quiesce.go:426-430 | Every quoted character reads as itself by the escapes of RFC 8259, section 7 |
| `Workloads.SelectorEditIff` | state_transfer/quiesce.go:464-470 | Changing a selector keeps it restorable exactly when the new one lacks the quiesce key or none is saved |
| `Workloads.JobRestoredIff` | state_transfer/quiesce.go:544-594 | A Job gets its parallelism back exactly when it was quiesced at most once or had parallelism 0, because the comparison with zero compares addresses |
| `JobRuns.JobComesBackIff` | state_transfer/quiesce.go:531-594 | Over whole runs of passes and scaling: after the last scaling a Job comes back at that count exactly when, for a count other than zero, no pass found it already stopped, and for zero, when no other count was saved then or one has been saved over since |
| `Workloads.CronJobRestoredIff` | state_transfer/quiesce.go:487-526 | A CronJob comes back unsuspended however it started |
| `QuiesceRuns.StepKeepsRecoverable` | state_transfer/quiesce.go:134-404 | Every pass, complete or aborted, and every allowed change by a user keeps all objects but owned replica sets recoverable |
| `QuiesceRuns.PassLeavesOwned` | state_transfer/quiesce.go:335-404 | No pass touches an owned replica set |
| `QuiesceRuns.QuiesceSafety` | state_transfer/quiesce.go:134-404 | After any run of such steps a complete unquiesce leaves every object at the count its user wanted last, with its own annotations and no saved count, and owned replica sets as they are |
| `DaemonRuns.DaemonSafety` | state_transfer/quiesce.go:406-477 | The same for daemon sets: selectors as last wanted, untouched daemon sets back to exactly what they were |
| `Cluster.Store.Update` | state_transfer/quiesce.go:220-223 | An update replaces one object or fails and changes nothing |
| `Cluster.Store.Pass` | state_transfer/quiesce.go:199-227 | A pass that stops early has visited some of the selected objects, a complete one all of them, and no others change |
| `Cluster.PassWorkloads` | state_transfer/quiesce.go:52-67 | The four passes in order keep everything recoverable, and visit everything when they succeed; owned replica sets stay as they are |
| `Cluster.Namespace.QuiesceApplications` | state_transfer/quiesce.go:27-90 | However far it gets everything stays recoverable and owned replica sets as they are; when done, or still waiting for pods, everything else is at zero; when done, a listing showed no pod that still runs |
| `Cluster.Namespace.UnquiesceApplications` | state_transfer/quiesce.go:100-131 | On success everything that was recoverable is restored; owned replica sets stay as they are |
| `Cluster.EnsureQuiescedPodsTerminated` | state_transfer/quiesce.go:602-639 | Fails exactly when listing fails; otherwise true exactly when no pending or running pod has an owner of one of the five scaled kinds |
| `Cluster.AwaitPods` | state_transfer/quiesce.go:76-88 | The polling loop ends at the first listing that fails or shows no such pod, and goes on while there is none |

## Left out

- PatchOrder.OrderIrrelevant: sufficient, not necessary, for patches of three and more operations. For two operations `PairOrder.OrderHiddenIff` is exact.
- RoleBindings.RoleBindingPatch: member names are matched exactly, where `encoding/json` also takes them in another case.
- MemberOrder.RoleBindingTransforms: the same.
- SelectorCodec.MarshalFaithful: reading back is modelled on texts that the encoder writes.
- A null that an earlier operation of the same patch wrote blocks a later add below it in the library; the model puts an object there.
- Move, copy and test operations are modelled in `Compare` only; applying one fails in the model.
- Creating lists: when an add has to create a container for a numeric or "-" token, the patch library makes a list and pads it. The model fails there, and safe paths exclude it; where a result depends on it, its condition says `NeedsList`.
- Index tokens follow RFC 6901; the library also takes "01" and "+1". A null list element on the way of an add is replaced by an object, where the library inserts one.
- JSON and YAML text: documents, patches and pointers are values, the decoder of the last-applied configuration is a parameter, and the encoding of node selectors is modelled as text. Numbers are exact reals.
- Text is a sequence of Unicode characters; byte strings that are not valid UTF-8 are not modelled.
- Error values: a failure carries no message, except that `Runner.Run` says which plugin failed. Panics of the Go code are failures as well.
- `GetAnnotations` is modelled with null values read as empty strings and any other non-string value hiding all annotations, as in apimachinery.
- Typed decoding of a Job, and of the parts of a RoleBinding that are not read: whether it succeeds is a parameter.
- The flags of the Kubernetes plugin: added and removed annotations, PVC renames and registry replacement inside patches. Whiteouts and the optional-flag parsing are left out too.
- Pods, stateful sets and the other kinds of `getKubernetesTransforms`: removals of fixed fields, and renames of volumes.
- `EqualPluginOperation` and `EqualPluginOperationList` compare element by element on top of `EqualOperation`.
- The pauses between polls, API clients and discovery. What the polling loop lists is a parameter, of finite length. Listing may fail as a whole and every write may fail on its own.
- The five per-kind loops are one generic pass with a step per kind. A nil annotation map and a nil node selector are empty maps, and replica pointers are never nil, as the API server defaults them.
- Writes by users during a pass: as an update of a stale object is rejected, such a run is a shorter pass, the change, and another pass.
- In-place sorting is a sort that returns a new sequence, and Go maps that are only built and read are values.
- Plugin.Run on a binary plugin, the command line, conversion of build configurations, transfers, transports, endpoints and tunnels.
