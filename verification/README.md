# Verified model of the Operand Deployment Lifecycle Manager

The Operand Deployment Lifecycle Manager (ODLM) lets applications ask for operators and their
operands through OperandRequests. This project models the parts of its controllers that carry state
between reconciles, and proves what they keep. Run `dafny verify dfyconfig.toml`.

- **Merging custom resources.** `Json`, `Merge` (the deep merge as a function on documents),
  `MergeInPlace` (the same merge as the code performs it: Go maps on the heap, assigned into while
  their keys are visited in any order), `CustomResource` (the double merge every reconcile repeats),
  `K8sResource` (overwrite or merge by hash).
- **Shared Subscriptions.** `Annotations` (the keys requests register under and their parsers),
  `Uninstall` and `LastOneOut` (who may tear down what, over whole runs), `SharedSteps` (reconciling and
  uninstalling are the steps of those runs), `Semver`, `Sorting`,
  `Channels` and `Subscription` (module `Subscriptions`: which channel wins, and the Subscription object),
  `TrackingConfigMap` (the variant without OLM).
- **Leaving.** `Cleanup` (what uninstalls do, on values) and `CleanupPass` (uninstalling members in any order,
  when they leave the status and when the finalizer goes).
- **Shared copies.** `BindInfo` (copying and cleaning up), `CopiesProtocol` (runs of OperandBindInfos that
  share copies, call by call), `Leftovers` (what they leave behind) and `CopyRuns` (runs that go wrong).
- **The status object.** `RequestStatus` (the calls on values) and `RequestObject` (the object whose
  lists are Go slices, one of them cut while it is ranged over).
- **Smaller loops and recursions.** `Catalog` (discovery and pinned catalogs), `RegistryIndex`,
  `ObjectPath` and `ObjectPathInPlace` (adding and removing a field by path), `Template` and
  `TemplateInPlace` (resolving references).

Where the code keeps a Go map iteration, the model visits a set in any order. Answers of the API
server are inputs. A failing type assertion, an index out of range or an assignment to a nil map is
an outcome of the model (`Panic`, `None` or `ok == false`), never excluded by a precondition.

Where the code does not do what its comments or names suggest, the model follows the code, names an
input that shows it and gives the exact condition under which the expectation holds:

- one updateCustomResource pass is not always enough (`SecondPassNeeded`, `OnePassIsEnough`);
- a second updateK8sResource can drop a null (`StrayNullIsDropped`, `SecondUpdateChangesNothing`);
- operands of a config are not always torn down (`SharedOperatorHidesConfig`, `TornDownExactly`);
- an empty channel name can keep a Subscription from settling (`EmptyChannelUnsettles`,
  `IdempotentExactly`);
- a request with two registry blocks can lose a cleanup (`SecondBlockUnreadable`, `NoLostCleanup`);
- an operator that cannot be resolved counts as uninstalled (`UnresolvedIsForgotten`,
  `LeftBehindExactly`, `StillListedExactly`);
- operands another namespace's request of the same name still uses can be deleted (`NamesakeMisleads`,
  `MisledExactly`);
- without OLM a retried uninstall can flag operands that another registrant still uses
  (`RetryTearsDownSharedConfig`, `DecidingAgain`);
- a channel can be left although a request still asks for its version (`UnprefixedChannelMoves`,
  `HeldExactly`, `ChannelIsHeldExactly`);
- the do-not-uninstall label does not keep a Subscription without CSVs (`SparedIsDeleted`,
  `SparedStaysExactly`, `SparedIsDeletedExactly`), and a user-managed operator takes the Subscription from
  everybody (`ClaimantKeepsExactly`);
- a copy somebody relies on can be deleted or lose that manager, because a delete and the write of a copy
  carry no version (`LiveCopyIsDeleted`, `LiveLabelIsLost`, `RunIsSafeExactly`);
- a copy can outlive all its managers (`InterleavedCopyLeaks`, `StepIsTidyExactly`,
  `WholeCopyIsTidyExactly`, `TidyExactly`), and copies from Routes and Services do so without any
  interleaving (`RouteCopyLeaks`, `CopyOfUnlistedLeaks`);
- removing an entry while ranging over the list fails on duplicates (`RangeRemoveExactly`);
- the fallback of highest version is not always taken (`TextOrderTakesTheLower`, `HighestExactly`);
- fallback channels of equal version are overlooked, and a pinned catalog is asked for versions
  instead of channels (`NeverOverlooksAFallback`, `PinnedAgrees`);
- dots in operator names make registrations collide (`OperatorsCollideExactly`), dots in registry
  names make registry keys look like registrations (`RegistryKeyMatches`).

## Model

| member | source | states |
|---|---|---|
| Merge.MergeSelf | controllers/util/merge.go:66 | Equal subtrees merge to themselves, so the code may skip them. |
| Merge.MergeSameDefaultTwice | controllers/util/merge.go:57-102 | Filling in the same defaults again changes nothing. |
| Merge.MergeSameChangeTwice | controllers/util/merge.go:57-102 | Overriding by the same tree again changes nothing. |
| Merge.MergeKeepsCarried | controllers/util/merge.go:57-102 | Defaults filled into a tree that carries every choice of the config undo none of them. |
| Merge.ChangedScalarSurvives | controllers/util/merge.go:65-102 | Every non-null scalar of the changed tree stands unchanged at its own path, lists included. |
| Merge.ChangedListLengthSurvives | controllers/util/merge.go:79-94 | A list of the changed tree keeps its length whatever the defaults. |
| Merge.MergeIsLocal | controllers/util/merge.go:68-94 | Below aligned objects, through objects and lists of objects, the merge is the merge of what stands there. |
| Merge.DefaultIsFilledIn | controllers/util/merge.go:70-71 | A default key that the changed object lacks or holds null at is filled in whole; a null default is never added; no other key appears. |
| Merge.ScalarsHaveAnOrigin | controllers/util/merge.go:65-102 | Every scalar of the result stands at that path in one of the inputs, the default's only where the changed tree has no scalar. |
| Merge.SafeAgain | controllers/util/merge.go:86-89 | Where a merge met no failing type assertion, merging the same defaults into its result meets none. |
| Merge.UnsafeExactly | controllers/util/merge.go:79-92 | An assertion fails if and only if at some place two lists stand and the changed list has no object where the default list has a non-empty one. |
| Merge.CompatibleIsSafe | controllers/util/merge.go:86-89 | If aligned list elements are objects together or not at all, no unchecked assertion fails. |
| Merge.CompatibleWithMerge | controllers/util/merge.go:57-102 | That compatibility is closed under merging. |
| MergeInPlace.DeepEqual | controllers/util/merge.go:66 | Comparing two documents on the heap decides whether they are the same document. |
| MergeInPlace.MergeKeys | controllers/util/merge.go:57-60 | The loop over the default keys, in any order, fails exactly when an assertion would and otherwise leaves the pure merge in the changed document's own maps. |
| MergeInPlace.CheckKeyBeforeMerging | controllers/util/merge.go:65-102 | One key: fails exactly when an assertion would; otherwise the key holds the pure merge, all other keys their old values, and the document stays free of sharing. |
| MergeInPlace.MergeLists | controllers/util/merge.go:83-93 | Lists merge element by element as far as both go, inside the changed list's own objects. |
| CustomResource.DoubleConverges | controllers/operandrequest/reconcile_operand.go:872-882 | The double merge applied three times equals it applied twice, for all documents. |
| CustomResource.TwoPassesReachAFixedSpec | controllers/operandrequest/reconcile_operand.go:860-892 | For every alm-example, spec and config bytes (empty, malformed, null or any document): once two passes go through, all later passes go through and write the same spec. |
| CustomResource.DefaultsPlacedAtOnce | controllers/operandrequest/reconcile_operand.go:872-882 | One pass is already fixed under the defaults if and only if the config never replaces a value by one of another kind, or a list element the existing list lacks, where the alm-example has something to add. |
| CustomResource.OnePassIsEnough | controllers/operandrequest/reconcile_operand.go:872-882 | The second double merge changes nothing if and only if that condition holds. |
| CustomResource.SecondPassNeeded | controllers/operandrequest/reconcile_operand.go:872-882 | One pass is not enough whenever the alm-example has defaults for a config's list element and the cluster's list is still empty; all types agree. |
| CustomResource.SecondPassCanBeNeeded | controllers/operandrequest/reconcile_operand.go:872-882 | Such documents. |
| CustomResource.CompatiblePassesNeverStop | controllers/operandrequest/reconcile_operand.go:872-882 | With pairwise compatible documents no pass of any number fails, and they stay compatible. |
| CustomResource.PassPriorities | controllers/operandrequest/reconcile_operand.go:860-892 | After a pass every scalar of the config stands, every scalar of the existing spec where the config is silent, and every value of the alm-example where both are. |
| CustomResource.MergeCRMeans | controllers/util/merge.go:27-62 | What MergeCR answers for no bytes, null, other documents, malformed bytes and objects on either side. |
| CustomResource.MergeDecoded | controllers/util/merge.go:48-62 | MergeCR's loop on Go map variables, nil ones included, is the pure merge and fails exactly when that does. |
| K8sResource.UpdateCarriesConfig | controllers/operandrequest/reconcile_operand.go:1184-1211 | After an update by either branch, merging the config in again would change no section but metadata. |
| K8sResource.SecondUpdateChangesNothing | controllers/operandrequest/reconcile_operand.go:1184-1211 | A second update changes nothing if and only if neither the caller's annotations nor else the config's own metadata set another hash, and the object found had the hash already or no top-level null the config does not ask for. |
| K8sResource.StrayNullIsDropped | controllers/operandrequest/reconcile_operand.go:1194-1205 | An object with such a null, on which the second update changes something. |
| K8sResource.UpdateIsExactly | controllers/operandrequest/reconcile_operand.go:1184-1211 | A new hash replaces each section the config names and keeps the others; a known hash merges section by section and drops nulls; annotations and labels are set on what either leaves of the metadata, everything else of which stays; an update stops exactly when that merge fails. |
| K8sResource.ConfigScalarsHold | controllers/operandrequest/reconcile_operand.go:1188-1211 | Every non-null scalar of the config, its metadata included, stands in the updated object in both branches, but for the annotations and labels the update writes. |
| K8sResource.EnsureAgain | controllers/operator/manager.go:825-845 | Setting labels or annotations again is without effect exactly when they are all there. |
| K8sResource.Resource.UpdateK8sResource | controllers/operandrequest/reconcile_operand.go:1184-1211 | The object in place: fails exactly when the hash is known and the merge does, unchanged then, and otherwise leaves section by section what is said above. |
| Annotations.KeysNeverCollide | controllers/operandrequest/reconcile_operator.go:245-256 | Keys of distinct registrants or kinds differ, whatever dots or slashes the request name has, when namespaces and operators have no dot. |
| Annotations.OperatorsCollideExactly | controllers/operandrequest/reconcile_operator.go:247-256 | Registrations of two operators share every key for some request names if and only if one operator's name ends in a dot and the other's. |
| Annotations.MatchesOwnKind | controllers/operandrequest/reconcile_operator.go:775-777 | A registrant's key matches the pattern of its own kind and no other. |
| Annotations.RegistryKeyMatches | controllers/operandrequest/reconcile_operator.go:245-246 | A registry-level key matches a registration pattern if and only if the registry name is dotted and the kind is the same. |
| Annotations.OperatorIsRecovered | controllers/operandrequest/reconcile_operator.go:784-788 | The operator name is read back from any key of a registrant. |
| Annotations.RequestIsRecovered | controllers/operandrequest/operandrequest_controller.go:311-317 | The watch mapper reads back namespace and name if and only if the request name has no dot. |
| Uninstall.UnregisterRepresents | controllers/operandrequest/reconcile_operator.go:765-767 | Deleting one registrant's keys leaves the annotations standing for exactly the other registrations. |
| Uninstall.RegisterRepresents | controllers/operandrequest/reconcile_operator.go:247-256 | Registering, or registering again with other values, touches no other registration. |
| Uninstall.MarkRepresents | controllers/operandrequest/reconcile_operator.go:245-256 | The four or five keys a reconcile writes add exactly one registration. |
| LastOneOut.DecisionRefines | controllers/operandrequest/reconcile_operator.go:754-818 | The two flags computed from annotation strings are the ones a decision on the set of registrations gives. |
| LastOneOut.RunCorresponds | controllers/operandrequest/reconcile_operator.go:137-321 | In every run of creates, reconciles, departures, relabellings (control label absent, other or "true"), reconciles of an operator the user manages by now, and failed steps, the annotations stand for exactly the registrations made and not withdrawn, and the Subscription exists exactly while they or its labels keep it. |
| LastOneOut.ClaimantKeepsExactly | controllers/operandrequest/reconcile_operator.go:170-195 | Whatever others do in a run, a registrant that claims the Subscription's namespace keeps it and its registration throughout if and only if no reconcile finds the operator user managed and the Subscription labelled and not spared; such a reconcile deletes it whoever else is registered. |
| LastOneOut.SparedStaysExactly | controllers/operandrequest/reconcile_operator.go:455-503 | In a run that leaves the labels alone a Subscription with the do-not-uninstall label is there throughout if and only if no uninstall flags the operator and finds no CSVs. |
| LastOneOut.TeardownFlags | controllers/operandrequest/reconcile_operator.go:754-818 | When all leave in any order, the operator is flagged for the last one only, and operands for exactly those after whom nobody shares their operator or config. |
| LastOneOut.EachConfigOnce | controllers/operandrequest/reconcile_operator.go:805-815 | If config is a function of operator, every config's operands are flagged exactly once, when its last registrant leaves. |
| LastOneOut.SharedOperatorHidesConfig | controllers/operandrequest/reconcile_operator.go:805-815 | Two configs behind one operator name: one of them is never torn down. |
| LastOneOut.TornDownExactly | controllers/operandrequest/reconcile_operator.go:805-815 | A config's operands are torn down in every order of departures if and only if none of its registrants shares an operator with a registrant of another config. |
| SharedSteps.ReconcileIsStep | controllers/operandrequest/reconcile_operator.go:211-256 | A reconcile that keeps the Subscription writes the annotations of the run's step. |
| SharedSteps.CreateIsStep | controllers/operandrequest/reconcile_operator.go:326-360 | Where there is no Subscription the step creates one in the operator's namespace with the control label and the four annotations, unless the operator is no-op. |
| SharedSteps.UninstallIsStep | controllers/operandrequest/reconcile_operator.go:415-516 | An uninstall of the only candidate leaves what the run's departure leaves. |
| SharedSteps.OtherSteps | controllers/operandrequest/reconcile_operator.go:217-239 | A Subscription outside its operator's namespace that nobody asks for there is deleted unless spared; one without the control label is let alone by every step. |
| TrackingConfigMap.CmDecisionRefines | controllers/operandrequestnoolm/reconcile_operator.go:608-670 | The flags computed from the strings are the ones a decision on the registrations of those who stay gives, also for one already unregistered. |
| TrackingConfigMap.DecidingAgain | controllers/operandrequestnoolm/reconcile_operator.go:315-337 | A retry after the registration was dropped: flagged operands stay flagged, so a failed cleanup is not lost; with OLM none would be flagged; the flags are the same as before exactly when no shared config kept the operands. |
| TrackingConfigMap.RetryTearsDownSharedConfig | controllers/operandrequestnoolm/reconcile_operator.go:608-670 | Two operators sharing a config: a retry flags the operands the other registrant still uses. |
| TrackingConfigMap.CmMarkRepresents | controllers/operandrequestnoolm/reconcile_operator.go:206-219 | The keys written, the package name's among them, add exactly one registration. |
| TrackingConfigMap.CmTeardownFlags | controllers/operandrequestnoolm/reconcile_operator.go:608-670 | Leaving in any order flags operator and operands as with OLM. |
| TrackingConfigMap.CmRunCorresponds | controllers/operandrequestnoolm/reconcile_operator.go:132-389 | The same for the ConfigMap, whose departures drop the registration before the cleanup; each registration names a config, so nobody need reconcile twice for that. |
| TrackingConfigMap.CmStepMeans | controllers/operandrequestnoolm/reconcile_operator.go:177-389 | A reconcile lets a ConfigMap without the control label alone; a written departure drops the registration whatever the label says and deletes only a controlled ConfigMap that is not spared, cleaned up after and claimed by nobody else. |
| TrackingConfigMap.ConfigMap.CheckOpReqCMAnnotationsForUninstall | controllers/operandrequestnoolm/reconcile_operator.go:608-670 | Removes exactly the registrant's own keys and returns the specified flags. |
| TrackingConfigMap.ConfigMap.UninstallOperatorsAndOperands | controllers/operandrequestnoolm/reconcile_operator.go:299-389 | Exactly when it succeeds, cleans operands and deletes the ConfigMap; the registration is dropped as soon as the update is written, the ConfigMap goes only after the cleanup. |
| TrackingConfigMap.ConfigMap.ReconcileOpReqCM | controllers/operandrequestnoolm/reconcile_operator.go:177-246 | Which of not ours, spared, to be deleted or written it is, exactly, and what is written, annotation by annotation. |
| Semver.VersionLessIsTotal | controllers/util/util.go:487-497 | Version order with text as tie-break is irreflexive, asymmetric and total. |
| Semver.VersionLessIsTransitive | controllers/util/util.go:487-497 | And transitive. |
| Semver.ValidOrderIsNumeric | controllers/util/util.go:487-497 | On versions semver accepts it is the numeric order of major, minor and patch (Semantic Versioning 2.0.0, item 11), with text as tie-break. |
| Semver.FindSemanticIsFirst | controllers/util/util.go:468-484 | FindSemantic gives the leftmost match of its pattern, the longest that starts there, and v0.0.0 where there is none. |
| Semver.ValidExactly | controllers/util/util.go:487-522 | Of such texts semver accepts exactly a v with up to three numbers without leading zeros. |
| Semver.LexLessMeans | controllers/operator/manager.go:139-144 | Texts are compared at their first difference. |
| Sorting.SortBy | controllers/util/util.go:493-495 | What sorting by a strict total order returns is the only ordered permutation, so the algorithm does not matter; the channel choice and catalog discovery sort with it. |
| Channels.FindSemverFromAnnotations | controllers/util/util.go:510-522 | Collects exactly the valid versions that request annotations ask for, each with a channel that asks for it, in any visiting order. |
| Channels.FindMinSemver | controllers/util/util.go:487-497 | The current channel while its version is listed, else a channel of least version. |
| Channels.FindMinSemverFromAnnotations | controllers/util/util.go:524-528 | Nothing when no request has a version semver accepts; the current channel while its version is accepted and requested; else a requested channel of least version. |
| Channels.HeldExactly | controllers/util/util.go:468-497 | Among any requests, in any visiting order, the current channel stays while a request asks for its version, if and only if the channel is not empty and semver accepts that version. |
| Channels.UnprefixedChannelMoves | controllers/util/util.go:468-522 | Channel 4.9 gives way to v3 while a request still asks for 4.9: without a leading v a version is not accepted. |
| Channels.LeastIsNumeric | controllers/util/util.go:487-497 | The least version chosen is least by its numbers. |
| Channels.StableExactly | controllers/util/util.go:487-528 | A channel once chosen is chosen again, whatever the visiting orders, if and only if the current channel is held or the empty channel is not one of several of least version. |
| Channels.NoEmptyRequestSettles | controllers/util/util.go:487-528 | Where nobody requests the empty channel that is so. |
| Channels.EmptyChannelUnsettles | controllers/util/util.go:487-528 | With an empty channel requested, two passes may disagree. |
| Subscriptions.SecondReconcileChangesNothing | controllers/operandrequest/reconcile_operator.go:241-306 | With an unchanged registry a second reconcile changes neither annotations nor spec, in every mode and visiting order, if the choice of channel settles. |
| Subscriptions.IdempotentExactly | controllers/operandrequest/reconcile_operator.go:241-306 | And only then, for every Subscription whose channel is up for choice. |
| Subscriptions.ChannelIsHeld | controllers/operandrequest/reconcile_operator.go:137-306 | Over any sequence of other requests' reconciles and departures a channel whose version semver accepts stays while one registrant asks for that version. |
| Subscriptions.ChannelIsHeldExactly | controllers/operandrequest/reconcile_operator.go:137-306 | A channel stays in all such runs if and only if it is not empty and semver accepts its version. |
| Subscriptions.Subscription.CheckAnnotationsForUninstall | controllers/operandrequest/reconcile_operator.go:754-818 | Removes exactly the registrant's own keys and returns the specified flags. |
| Uninstall.ScanAnnotations | controllers/operandrequest/reconcile_operator.go:769-793 | The three lists hold exactly the namespaces, operators and configs that remaining keys name. |
| Subscriptions.Subscription.ReconcileExisting | controllers/operandrequest/reconcile_operator.go:211-321 | Which of not ours, spared, to be deleted or written it is, exactly; what is written, annotation by annotation and spec field by spec field; the channel is the one the annotations call for and changes only if it is empty, semver does not accept its version or no remaining request has that version; whether channel and scope match. |
| Subscriptions.ReconciledMeans | controllers/operandrequest/reconcile_operator.go:241-306 | The request's three entries and its registry's two are set and all others kept, a no-op operator's own entry being set back to a lower channel the Subscription has; package, approval, config and source follow the entry only on its own channel, the source only if it is explicit or the channel changed; without a choice of channel the spec is untouched. |
| Subscriptions.Subscription.RequestToNotify | controllers/operandrequest/operandrequest_controller.go:306-328 | The request returned is read from some request annotation. |
| Subscriptions.NotifiesARegisteredRequest | controllers/operandrequest/operandrequest_controller.go:306-328 | On well-named annotations it is a registered request. |
| Cleanup.LeftBehindExactly | controllers/operandrequest/reconcile_operator.go:415-516 | An uninstall without error leaves the registration on a labelled Subscription if and only if the operator was not resolved or the do-not-uninstall label keeps it. |
| Cleanup.CleanedFirst | controllers/operandrequest/reconcile_operator.go:449-515 | No registration or Subscription goes before its operands and CSVs, and nothing goes when there is an error. |
| Cleanup.UninstallOutcome | controllers/operandrequest/reconcile_operator.go:415-516 | An uninstall fails exactly when listing fails, several Subscriptions fit, or a call that the flags need fails; otherwise the labelled candidate is deleted, loses the request's keys or is kept back, as the flags and the label say, and nothing else changes. |
| Cleanup.SparedIsDeletedExactly | controllers/operandrequest/reconcile_operator.go:455-503 | A Subscription with the do-not-uninstall label is deleted if and only if an uninstall goes through that flags the operator and finds no CSVs. |
| Cleanup.MisledExactly | controllers/operandrequest/reconcile_operator.go:527-540 | Against an exact index, operands that somebody else still asks for are deleted if and only if the only one who asks is a request of the same name in another namespace. |
| Cleanup.NamesakeMisleads | controllers/operandrequest/reconcile_operator.go:538-540 | Such requests and their index. |
| Cleanup.OneMoreUninstall | controllers/operandrequest/reconcile_operator.go:586-618 | One more operand in a block: an unknown one is done; one whose operator the user manages or that was not resolved changes no Subscription and ends as its readers say; one of ODLM's ends as its uninstall does. |
| Cleanup.OthersAreLetAlone | controllers/operandrequest/reconcile_operator.go:586-618 | A block leaves every Subscription as it was that no operand managed by ODLM and resolved means. |
| Cleanup.OrderDoesNotMatter | controllers/operandrequest/reconcile_operator.go:588-618 | Where no two operands share a Subscription, each is uninstalled if and only if its own uninstall succeeds on the cluster as it was, in whatever order they finish. |
| Cleanup.StillListedExactly | controllers/operandrequest/reconcile_operator.go:588-618 | After such a block an operand reported as uninstalled is still listed if and only if its operator was not resolved, once or twice, or its Subscription is kept back. |
| Cleanup.NoLostCleanup | controllers/operandrequest/reconcile_operator.go:566-630 | Over all passes: every member that leaves was uninstalled against every block, whatever fails, if and only if there is at most one block or nothing to delete. |
| Cleanup.PassLetsOthersAlone | controllers/operandrequest/reconcile_operator.go:566-630 | So does a whole pass. |
| Cleanup.PassOkExactly | controllers/operandrequest/reconcile_operator.go:566-630 | A pass goes through if and only if each block can be read, keeps within its time, does not stop the process and uninstalls everyone, each on what the ones before left. |
| Cleanup.SecondBlockUnreadable | controllers/operandrequest/reconcile_operator.go:573-578 | The pass that loses one: the first registry answers, the second cannot be read. |
| Cleanup.PassReleases | controllers/operandrequest/reconcile_operator.go:566-630 | When a pass over any number of blocks goes through, no Subscription lists a resolved operand, save those the label keeps. |
| Cleanup.UnresolvedIsForgotten | controllers/operandrequest/reconcile_operator.go:416-421 | A pass that goes through over an operator that cannot be resolved, leaving its Subscription listed. |
| CleanupPass.Cluster.GetSubscription | controllers/operator/manager.go:458-498 | Finds the one Subscription of that name or package in the two namespaces, or says that there is none or that there are several. |
| CleanupPass.Cluster.UninstallOperatorsAndOperands | controllers/operandrequest/reconcile_operator.go:415-516 | Succeeds exactly when specified, leaves exactly the Subscriptions specified, and cleans operands first, only flagged ones. |
| CleanupPass.Cluster.UninstallOperands | controllers/operandrequest/reconcile_operator.go:518-564 | Stops the process exactly on a list of readers that is empty and not nil; fails or cleans only for a list of one, and cleans only if its name is the request's. |
| CleanupPass.Cluster.UninstallOne | controllers/operandrequest/reconcile_operator.go:596-614 | Which of the two uninstalls an operand gets, by what the registry says of it, how it ends and what it leaves. |
| CleanupPass.Cluster.AbsentFrom | controllers/operandrequest/reconcile_operator.go:586-626 | One block: what is uninstalled is the run of the uninstalls in some order of all needed operands; it succeeds if and only if all are, in time. |
| CleanupPass.Cluster.AbsentOperatorsAndOperands | controllers/operandrequest/reconcile_operator.go:566-630 | All blocks: the outcome is the pass over the inputs in some orders; what remains is what no block uninstalled. |
| CleanupPass.Cluster.ReconcileOperator | controllers/operandrequest/reconcile_operator.go:48-61 | A member leaves the status if and only if it is out of the spec and that pass uninstalled it in some block; early errors keep all. |
| CleanupPass.Cluster.CheckFinalizer | controllers/operandrequest/operandrequest_controller.go:141-160 | The finalizer goes if and only if the pass over all members goes through and the patch does. |
| CleanupPass.GetNeedDeletedOperands | controllers/operandrequest/reconcile_operator.go:632-649 | Deployed members minus requested ones, all of them when the request is being deleted. |
| BindInfo.Cluster.Copy | controllers/operandbindinfo/operandbindinfo_controller.go:258-652 | Copy, then source, are written: both keep every label the source was read with and get this manager's, their role's and, for Secrets and ConfigMaps, the watched one; a refused second write leaves the copy; what is idle, missing or refused before changes nothing, and nothing else ever changes; the copy is never its own source. |
| BindInfo.Cluster.CleanupCopies | controllers/operandbindinfo/operandbindinfo_controller.go:774-848 | Succeeds if and only if the lists can be read and no object to be changed is refused; of the objects dealt with, all listed ones on success, a copy without other managers is gone, other copies and originals lose this manager's label and no other, and the rest is untouched. |
| BindInfo.MarkedCarries | controllers/operandbindinfo/operandbindinfo_controller.go:284-289 | The labels the runs below write are those. |
| CopiesProtocol.CleanKeepsOthers | controllers/util/util.go:628-640 | Cleaning for one bind info neither deletes what another manages nor takes its label. |
| CopiesProtocol.OriginalsStay | controllers/operandbindinfo/operandbindinfo_controller.go:774-848 | In every run of single API calls, however copies and clean-ups interleave, no source or other original is ever deleted, and what is not stale is as it was read or listed. |
| CopiesProtocol.RunIsSafeExactly | controllers/operandbindinfo/operandbindinfo_controller.go:285-356 | In a whole run everybody who has written or completed a copy and is not being deleted is among its managers, so the copy is there, if and only if no delete hits a copy somebody relies on and no write of a copy drops somebody who does. |
| CopiesProtocol.FreshRunsAreSafe | controllers/operandbindinfo/operandbindinfo_controller.go:774-848 | That is so in every run in which nobody acts on what was overwritten since it was read or listed and no two copies of one target overlap. |
| CopyRuns.LiveCopyIsDeleted | controllers/operandbindinfo/operandbindinfo_controller.go:800-806 | A run after which the copy of a bind info that is not being deleted is gone: it was listed by another before, and a delete carries no version. |
| CopyRuns.LiveLabelIsLost | controllers/operandbindinfo/operandbindinfo_controller.go:285-336 | A run in which a copy made from labels read earlier drops the label of somebody who completed the copy in between. |
| Leftovers.TidyExactly | controllers/operandbindinfo/operandbindinfo_controller.go:774-848 | A state is tidy if and only if no run from it without further joins or copies ends with all bind infos gone and a copy or a manager label left on a Secret or ConfigMap. |
| Leftovers.StepIsTidyExactly | controllers/operandbindinfo/operandbindinfo_controller.go:285-356 | A step keeps the state tidy if and only if it is no write of a copy, or each manager the copy takes over is there and, if it is being cleaned up, has the target on its list or is bound to list again. |
| Leftovers.WholeCopyIsTidyExactly | controllers/operandbindinfo/operandbindinfo_controller.go:343-356 | A copy that goes through uninterrupted keeps the state tidy if and only if that holds or it changes the labels of its source, a Secret or ConfigMap: then whoever has the source listed is refused and lists again. |
| Leftovers.NothingIsLeft | controllers/operandbindinfo/operandbindinfo_controller.go:774-848 | If every copy in a run is of one of these kinds, no copy and no manager label is left on Secrets and ConfigMaps whenever no bind info is. |
| CopyRuns.InterleavedCopyLeaks | controllers/operandbindinfo/operandbindinfo_controller.go:286-356 | A run, call by call, from unlabelled objects, in which every copy completes and nothing is refused, and which ends with no bind infos and a copy left. |
| Leftovers.UnlistedKeepsLabel | controllers/operandbindinfo/operandbindinfo_controller.go:774-786 | In every run a Route or Service keeps every manager label it got. |
| Leftovers.CopyOfUnlistedLeaks | controllers/operandbindinfo/operandbindinfo_controller.go:462-652 | So once a bind info that copied from one is gone, any later copy from it, complete and uninterrupted, can be left behind. |
| CopyRuns.RouteCopyLeaks | controllers/operandbindinfo/operandbindinfo_controller.go:462-556 | Two bind infos, one after the other, each copying from a Route and cleaning up without errors: the second one's copy is left. |
| RequestStatus.EveryStatusIsCoherent | api/v1alpha1/operandrequest_types.go:380-476 | In every status reached by any mix of calls, member names, conditions and custom resources are unique and every operator phase has its Ready condition, True exactly when Running. |
| RequestStatus.CallKeepsCoherent | api/v1alpha1/operandrequest_types.go:306-539 | Each single call keeps that. |
| RequestStatus.ReadyConditionIsUnique | api/v1alpha1/operandrequest_types.go:370-387 | In a coherent status a member's operator has exactly one Ready condition, and it is True if and only if the phase is Running. |
| RequestStatus.SetMemberStatusMeans | api/v1alpha1/operandrequest_types.go:411-429 | Phases given stand in the first member of that name or in a new one, empty ones change nothing, other members and their custom resources are untouched; what changed is told by a Ready condition, and all other conditions stay. |
| RequestStatus.WithConditionMeans | api/v1alpha1/operandrequest_types.go:380-387 | A condition takes the place of one of its type and message or comes last; the others stay. |
| RequestStatus.SetMemberCRStatusMeans | api/v1alpha1/operandrequest_types.go:432-444 | A custom resource is appended to its member's unless one of its kind and name is there; nothing else changes. |
| RequestStatus.RemoveMemberCRStatusMeans | api/v1alpha1/operandrequest_types.go:447-458 | Exactly the custom resources of that kind and name go. |
| RequestStatus.RemoveOperandPhaseMeans | api/v1alpha1/operandrequest_types.go:462-476 | Both phases of the member are emptied and nothing else changes. |
| RequestStatus.RemovalsCommute | controllers/operandrequest/reconcile_operand.go:1016-1043 | Parallel removals, each under the lock, leave the same lists in every interleaving: what nobody removed, in order. |
| RequestStatus.RangeRemoveOnUnique | api/v1alpha1/operandrequest_types.go:452-456 | On lists without duplicates, cutting while ranging over the old header never slices out of range and removes exactly the one entry. |
| RequestStatus.RangeRemoveExactly | api/v1alpha1/operandrequest_types.go:452-456 | On any list the loop neither panics nor misses an entry if and only if the entry occurs at most once, or never twice in a row and not at the end. |
| RequestObject.OperandRequest.GetMemberStatus | api/v1alpha1/operandrequest_types.go:552-559 | Finds the first member of that name, or none. |
| RequestObject.OperandRequest.SetCondition | api/v1alpha1/operandrequest_types.go:380-387 | Replaces the condition of that type and message or appends it. |
| RequestObject.OperandRequest.SetMemberStatus | api/v1alpha1/operandrequest_types.go:411-429 | The object ends as the call on values says, Ready conditions included. |
| RequestObject.OperandRequest.SetMemberCRStatus | api/v1alpha1/operandrequest_types.go:432-444 | Appends into the shared backing array unless kind and name are there. |
| RequestObject.OperandRequest.RemoveMemberCRStatus | api/v1alpha1/operandrequest_types.go:447-458 | Never panics on a coherent status and then removes exactly the entry; on any status does what the stale range does. |
| RequestObject.OperandRequest.FreshMemberStatus | api/v1alpha1/operandrequest_types.go:531-539 | Keeps exactly the requested and remaining members, in order. |
| Catalog.LessIsTotal | controllers/operator/manager.go:111-144 | The comparator is a strict total order on catalogs with their priorities. |
| Catalog.LessTellsNamesApart | controllers/operator/manager.go:111-144 | With one priority per catalog it orders any two different catalogs one way and never both. |
| Catalog.LessMeans | controllers/operator/manager.go:111-144 | A catalog in the operator's own namespace precedes, then one of greater priority, then ODLM's own, then the first by namespace and name. |
| Catalog.Discover | controllers/operator/manager.go:173-234 | Answers the least catalog offering the channel, or else offering the highest version an offered fallback stands for, or else nothing; never an excluded one. |
| Catalog.ChannelFirst | controllers/operator/manager.go:173-234 | A catalog that offers the channel itself is always preferred; what is answered is asked for and offered by a catalog that is not excluded. |
| Catalog.NoneIsBetter | controllers/operator/manager.go:173-234 | No other catalog that offers the channel answered precedes the one answered. |
| Catalog.OrderDoesNotMatter | controllers/operator/manager.go:173-234 | The answer depends only on which manifests there are, not on their order or repetition. |
| Catalog.HighestFallback | controllers/operator/manager.go:289-306 | With distinct versions, or as soon as each fallback but the channel stands for its own, it is an offered fallback that is last in the code's order of versions, and nothing only if nobody offers any. |
| Catalog.HighestExactly | controllers/operator/manager.go:289-306 | Discovery always takes an offered fallback than which no other has greater version numbers if and only if each fallback but the channel stands for its version and the code's order on them is the numeric one. |
| Catalog.ValidFallbacksAreOrdered | controllers/operator/manager.go:289-306 | It is where semver accepts the versions. |
| Catalog.TextOrderTakesTheLower | controllers/operator/manager.go:289-306 | With fallbacks 4.9 and 4.10 on offer discovery takes 4.9. |
| Catalog.NeverOverlooksAFallback | controllers/operator/manager.go:308-316 | Discovery never overlooks an offered fallback if and only if each fallback but the channel itself is the last one of its version. |
| Catalog.FindCatalogFromFallbackChannels | controllers/operator/manager.go:289-306 | The candidates of the greatest version whose standing fallback is offered. |
| Catalog.PrunedSemverChannel | controllers/operator/manager.go:308-316 | The versions in order, each standing for the last fallback that has it. |
| Catalog.StandingIsLast | controllers/operator/manager.go:308-316 | What stands for a version is the last fallback that has it. |
| Catalog.GetFirstAvailableSemverChannelFromCatalog | controllers/operator/manager.go:318-336 | The first manifest of the pinned catalog that gives anything decides. |
| Catalog.GetCatalogSourceAndChannelFromPackage | controllers/operator/manager.go:146-234 | Without manifests the registry's own values; else discovery, or for a pinned catalog what its first manifest with anything to give says. |
| Catalog.PinnedAgrees | controllers/operator/manager.go:318-336 | A pinned catalog gives what discovery over it alone gives, whatever it offers, if and only if every fallback version is its own name. |
| RegistryIndex.ListOperandRequestsByRegistry | controllers/operator/manager.go:417-434 | Lists each request once per block that names the registry, in order, namespaces defaulted. |
| RegistryIndex.OperandRegistry.SetOperatorStatus | api/v1alpha1/operandregistry_types.go:209-219 | Adds the request under the operator unless it is there, and nothing else. |
| RegistryIndex.OperandRegistry.UpdateStatus | controllers/operandregistry/operandregistry_controller.go:90-115 | A request is listed under an operand exactly once if some block of its names this registry and contains the operand, and not otherwise; nothing is left when the list cannot be read. |
| ObjectPath.ReadAfterAdd | controllers/util/util.go:588-617 | Reading the path after addField gives the value, whenever addField goes through. |
| ObjectPath.AddedExactly | controllers/util/util.go:588-617 | addField goes through if and only if the path ends with a name and every element it indexes is an object or would be the next of its list. |
| ObjectPath.RemovedExactly | controllers/util/util.go:544-573 | removeField goes through if and only if, as far as the path is there, it ends with a name and the elements it indexes are objects. |
| ObjectPath.AddTwice | controllers/util/util.go:588-617 | Adding again changes nothing. |
| ObjectPath.AddElsewhere | controllers/util/util.go:588-617 | Diverging paths read as before. |
| ObjectPath.RemoveElsewhere | controllers/util/util.go:544-573 | The same for removeField. |
| ObjectPath.NothingAfterRemove | controllers/util/util.go:544-573 | After removing, the path is empty and removing again changes nothing. |
| ObjectPath.RemoveAfterAdd | controllers/util/util.go:544-617 | Removing what was added equals removing alone if and only if the parents existed. |
| ObjectPathInPlace.AddField | controllers/util/util.go:588-617 | On the heap: goes through exactly when the function does, changes the object's own maps, and leaves its document, sharing nothing but the value. |
| ObjectPathInPlace.RemoveField | controllers/util/util.go:544-573 | The same for removeField. |
| TemplateInPlace.ParseValueReferenceInObject | controllers/operator/manager.go:848-856 | On the heap: any pass that meets no error leaves the same value under the key, whatever order keys are visited in, and touches no other key; if every reference resolves no pass meets an error. |
| TemplateInPlace.ProcessMapObject | controllers/operator/manager.go:859-903 | The loop over the object's keys, which goes on over the old map once a reference has taken its place. |
| TemplateInPlace.ProcessArrayObject | controllers/operator/manager.go:906-919 | Objects in a list are resolved inside the list and never replaced themselves. |
| Template.ResolvedIsPlain | controllers/operator/manager.go:859-919 | Afterwards no object held under an object key, reached through objects and lists of objects, is a reference. |
| Template.ReferenceMeans | controllers/operator/manager.go:859-884 | A boolean reference stands for that boolean; a text looked up for true, false, nothing, a decoded list or itself; a reference that is no object for nothing. |
| Template.ResolvedAlong | controllers/operator/manager.go:859-919 | At every path through objects and objects in lists stands what the value there resolves to, and no key where it resolves to nothing. |
| Template.ScalarsStand | controllers/operator/manager.go:859-919 | Every scalar on a path that crosses no reference stands unchanged. |
| Template.OnePassResolvesAll | controllers/operator/manager.go:874-884 | One pass resolves everything, whatever it is given, if and only if no reference stands for a list that holds references. |
| Template.FixedIffPlain | controllers/operator/manager.go:848-919 | Resolution leaves a value as it is if and only if there is nothing to resolve. |
| Template.SecondPassIsIdentity | controllers/operator/manager.go:848-919 | A second pass changes nothing. |

## Left out

- I/O: API calls, watches, polling, sleeps, events, permission checks and logging; their outcomes are inputs.
- Races finer than one read-decide-write on one Subscription or ConfigMap; a delete carries no resource version, so nothing finer is claimed there. For the shared copies each API call is a step.
- What an uninstall that is still running at the timeout does afterwards; it counts as not done in that pass.
- JSON bytes and the difference between int64 and float64 numbers: fixed points are stated over documents, not over the equality check at controllers/operandrequest/reconcile_operand.go:884.
- SHA-256: the template's hash is a parameter. jsonpath, condition expressions and lookups in ConfigMaps, Secrets and objects: a reference's text is a parameter.
- K8sResource.SecondUpdateChangesNothing: metadata, the object's and the config's, is an object whose annotations and labels are string maps; optional fields, owner references, Jobs and Routes are not modelled.
- CopiesProtocol.RunIsSafeExactly: each target has one source and no copy is copied on; labels of a copy are replaced from its source, so nothing is promised otherwise. Nobody else deletes objects or changes their labels; other writes to them are steps (`Touch`).
- CopiesProtocol.RunIsSafeExactly: safety of every run is not promised, because cleanupCopies deletes without a version what it listed before; the runs that are safe are given exactly.
- Leftovers.NothingIsLeft: both lists of a clean-up are one step and read what is stored, not what an informer has cached; comparing a copy with what is there and writing it are one step.
- BindInfo.Cluster.Copy: labels only; data, owner references and pod refreshes are left out, and so is an existing copy found equal and not rewritten.
- LastOneOut.TeardownFlags: Subscriptions with the control label and operators that are not no-op, every registrant reconciled once; `LastOneOut.DecisionRefines` covers the rest.
- Subscriptions.Subscription.ReconcileExisting: for operators the user does not manage; the other branch is a step of `LastOneOut.Step`.
- LastOneOut.RunCorresponds: names as the API server admits them and registries without a dot in their name.
- Subscriptions.SecondReconcileChangesNothing: not for a Subscription deleted because it left its operator's namespace.
- Subscriptions.Subscription.RequestToNotify: the parts of the last matching key win; which one that is depends on the visiting order.
- CleanupPass.Cluster.UninstallOperatorsAndOperands: deleting custom resources, CSVs and Kubernetes resources is one outcome each; status and Deleting conditions set on the way are left out. Other requests' steps do not interleave within a pass.
- Cleanup.StillListedExactly: for one block whose operands share no Subscription; with more blocks or shared Subscriptions the outcome is the pass in the order the uninstalls take effect, and `Cleanup.PassReleases` holds.
- RequestObject.OperandRequest.RemoveMemberCRStatus: a slice is a length over its own backing array; two members never share one. The services list, operation timings and phase counting are left out.
- Which custom resources checkCustomResource and deleteAllCustomResource select; removing them from the status is modelled.
- Catalog.GetCatalogSourceAndChannelFromPackage: priorities are a function of namespace and name, zero where they cannot be read.
- ObjectPath.ReadAfterAdd: paths are taken apart already; splitting the text at dots and reading the index is left out.
- ObjectPathInPlace.AddField: nothing is said of the object after a panic.
- TemplateInPlace.ParseValueReferenceInObject: nothing is said of the object after an error.
- TrackingConfigMap.ConfigMap.UninstallOperatorsAndOperands: for a ConfigMap that was found; a missing one is treated as a reason to clean up. The rest of the no-OLM controllers repeats the others' code.
- Namespace scope, operator checker, operator config, caches, generated code, finalizer slice helpers: plumbing or easy members.
