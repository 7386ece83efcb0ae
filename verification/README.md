# A verified model of the ECP control plane

ECP keeps its resources in a Kubernetes API server and brings them about at a provider. Most of the
code is wiring; what can go wrong sits in a few protocols and transformations. This project models
those in Dafny and proves what they are for. `dafny verify dfyconfig.toml` checks all of it.

**Writers over a version-checked store.** `ApiServer` is the store: one request is one step, a stale
write is a conflict, and the status endpoint and the main endpoint each ignore the other's half.
`Writers` lets any number of retrying calls and arbitrary other clients take turns and shows that every
call that returns nil happened at one instant and one that returns an error at most once, lost replies
included, that the two halves of an object do not disturb each other and that giving up takes five
commits by others. `WriterLoops` proves the retry loops themselves,
with arbitrary requests of others before each of their own. `Reconcile` is the finalizer protocol,
`PowerIntent` the read-modify-write loop of the power operations and the ordinary update that carries
the intent along, `Namespaces` the calls that provide and take away the namespaces of workspaces and
networks.

**Status.** `Conditions` shows that the condition history is a run-length encoding of what was pushed,
cut to its newest runs. `LevelUpdate` shows that the update of an active resource writes its status only
when it has something new to say.

**The Aruba adapter.** `Tags` turns labels into a canonical list. `RuleExpansion` expands security rules,
and `RuleMeaning` shows exactly when the expansion admits the traffic that the stored rules mean, their
sources, IP version and ICMP type included. `SecurityGroups` reaps and retags
what was materialised, and both may fail anywhere and be tried again. `Subnets` finds the subnet behind a
reference independently of the list order. `Inventory` holds the provider's objects and says when a server
is sound, `Networking` what the network part of a server follows from, and `InstanceCreate` creates a
server only when everything it refers to is active, and undisturbed does so as soon as that is the case.
`ServerRequest` says what the server has to refer to in terms of the instance and its NICs alone.

**References and generators.** `References` proves the conversions of reference paths on the text they
work on. `Markers` is the marker injection into generated files, `IncludeSet` the pruning of a generated
file to the types it needs.

Code that changes state is a class or a method with loops; it is proved against a specification
function or an invariant, and the lemmas are about those. Other clients, the provider's operator and
failing requests appear as parameters: a schedule says what they do between any two requests.

## What the proofs brought to light

- Converters build their objects without finalizers and with no annotations but the internal ones
  (`resource/compute/v1/instance/backend/kubernetes/conversion.go:170-200`). The versioned update sends
  such an object as it is (`framework/backend/kubernetes/adapter.go:403`), so a power operation, meant to
  write only the power intent, also drops every finalizer and removes an instance that is already under
  deletion. `Writers.VersionedUpdateDropsFinalizers` says exactly when the finalizers are kept. A live
  resource is protected by the cleanup finalizer unless the controller let it go or such a request of
  somebody else took it off (`Reconcile.Controller.Drive`, `Reconcile.StrippedIff`).
- The power loop overlays the intent of its first load. It is the operation on the current intent exactly
  if the fields the operation does not set are unchanged (`PowerIntent.OverlayIsFreshIff`). An ordinary
  update carries the intent it loaded first and can put back an older one (`PowerIntent.UpdateKeepsIntentIff`).
  `PowerIntent.PutBackOldIntent` is such a run. A power request under a version newer than the one it
  loaded overwrites the body stored under that version (`PowerIntent.OverwriteNewerBody`); it changes
  nothing but the intent exactly if the two bodies are equal and both checks hold on what is stored
  (`PowerIntent.OverwriteIsIntentWriteIff`).
- A call of the writers can return an error although it was committed: the object may be deleted between
  the write and the read back (`Writers.CommittedThenVanished`), or the reply to the write may be lost
  (`Writers.CommittedThenLost`). It was committed at most once (`Writers.Linearisable`).
- A reference can lose its scope or its path in the round trip between stored and domain form: a resource
  of one segment loses the scope (`References.OneSegmentLosesScope`), and `workspaces/w` with tenant `t`
  loses its path (`References.KeywordIsTakenForScope`). `References.RoundTripIff` says exactly when nothing
  is lost, `References.KeysInPlaceRoundTrip` and `References.UnscopedRoundTripIff` in terms of the names.
- A source of a security rule is sent as a group only if its path starts with the collection of groups.
  The store's references are loaded with tenant and workspace in front, so a group with a scope is sent
  as an address that is none (`RuleMeaning.ScopedGroupIsSentAsAddress`). A source is sent as what it names
  exactly if it takes no scope and its path is short or does not mention the collection elsewhere
  (`RuleMeaning.StoredSourceKeptIff`). IP version and ICMP type are dropped
  (`csp/aruba/pkg/adapter/converter/security_group.go:82-93`). When a whole rule keeps its meaning is
  `RuleMeaning.MeaningKeptIff`.
- Creating a workspace or network keeps its promises unless the reply of the creation is an error although
  it took effect (a failing conversion of the returned object is one), in which case the rollback takes the
  namespace of a live resource away, whether that is acknowledged or not; over any run these are the only
  ones without a namespace (`Namespaces.Api.Create`, `Namespaces.Api.Drive`). A failed creation leaves a
  namespace behind if it did not learn that it had provided one. Two overlapping creations can take the
  namespace of a live resource away, too (`Namespaces.Api.OverlappingCreates`).
- Marker injection is idempotent without any proviso about the texts of tags and lines: what is written
  is always recognised and stripped (`Markers.InjectionIsIdempotent`). The special case for blank lines
  is not needed.
- The quotes of a rule or message are unescaped when its tag is read
  (`framework/backend/kubernetes/cmd/inject-kubebuilder-markers/main.go:82`) and not escaped again when
  the marker is written: a marker says the rule it was written for exactly if there is no quote in its
  texts (`Markers.CelReadsBackIff`).
- A server is in the zone of its boot volume only if that volume names a zone; otherwise a default is
  written (`Inventory.SharesBootZoneIff`).
- The subnets of a server are meant to lie in one network's VPC
  (`csp/aruba/pkg/adapter/handler/instance.go:245`), but only the first one fixes it. All of them are in
  its network exactly if every reference meant that network (`Networking.SubnetsShareNetworkIff`); for
  references that all name one, if they all name the same (`Networking.QualifiedSubnetsShareNetworkIff`).
  Two references to different networks are both taken (`InstanceCreate.ResolveInTwoNetworks`).
- A materialised group name stands for one group in one network exactly if neither name has a dash
  (`Networking.MaterializedNameIsUniqueIff`). A group found under its name is then always the one asked for,
  and otherwise need not be (`Networking.FiledGroupIsForIff`): `InstanceCreate.TakeGroupOfAnotherNetwork`
  hands out a group of another network and VPC. Which of a server's groups are its own is
  `Networking.HandedOutGroupsAreForIff`.
- An existing rule is taken by its name. After an edit of the inline rules a pass goes through and leaves
  the old rules (`InstanceCreate.KeepEditedRule`); all are right exactly if the two expansions agree
  wherever both have a rule, and rules stay behind exactly if the old one had more
  (`Networking.EditedRulesAreRightIff`).
- A group deleted before its rules would hide them from every later run: the order of the two deletions
  is needed (`SecurityGroups.GroupGoesLast`).

## Model

| member | source | states |
|---|---|---|
| `Writers.SyncNestedMap` | framework/backend/kubernetes/adapter.go:544-559 | a supplied subtree is taken over, an absent one is left alone, and a write is reported exactly when the value changes |
| `Writers.MoveIsAtomicOrSilent` | framework/backend/kubernetes/adapter.go:466-590 | one request of a call either leaves the store as it is or is the whole call at once, after which every field the call supplied has the value it asked for |
| `Writers.StepSeenBy` | framework/backend/kubernetes/adapter.go:466-590 | a step of the whole system makes a call take effect only if it is the call's own, and then the store goes from before to after the entire call; a step whose reply is lost does that or nothing |
| `Writers.PlayOk` | framework/backend/kubernetes/adapter.go:466-590 | over every interleaving of any number of calls and outside requests, a call about to write holds a valid snapshot with something to change |
| `Writers.Linearisable` | framework/backend/kubernetes/adapter.go:385-590 | in every interleaving a call that returned nil happened at exactly one of its own steps, one that was refused or is still trying changed nothing, and one whose reply was lost did the one or the other: an error means at most one commit |
| `Writers.Reach` | framework/backend/kubernetes/adapter.go:466-590 | a status update keeps spec, labels, annotations, finalizers and deletion mark; a spec update keeps status, finalizers and deletion mark and writes nothing to an object under deletion; no other object is touched |
| `Writers.StatusSurvives` | framework/backend/kubernetes/adapter.go:466-590 | a status stays until another status is written, however many spec updates go by |
| `Writers.MainSurvives` | framework/backend/kubernetes/adapter.go:466-590 | the main half, finalizers and deletion mark stay until somebody writes them, however many status updates go by |
| `Writers.NoLostUpdate` | framework/backend/kubernetes/adapter.go:466-590 | among any number of writers of the object: if a spec update is the last to write the main half and a status update the last to write the status, in whatever order, the object holds what both asked for once both returned nil |
| `Writers.GivingUpTakesFiveCommits` | framework/backend/kubernetes/adapter.go:466-590 | a retrying call gives up with a conflict only after at least five commits of others to the object |
| `Writers.VersionedUpdateDropsFinalizers` | framework/backend/kubernetes/adapter.go:402-406 | the versioned update keeps the finalizers of the stored object exactly when there were none, and removes an object that is under deletion |
| `Writers.CommittedThenVanished` | framework/backend/kubernetes/adapter.go:385-419 | a call can return an error although it was committed: the object is deleted between its write and its read back |
| `Writers.CommittedThenLost` | framework/backend/kubernetes/adapter.go:466-533 | a call can return an error although it was committed: the reply to its write is lost |
| `Writers.CallAgain` | framework/backend/kubernetes/adapter.go:466-590 | a retrying call may be made again after an error: what took effect is not written twice |
| `WriterLoops.EditFetched` | framework/backend/kubernetes/adapter.go:500-527 | the field-by-field edit of the fetched object is the specified edit, and reports a change exactly when something differs |
| `WriterLoops.Fetch` | framework/backend/kubernetes/adapter.go:495-503 | reading is silent, and it is the instant of the call when there is nothing to write |
| `WriterLoops.Send` | framework/backend/kubernetes/adapter.go:526-530 | a write that succeeds is the instant of the call; one that fails changes nothing |
| `WriterLoops.AtomicReads` | framework/backend/kubernetes/adapter.go:466-590 | the instant of a call in terms of the fields it supplied: afterwards the store reads as supplied there and as before elsewhere |
| `WriterLoops.TrySpec` | framework/backend/kubernetes/adapter.go:500-533 | one attempt of the spec loop: a conflict points at a commit of somebody else, another refusal is the store's answer to its last request, and undisturbed it succeeds |
| `WriterLoops.TryStatus` | framework/backend/kubernetes/adapter.go:566-588 | the same for one attempt of the status loop |
| `WriterLoops.UpdateMetadataAndSpecRetry` | framework/backend/kubernetes/adapter.go:466-533 | with any requests of others before each of its own, the loop happened atomically at one of its requests or changed nothing; it gives up with a conflict only after five successive commits of others, any other refusal is the store's answer to its own last request, and undisturbed on a live object it returns nil with every supplied field stored and the others as they were |
| `WriterLoops.UpdateStatusRetry` | framework/backend/kubernetes/adapter.go:561-590 | the same for the status loop |
| `WriterLoops.Update` | framework/backend/kubernetes/adapter.go:385-419 | Update with and without a version happened at one instant unless it was refused, for a reason as above; it may still report an error if the object is gone when it is read back; undisturbed it is accepted and stored |
| `Reconcile.GuardedIffKept` | framework/backend/kubernetes/controller/generic.go:93-101 | of all requests on the store, exactly those that keep the cleanup finalizer leave a guarded object guarded |
| `Reconcile.StrippedIff` | framework/backend/kubernetes/controller/generic.go:82-161 | a request of somebody else strips a guarded object exactly if it does not keep the finalizer |
| `Reconcile.AddingKeepsUnrelated` | framework/backend/kubernetes/controller/generic.go:94-98 | adding the cleanup finalizer leaves all others, in order |
| `Reconcile.RemovingKeepsUnrelated` | framework/backend/kubernetes/controller/generic.go:152-158 | removing it, ignoring case, leaves all others, in order, and none of it |
| `Reconcile.UnrelatedOneByOne` | framework/backend/kubernetes/controller/generic.go:152-158 | which finalizers are left: one by one those that are not the own one in any case, in order |
| `Reconcile.Controller.Write` | framework/backend/kubernetes/controller/generic.go:94-98 | a write of the controller changes its own finalizer or the status only, and goes through only on the version that was read |
| `Reconcile.Controller.AddFinalizer` | framework/backend/kubernetes/controller/generic.go:93-101 | a fresh object gets the finalizer behind its others and nothing else; the pass fails only if the store refused exactly that write, on the version that was read, and with nobody in between it is accepted and stored |
| `Reconcile.Controller.ReportConversionFailure` | framework/backend/kubernetes/controller/generic.go:103-125 | a failed conversion is pushed and trimmed into the status as it was read, and exactly that is sent |
| `Reconcile.Controller.ConversionFailureTells` | framework/backend/kubernetes/controller/generic.go:103-125 | the status that reports a failed conversion: the newest entry is in state error with the conversion's message, the entries read stay behind it in order up to the bound, and a repeated message is counted on it |
| `Reconcile.Controller.RemoveFinalizer` | framework/backend/kubernetes/controller/generic.go:142-160 | the finalizer goes exactly if the re-read saw the deletion mark, the state deleting and the finalizer; an error means that the re-read found nothing or the store refused exactly that write |
| `Reconcile.Controller.LetGo` | framework/backend/kubernetes/controller/generic.go:148-158 | the releasing write is the object as it was re-read without the finalizer, on that version; it fails only if the store refused it, and with nobody in between the other finalizers are left, or with none the object is gone |
| `Reconcile.Controller.Reconcile` | framework/backend/kubernetes/controller/generic.go:82-161 | a pass keeps the safety invariant and writes only its own finalizer and the status; the outcome of every case, what is handed over and whether the object is let go follow from the object as it was read, the handler's answer and the re-read after it; an error has the refused write as its reason |
| `Reconcile.Controller.Treat` | framework/backend/kubernetes/controller/generic.go:92-161 | the same from the first read on: a fresh object gets the finalizer, a failed conversion is reported and the pass is finished, the handler's answer requeues or fails it, and otherwise the re-read decides |
| `Reconcile.Controller.Drive` | framework/backend/kubernetes/controller/generic.go:82-161 | over any number of passes with arbitrary requests of others in between, every object handed to the handler while live is still guarded, was let go by such a pass, or lost the finalizer to somebody else's request; the controller's own writes stay within its finalizer and the status |
| `PowerIntent.ConversionRoundTrip` | resource/compute/v1/instance/backend/kubernetes/conversion.go:107-113 | reading back what is sent gives the same instance: the three intent annotations do not clash |
| `PowerIntent.WriteReplaces` | framework/backend/kubernetes/adapter.go:402-406 | an accepted versioned write replaces body and intent on the version it names, keeps status and identity, and keeps the finalizers exactly if there were none |
| `PowerIntent.OverwriteIsIntentWriteIff` | resource/compute/v1/frontend/rest/instance_handler.go:211-219 | a write under a client's version changes nothing but the intent, on an instance that passes both checks, exactly if the stored body is the one sent and the checks hold on what is stored |
| `PowerIntent.PutOnce` | framework/backend/kubernetes/adapter.go:402-406 | an accepted write replaced body and intent of the object that had the version sent; an older version than the loaded one is a conflict or not found, and nothing is written |
| `PowerIntent.Update` | framework/backend/kubernetes/adapter.go:402-419 | one write under the version sent: under the loaded one it changes nothing but the intent, under an older one there is no write; an accepted one replaced whatever had that version; a conflict points at a commit of somebody else |
| `PowerIntent.ApplyPowerIntent` | resource/compute/v1/frontend/rest/instance_handler.go:208-252 | without a precondition at most one write is committed, on a version that passed both checks, changing the three intent fields only; giving up means five successive commits by others, every other refusal is what the loop's own last request found, and undisturbed on an instance that passes the checks it is accepted |
| `PowerIntent.OverlayIsFreshIff` | resource/compute/v1/frontend/rest/instance_handler.go:229-233 | overlaying the intent of the first load is the operation on the reloaded intent exactly if the untouched intent fields did not change in between |
| `PowerIntent.HandleRequest` | resource/compute/v1/frontend/rest/instance_handler.go:100-151 | start, stop and restart as a whole: an accepted start was made on power state off and leaves the desired state on, an accepted stop was made on on and leaves off, both with the restart fields that were loaded; a restart was made on on and leaves the given id, the phase power-off and the desired state that was loaded; it is written once; with an older version nothing is written; every refusal changed nothing and is what the last request found, a conflict without a precondition five commits of others; undisturbed the request is accepted exactly if the instance may be operated on |
| `PowerIntent.WroteIsOperated` | resource/compute/v1/frontend/rest/instance_handler.go:100-151 | an intent write of the stamped intent is the operation in the terms of the stored object: which states it was made on and which annotations it leaves |
| `PowerIntent.OverwroteIsOperated` | resource/compute/v1/frontend/rest/instance_handler.go:211-219 | the same for a write under a client's version, without the check |
| `PowerIntent.AttemptOnce` | resource/compute/v1/frontend/rest/instance_handler.go:222-245 | one round of reload, checks, overlay and write; a conflict points at a commit of somebody else, every other refusal is what the last request found, and undisturbed it is accepted if the checks hold |
| `PowerIntent.OverwriteNewerBody` | resource/compute/v1/frontend/rest/instance_handler.go:211-219 | a client gives the version of an edit that its request has not loaded: the request is accepted and puts the body it loaded over the edited one |
| `PowerIntent.ReplaceOnce` | framework/backend/kubernetes/adapter.go:495-532 | one attempt of an ordinary update replaces spec, labels and intent at one instant or changes nothing; a conflict points at a commit of somebody else, and undisturbed it is accepted |
| `PowerIntent.Replace` | framework/backend/kubernetes/adapter.go:466-533 | at most five attempts: a conflict means five successive commits of others, any other refusal is the store's answer to the last request, and undisturbed on a live object what was sent is stored |
| `PowerIntent.CreateOrUpdate` | resource/compute/v1/frontend/rest/instance_handler.go:48-97 | an ordinary update carries the intent that its own first load found, in one write, whatever others do; an absent object is created with what was sent; a conflict means five successive commits of others, and any other refusal is the store's answer to the last request |
| `PowerIntent.UpdateKeepsIntentIff` | resource/compute/v1/frontend/rest/instance_handler.go:55-80 | such an update keeps the intent stored at its instant exactly if that is still the one it loaded; an intent written in between is put back |
| `PowerIntent.PutBackOldIntent` | resource/compute/v1/frontend/rest/instance_handler.go:48-97 | a power operation takes effect between load and write of an ordinary update: the update is accepted and the older intent is stored again |
| `Conditions.EqualStatusConditions` | resource/common/domain/status.go:112-130 | two conditions are equal exactly if state, type, reason and message are |
| `Conditions.Status.PeekConditions` | resource/common/domain/status.go:102-108 | the newest condition, if there is one |
| `Conditions.Status.PushCondition` | resource/common/domain/status.go:55-87 | pushing counts a repeated cause on the newest entry, and otherwise puts a new entry with count one in front and takes over its state |
| `Conditions.Status.PopCondition` | resource/common/domain/status.go:91-97 | the oldest condition goes, the state stays |
| `Conditions.Status.TrimConditions` | resource/common/backend/update.go:135-139 | exactly the newest entries up to the bound stay, all of them if the bound is not positive |
| `Conditions.PushAndTrim` | resource/common/domain/status.go:55-87 | a push followed by a trim: the entries there were stay behind the new one, in order, up to the bound, or the newest one counts it |
| `Conditions.Record` | resource/common/domain/status.go:55-97 | the loop of pushes and trims computes the recorded status |
| `Conditions.EncodingIsUnique` | resource/common/domain/status.go:55-87 | a history has one run-length encoding only |
| `Conditions.PushExtendsEncoding` | resource/common/domain/status.go:55-87 | pushing onto an encoding of a history gives the encoding of the longer history |
| `Conditions.PushingEncodes` | resource/common/domain/status.go:55-87 | the list of conditions after any pushes is the run-length encoding of the history: maximal blocks, their lengths and their last times |
| `Conditions.TrimmedPushes` | resource/common/backend/update.go:135-139 | trimming between pushes forgets old runs only |
| `Conditions.BoundedRunLength` | resource/common/domain/status.go:55-130 | after any pushes, each followed by a trim, the conditions are the newest runs of the encoding of everything pushed, and the state is that of the newest |
| `LevelUpdate.NothingDeleted` | resource/common/backend/update.go:101-106 | comparing lengths after the filter detects exactly whether there was a failure entry |
| `LevelUpdate.PersistIgnoringMissing` | resource/common/backend/update.go:120-130 | a status write either is stored or changes nothing, and only a broken store is an error |
| `LevelUpdate.RecordUpdateFailure` | resource/common/backend/update.go:62-82 | a failure is reported once: pushed, trimmed and stored unless the newest condition says so already |
| `LevelUpdate.ClearUpdateFailure` | resource/common/backend/update.go:95-116 | a success removes all failure entries, reports the resource active and writes only if there was one |
| `LevelUpdate.HandleUpdate` | resource/common/backend/update.go:35-58 | which outcome requeues, which is an error, and what is stored |
| `LevelUpdate.Drive` | resource/common/backend/update.go:35-139 | any run of passes over the stored status computes the specified status and number of committed writes |
| `LevelUpdate.ReportIffNews` | resource/common/backend/update.go:35-116 | a pass writes if and only if the status does not yet say what it has to report, and afterwards it does |
| `LevelUpdate.Quiescent` | resource/common/backend/update.go:35-116 | the same outcome again writes nothing, so the update does not feed itself |
| `LevelUpdate.ReportKeepsActive` | resource/common/backend/update.go:62-116 | every report leaves the resource active, with the state of its newest condition, and within the bound |
| `LevelUpdate.ReportKeepsHistory` | resource/common/backend/update.go:62-116 | what a report keeps: a success every entry without a failure, in order, behind the new one up to the bound, a failure the whole history behind it up to the bound; the newest entry of the same cause is counted up |
| `LevelUpdate.WithoutFailuresOneByOne` | resource/common/backend/update.go:101-106 | the entries that are no update failures, one by one |
| `LevelUpdate.AtMostOneWritePerBlock` | resource/common/backend/update.go:35-139 | over any run the committed writes number at most the maximal blocks of equal outcomes, still-processing passes dropped |
| `LevelUpdate.ActiveThroughout` | resource/common/backend/update.go:35-139 | the resource stays active through any run, and after a stored success no failure entry remains anywhere |
| `References.ReferenceToCR` | resource/common/backend/mapper.go:154-201 | the step-by-step extraction of the four fields is the specified conversion |
| `References.ToCROnSegments` | resource/common/backend/mapper.go:162-201 | storing takes provider, region, tenant and workspace out of the list of segments, one after the other, each by its first key |
| `References.FromCROnSegments` | resource/common/backend/mapper.go:141-151 | loading embeds the scope in the list of segments |
| `References.IndexInSegments` | resource/common/backend/mapper.go:245-279 | searching the text for a key between slashes finds exactly the first such segment that has another one after it |
| `References.ExtractOnSegments` | resource/common/backend/mapper.go:245-279 | extracting a key takes the segment after it as value and both out of the path, on every path of segments |
| `References.EmbedOnSegments` | resource/common/backend/mapper.go:207-238 | on every path of segments the scope is embedded in front of the last two, and a shorter path does not take it |
| `References.RoundTripIff` | resource/common/backend/mapper.go:135-201 | a stored reference comes back unchanged from the domain form if and only if reading the embedded path by its first keys gives the scope and leaves the resource; segments, tenant and workspace may be keywords |
| `References.PlainRoundTripIff` | resource/common/backend/mapper.go:135-201 | without keywords among the names this holds exactly if the resource has two segments or there is no scope |
| `References.KeysInPlaceRoundTrip` | resource/common/backend/mapper.go:135-201 | it holds for keywords among the names too if no scope key stands in front of the last two segments and no missing field is called by its key before the end |
| `References.UnscopedRoundTripIff` | resource/common/backend/mapper.go:135-201 | without a scope it holds exactly if no key of a missing field stands in the path before its end |
| `References.KeywordIsTakenForScope` | resource/common/backend/mapper.go:135-201 | the resource workspaces/w with tenant t comes back with workspace w and without its path |
| `References.StoringIsIdempotent` | resource/common/backend/mapper.go:157-201 | storing what is stored already changes nothing, on every path of segments |
| `References.OneSegmentLosesScope` | resource/common/backend/mapper.go:207-212 | a resource of fewer than two segments loses tenant and workspace, and only those, keyword or not |
| `References.LoadUndoesStoreIff` | resource/common/backend/mapper.go:135-201 | loading undoes storing for a reference in domain form if and only if the first keys of its path are a scope right in front of the last two segments, and no provider or region is found in it |
| `References.LoadUndoesStore` | resource/common/backend/mapper.go:135-201 | with the keys in place, loading undoes storing for every reference that came out of the store, however short its path |
| `References.ParseRecoversMeaning` | resource/common/backend/dependency.go:33-47 | for every reference that survives the round trip, parsing gives the tenant or the default, the workspace and the last segment of the stored reference |
| `References.Referrers` | resource/common/backend/dependency.go:93-130 | the loop returns the names of the matching items, in order |
| `References.ReferrersMeanTheTarget` | resource/common/backend/dependency.go:93-130 | on references that survive the round trip, the matching items are those whose stored reference means the target |
| `Tags.SanitizeTag` | csp/aruba/pkg/adapter/converter/tags.go:60-80 | the character loop with its pending dash joins the maximal alphanumeric runs by single dashes |
| `Tags.WordsOfJoined` | csp/aruba/pkg/adapter/converter/tags.go:60-80 | words joined by dashes fall apart into the same words |
| `Tags.SanitizingIsIdempotent` | csp/aruba/pkg/adapter/converter/tags.go:60-80 | sanitising twice is sanitising once |
| `Tags.SanitizedShape` | csp/aruba/pkg/adapter/converter/tags.go:60-80 | the result has letters, digits and single inner dashes only, and exactly the letters and digits of the input, in order |
| `Tags.ArubaTags` | csp/aruba/pkg/adapter/converter/tags.go:33-54 | whatever order the map is walked in, the result is strictly sorted and holds exactly the non-empty sanitised labels |
| `Tags.TagsAreUnique` | csp/aruba/pkg/adapter/converter/tags.go:33-54 | there is only one such list, so the tags are a function of the labels |
| `Tags.CompactSorted` | csp/aruba/pkg/adapter/converter/tags.go:51-53 | compacting a sorted list leaves it strictly sorted |
| `Tags.Live.SyncTags` | csp/aruba/pkg/adapter/handler/update.go:48-68 | the object is written exactly if its tags differ from the desired ones, and a missing object is reported |
| `Tags.Live.Update` | csp/aruba/pkg/adapter/handler/update.go:34-68 | a pass over an object that has the tags of these labels writes nothing; any other pass writes once |
| `RuleExpansion.NormalizeInlineRules` | csp/aruba/pkg/adapter/converter/security_group.go:82-93 | every inline rule is normalised, in order, with the labels of its group |
| `RuleExpansion.BuildSecurityRules` | csp/aruba/pkg/adapter/converter/security_group.go:110-152 | the four nested loops produce the specified expansion, names and tags included |
| `RuleExpansion.ReadBack` | csp/aruba/pkg/adapter/converter/security_group.go:186-204 | a port printed in decimal reads back as the same port |
| `RuleExpansion.NamesAreDistinct` | csp/aruba/pkg/adapter/converter/security_group.go:125-127 | rules of one group have the same name only at the same position |
| `RuleExpansion.CombosAppend` | csp/aruba/pkg/adapter/converter/security_group.go:110-152 | the expansion of two lists of rules is the one followed by the other |
| `RuleExpansion.InlineRulesLead` | csp/aruba/pkg/adapter/converter/security_group.go:110-152 | expanding the inline rules alone gives exactly the leading rules, names included, of expanding inline and referenced rules together, and all names are distinct |
| `RuleMeaning.PortTextsMeanPorts` | csp/aruba/pkg/adapter/converter/security_group.go:186-204 | the printed port texts admit exactly the ports the rule selects: lists, single ports, ranges and none |
| `RuleMeaning.TargetMeansSourceIff` | csp/aruba/pkg/adapter/converter/security_group.go:210-224 | the target of a reference is what its last two segments name, a group or else an address, if and only if the path has at most two segments or the collection of groups is neither the first nor the last but one |
| `RuleMeaning.LoadingKeepsOriginIff` | resource/network/v1/security-group/backend/kubernetes/conversion.go:161-177 | loading a stored reference keeps the group it names, and keeps an address exactly if it takes no scope |
| `RuleMeaning.StoredSourceKeptIff` | resource/network/v1/security-group/backend/kubernetes/conversion.go:161-177 | from the store to the provider: the target is what the stored reference names if and only if it takes no scope and its path is as above |
| `RuleMeaning.ScopedGroupIsSentAsAddress` | csp/aruba/pkg/adapter/converter/security_group.go:210-224 | a stored reference to security-groups/<name> with tenant and workspace is sent as an address that is none |
| `RuleMeaning.OneRuleAdmits` | csp/aruba/pkg/adapter/converter/security_group.go:110-224 | the fan-out of one normalised rule over protocols, ports and targets admits exactly the traffic of the rule, the protocol written all read as every protocol and every source as it is sent |
| `RuleMeaning.StoredIsNormalized` | csp/aruba/pkg/adapter/converter/security_group.go:82-93 | normalising keeps direction, protocol, ports and sources of a rule, and drops exactly IP version and ICMP type |
| `RuleMeaning.ExpansionMeansSent` | csp/aruba/pkg/adapter/converter/security_group.go:110-224 | for all normalised rules whatever: a flow is admitted by some expanded rule if and only if some rule admits it, the protocol written all read as every protocol and every source as it is sent |
| `RuleMeaning.ExpansionPreservesMeaning` | csp/aruba/pkg/adapter/converter/security_group.go:82-224 | from the store to the provider: for stored rules that ask for nothing that is dropped and whose sources are sent as what they name, a flow is admitted by some provider rule if and only if some stored rule admits it |
| `RuleMeaning.MeaningKeptIff` | csp/aruba/pkg/adapter/converter/security_group.go:82-224 | a stored rule that selects any port keeps its meaning in every network if and only if its protocol is not written all, it names no IP version and no ICMP type, and the origins sent for its sources are those they name, the open range standing for all |
| `RuleMeaning.Inexpressible` | csp/aruba/pkg/adapter/converter/security_group.go:82-93 | a rule with an IP version, an ICMP type or the protocol all admits traffic at the provider that it does not mean |
| `RuleMeaning.AllIsWidened` | csp/aruba/pkg/adapter/converter/security_group.go:163-181 | a protocol written all, which the schema does not have, admits every protocol |
| `SecurityGroups.RuleGoesFirst` | csp/aruba/pkg/adapter/handler/security-group.go:69-79 | deleting a rule of a group that is being reaped leaves the final outcome as it was |
| `SecurityGroups.GroupGoesLast` | csp/aruba/pkg/adapter/handler/security-group.go:80-82 | deleting the group leaves the final outcome as it was exactly if its rules are gone already |
| `SecurityGroups.ReapedExactly` | csp/aruba/pkg/adapter/handler/security-group.go:52-85 | what reaping removes: the labelled groups of that namespace and the rules under them; every other owner's groups stay |
| `SecurityGroups.Provider.ReapRules` | csp/aruba/pkg/adapter/handler/security-group.go:65-79 | listing and deleting the rules of one group, in any order and with objects vanishing meanwhile, leaves none of them |
| `SecurityGroups.Provider.Reap` | csp/aruba/pkg/adapter/handler/security-group.go:52-85 | stopped after any number of deletions and with objects vanishing meanwhile, no rule is left without its group and a later run still finds everything; run to the end, exactly the owner's objects are gone; it stops only when its calls are used up |
| `SecurityGroups.Provider.ReapAgain` | csp/aruba/pkg/adapter/handler/security-group.go:52-85 | any number of runs that fail, each anywhere, and then one that does not: the store ends as after one uninterrupted run |
| `SecurityGroups.LabelsMoveNothing` | csp/aruba/pkg/adapter/handler/security-group.go:140-152 | changing labels moves no rule to another position of the expansion |
| `SecurityGroups.RetagsExactlyInlineIff` | csp/aruba/pkg/adapter/handler/security-group.go:126-177 | retagging touches exactly the rules made from inline rules if and only if the inline rules of today reach as far as those of the materialisation; an unchanged inline spec does |
| `SecurityGroups.RetaggingIsIdempotent` | csp/aruba/pkg/adapter/handler/security-group.go:96-124 | retagging a second time with the same labels changes nothing |
| `SecurityGroups.RetaggedExactly` | csp/aruba/pkg/adapter/handler/security-group.go:96-177 | what an update comes to: all groups labelled for the owner and, under them, the rules with the names of as many first positions as the inline rules make have the tags of the labels; everything else is as it was |
| `SecurityGroups.StillRetagsTheSame` | csp/aruba/pkg/adapter/handler/security-group.go:96-124 | whatever part of an update has been done, the complete update of what is there is the complete update of what was there |
| `SecurityGroups.BuildInlineNames` | csp/aruba/pkg/adapter/handler/security-group.go:140-152 | the names by which inline rules are found again are those of today's inline expansion |
| `SecurityGroups.NamesOfBuilt` | csp/aruba/pkg/adapter/handler/security-group.go:140-152 | the names of the rebuilt inline rules are those of the leading positions |
| `SecurityGroups.BuiltRulesAreReaped` | csp/aruba/pkg/adapter/converter/security_group.go:110-147 | a rule built for a group and stored is found under the group, under its position's name, and goes when the group is reaped; one built from an inline rule has the tags of the group's labels |
| `SecurityGroups.BuildAndReap` | csp/aruba/pkg/adapter/handler/security-group.go:52-85 | a group is materialised with its rules and then reaped: none of them is left, and no other owner's group is touched |
| `SecurityGroups.Provider.UpdateInlineRuleTags` | csp/aruba/pkg/adapter/handler/security-group.go:134-177 | of the rules of the group those with inline names get the tags, and only those that differ are written, each once |
| `SecurityGroups.Provider.Update` | csp/aruba/pkg/adapter/handler/security-group.go:96-124 | stopped after any number of writes and with objects vanishing meanwhile, a later update still ends where this one would have; run to the end, all groups of the owner and their inline rules have the tags, nothing else changed, and exactly the objects that differed were written, each once; it stops only when its calls are used up |
| `SecurityGroups.Provider.UpdateAgain` | csp/aruba/pkg/adapter/handler/security-group.go:96-124 | any number of updates that fail, each anywhere, and then one that does not: the store ends as after one uninterrupted update |
| `Subnets.ReferenceNetwork` | csp/aruba/pkg/adapter/handler/instance.go:408-416 | the loop returns the segment after the first networks segment |
| `Subnets.ReferenceReads` | csp/aruba/pkg/adapter/handler/instance.go:408-480 | on a path of segments the name is the last one and the network the one after networks |
| `Subnets.ResolveSubnet` | csp/aruba/pkg/adapter/handler/instance.go:369-403 | a qualified reference gives an active subnet of that network or waits; a bare one gives the subnet, waits, or is refused for two networks |
| `Subnets.OrderDoesNotMatter` | csp/aruba/pkg/adapter/handler/instance.go:361-403 | every order of the listed subnets gives the same kind of answer and the same network, and the refusal comes exactly for a bare name with active subnets in different networks |
| `Subnets.SameSubnet` | csp/aruba/pkg/adapter/handler/instance.go:361-403 | where a network holds one subnet of a name, every order gives the very same subnet |
| `Inventory.SharesBootZoneIff` | csp/aruba/pkg/adapter/converter/cloudserver.go:41-43 | a server shares the zone of its boot volume exactly if that volume names one; otherwise it gets the default |
| `Inventory.SoundLasts` | csp/aruba/pkg/adapter/handler/instance.go:100-122 | whatever a server refers to stays active while phases only move forward |
| `Networking.ListAnswers` | csp/aruba/pkg/adapter/handler/instance.go:369-403 | a resolved reference is an active subnet of that name in the instance's workspace and in the network it names, and a bare one meant one network only; a reference is resolved exactly if there is such a subnet, and refused exactly for a bare name with active subnets in two networks |
| `Networking.SubnetsShareNetworkIff` | csp/aruba/pkg/adapter/handler/instance.go:245-261 | all subnets of a server are in the network of the first if and only if there is a network that every reference meant: by naming it, or because every active subnet of the name was in it when the pass began |
| `Networking.QualifiedSubnetsShareNetworkIff` | csp/aruba/pkg/adapter/handler/instance.go:245-261 | for references that all name a network: if and only if they all name the same one |
| `Networking.SubnetsShareVpcIff` | csp/aruba/pkg/adapter/handler/instance.go:245-261 | with subnets made by the converter, being in one network and being in one VPC is the same for the subnets of a server |
| `Networking.TwoNetworks` | csp/aruba/pkg/adapter/handler/instance.go:245-261 | two references that name different networks are resolved into two networks |
| `Networking.MaterializedNamesCollide` | csp/aruba/pkg/adapter/converter/security_group.go:34-36 | two groups in two networks can share one materialised name |
| `Networking.MaterializedNameIsUniqueIff` | csp/aruba/pkg/adapter/converter/security_group.go:34-36 | a materialised name stands for one group in one network if and only if neither part has a dash |
| `Networking.FiledGroupIsForIff` | csp/aruba/pkg/adapter/handler/instance.go:421-472 | a group found under its name is the one asked for, in its network and VPC, whatever else was materialised, if and only if neither part of the name has a dash |
| `Networking.PassKeepsFiled` | csp/aruba/pkg/adapter/handler/instance.go:231-285 | as long as nobody else makes groups, a pass leaves every group under the name and in the VPC of what it was made for, so that the next pass can rely on it |
| `Networking.HandedOutGroupsAreForIff` | csp/aruba/pkg/adapter/handler/instance.go:266-274 | of the groups of a server that the pass created or found at its start, exactly those are for the group asked for, in the network and VPC of the server, that the pass created or that were made for the same before |
| `Networking.GroupsAreForTheServer` | csp/aruba/pkg/adapter/handler/instance.go:266-274 | without dashes in the names every group of a server is the one the instance asked for, in the network and VPC of the server |
| `Networking.EditedRulesAreRightIff` | csp/aruba/pkg/adapter/handler/instance.go:451-455 | a group whose rules were expanded from one list is met by a pass that expands another: all its rules are right afterwards if and only if the expansions agree wherever both have a rule, and rules stay behind if and only if the old one had more |
| `ServerRequest.SeenInOrder` | csp/aruba/pkg/adapter/handler/instance.go:331-346 | the NICs collected are those the instance names, the primary one first, each as it was read |
| `ServerRequest.GroupNamesAsked` | csp/aruba/pkg/adapter/handler/instance.go:240-242 | the group names collected are exactly the last segments of the instance's own group and of every group of its NICs, each once and none empty |
| `ServerRequest.CollectedSubnets` | csp/aruba/pkg/adapter/handler/instance.go:348-350 | the subnets collected are those of the NICs that are the first to name theirs, in order, and every subnet named is among them |
| `ServerRequest.CollectedAddress` | csp/aruba/pkg/adapter/handler/instance.go:354-356 | the first address collected is the first one the first NIC with an address names |
| `ServerRequest.DescribedIsAsked` | csp/aruba/pkg/adapter/handler/instance.go:231-285 | said of the instance and its NICs alone: one group per name asked for, placed in the workspace under the name and the network, and no other, each once; the subnets in the order in which they are first named, each once; the address of the first NIC that names one |
| `ServerRequest.DescribedVolumesAsked` | csp/aruba/pkg/adapter/handler/instance.go:292-327 | the volumes are those of the references that name something, in order |
| `InstanceCreate.Handler.LoadActive` | csp/aruba/pkg/adapter/handler/dependency.go:48-89 | a dependency passes only if it was loaded and active; undisturbed exactly if it is active |
| `InstanceCreate.Handler.ResolveNics` | csp/aruba/pkg/adapter/handler/instance.go:331-359 | subnets, groups and addresses of all NICs as they were read, in order and without repetition; a missing NIC stops the pass, undisturbed nothing else does |
| `InstanceCreate.Handler.ListSubnets` | csp/aruba/pkg/adapter/handler/instance.go:370-376 | the list has every subnet of the store, as it is stored, in no particular order |
| `InstanceCreate.Handler.ResolveSubnet` | csp/aruba/pkg/adapter/handler/instance.go:369-403 | a subnet that is handed out is active, of that name, in the network named and in the instance's workspace; undisturbed a reference is resolved exactly if there is such a subnet, and fails exactly if a bare name means two networks |
| `InstanceCreate.Handler.ResolveSubnets` | csp/aruba/pkg/adapter/handler/instance.go:247-261 | every subnet is resolved in order and keeps its name, network, tenant and workspace, and the first fixes VPC and network; undisturbed exactly if all can be resolved |
| `InstanceCreate.ResolveInTwoNetworks` | csp/aruba/pkg/adapter/handler/instance.go:245-261 | two active subnets of one name in two networks, named by two references: both are taken, although they are in different networks and VPCs |
| `InstanceCreate.Handler.MaterializeSecurityGroup` | csp/aruba/pkg/adapter/handler/instance.go:421-472 | a group is handed out only when it is active and a rule of every name of the expansion of what was read exists, the inline rules first; what is created is that group, for this name, network and VPC, and rules of that expansion; undisturbed a known group is created with all its rules, and handed out exactly if it was active |
| `InstanceCreate.Handler.MaterializeGroups` | csp/aruba/pkg/adapter/handler/instance.go:263-274 | all groups are materialised in order, active, and every one created is for one of the names in this network and VPC; undisturbed exactly if all are known and active |
| `InstanceCreate.Handler.ResolveGraphOf` | csp/aruba/pkg/adapter/handler/instance.go:245-285 | once the NICs are known: subnets first, then groups in the first subnet's network, then the first address |
| `InstanceCreate.TakeGroupOfAnotherNetwork` | csp/aruba/pkg/adapter/handler/instance.go:421-472 | with a dash in a name a pass hands out a group that was made for another group of another network, in that one's VPC |
| `InstanceCreate.KeepEditedRule` | csp/aruba/pkg/adapter/handler/instance.go:451-455 | an inline rule was edited after it was materialised: the pass goes through and the old rule is still there |
| `InstanceCreate.Handler.ResolveNetworking` | csp/aruba/pkg/adapter/handler/instance.go:231-285 | the network part is what the instance and its NICs ask for: one group per name, the instance's own included, the subnets in the order in which they are first named, the first address; each subnet is in the network its reference names and in the instance's workspace; all of it is active, and every group created is for one of the names, in the network and VPC of the first subnet; undisturbed it is resolved exactly if everything is there |
| `InstanceCreate.Handler.ResolveVolumes` | csp/aruba/pkg/adapter/handler/instance.go:292-327 | boot and data volumes are active, the zone is the boot volume's and does not conflict with the instance's; undisturbed they are resolved exactly if all are active and the zones agree, and refused exactly if the zones conflict |
| `InstanceCreate.Handler.ResolveParents` | csp/aruba/pkg/adapter/handler/dependency.go:24-63 | the pass goes on only past an active workspace and an active project, undisturbed exactly then |
| `InstanceCreate.Handler.ResolveKeyPair` | csp/aruba/pkg/adapter/handler/instance.go:188-198 | the key pair is created once from the first ssh key and waited for until active, and for nothing else |
| `InstanceCreate.Handler.ResolveFlavor` | csp/aruba/pkg/adapter/handler/instance.go:204-224 | the flavor is that of the SKU as it was read; a missing SKU is waited for, one without a flavor is an error |
| `InstanceCreate.Handler.CreateRules` | csp/aruba/pkg/adapter/handler/instance.go:451-455 | afterwards a rule of every name of the expansion exists, and only rules of the expansion were created |
| `InstanceCreate.Handler.Resolve` | csp/aruba/pkg/adapter/handler/instance.go:166-225 | references are complete only if everything they name is active at that moment and follows from the instance as its NICs and workspace were read, each subnet in the network its reference names |
| `InstanceCreate.Handler.Create` | csp/aruba/pkg/adapter/handler/instance.go:100-122 | a server is created only after everything it refers to was seen active, as the last object of the pass; it refers to exactly what the instance and its NICs ask for as they were read: project, key pair, subnets, groups, address, volumes; the pass is through only if it saw the server active; it fails at its first failing request, and otherwise only for a bare name in two networks, a conflict of zones or a SKU without a flavor; undisturbed the server is created whenever everything is there, and the pass is through exactly if the server is active too |
| `InstanceCreate.Handler.Drive` | csp/aruba/pkg/adapter/handler/instance.go:100-122 | over any passes over any instances, with the operator and others at work and whatever others create, every server created here refers to active objects only and no object is created twice |
| `Namespaces.ScopeTextsAreDistinct` | framework/backend/kubernetes/adapter.go:155-179 | the hashed texts of slash-free scopes are equal only for the same scope of the same level |
| `Namespaces.ScopesShareNoNamespace` | framework/backend/kubernetes/adapter.go:155-195 | with a collision-free hash no two scopes share a namespace |
| `Namespaces.SlashesWouldCollide` | framework/backend/kubernetes/adapter.go:155-179 | with slashes in names a workspace could take the namespace of a network |
| `Namespaces.ChildrenShareNoNamespace` | framework/backend/kubernetes/adapter.go:751-780 | different workspaces and networks never share a child namespace |
| `Namespaces.ChildIsElsewhere` | framework/backend/kubernetes/adapter.go:751-780 | a resource never lives in the namespace of its own children |
| `Namespaces.Api.CreateNamespace` | framework/backend/kubernetes/adapter.go:198-223 | an existing namespace is no error and is left as it is; an empty name is one; an error may come although the namespace was created |
| `Namespaces.Api.DeleteNamespace` | framework/backend/kubernetes/adapter.go:226-244 | a missing namespace is no error; an existing one goes with everything in it, acknowledged or not |
| `Namespaces.Api.HasChildResources` | framework/backend/kubernetes/adapter.go:662-688 | children are reported exactly if one of the kinds has an object in the namespace, missing kinds skipped; it is an error exactly if a list request before the first of them is refused |
| `Namespaces.Api.OwnedBy` | framework/backend/kubernetes/adapter.go:866-891 | owned means that every owner label is there with its value |
| `Namespaces.OwnsIffLabelled` | framework/backend/kubernetes/adapter.go:751-780 | a namespace is the child namespace of an owner exactly if its labels have tenant, workspace and network of the owner under their keys |
| `Namespaces.LabelsTellOwners` | framework/backend/kubernetes/adapter.go:751-780 | the labels of one owner are not those of another one of its kind |
| `Namespaces.NetworkBlocksWorkspace` | framework/backend/kubernetes/adapter.go:617-688 | a workspace that still has a network has a listed child, so it is not taken away |
| `Namespaces.NamespaceRemoved` | framework/backend/kubernetes/adapter.go:617-657 | taking away a child namespace keeps every live workspace and network provided, once its owner is gone or under deletion |
| `Namespaces.Api.Rollback` | framework/backend/kubernetes/adapter.go:907-919 | the rollback takes back the new namespace and nothing else, unless one of its requests is refused; a lost reply does not change that |
| `Namespaces.Api.Register` | framework/backend/kubernetes/adapter.go:895-923 | the requests of a creation: which of namespace and object exist afterwards, for every way each of them can fail, before or after it took effect |
| `Namespaces.Api.Create` | framework/backend/kubernetes/adapter.go:895-923 | the call keeps every live workspace and network provided, and orphans its own exactly if a creation that took effect is reported as failed and its new namespace is taken back, acknowledged or not; a failed call leaves the namespaces as they were exactly unless it provided one without learning of it or the rollback had no effect |
| `Namespaces.Api.Delete` | framework/backend/kubernetes/adapter.go:617-657 | a namespace goes only if it is empty of listed kinds and its labels have tenant, workspace and network of the owner, after its owner, acknowledged or not; a namespace with listed children refuses the call; nothing else is lost |
| `Namespaces.Api.DropChildNamespace` | framework/backend/kubernetes/adapter.go:636-656 | the second half of a deletion: exactly a namespace labelled for the owner goes, unless a request is refused, and exactly its acknowledged removal is a success |
| `Namespaces.Api.Drive` | framework/backend/kubernetes/adapter.go:617-657 | over every run of whole calls, any of whose requests may fail before or after it took effect, every live workspace and network has its child namespace except those whose creation took effect but was reported as failed, and every removal took a namespace labelled for its owner and no listed child |
| `Namespaces.Api.OverlappingCreates` | framework/backend/kubernetes/adapter.go:907-919 | two overlapping creations of one workspace, or of one network, leave it without its namespace although no reply is lost |
| `Markers.Strip` | framework/backend/kubernetes/cmd/inject-kubebuilder-markers/main.go:362-372 | no marker is left at the end, and only markers were taken |
| `Markers.RemovePriorMarkers` | framework/backend/kubernetes/cmd/inject-kubebuilder-markers/main.go:362-372 | the loop strips exactly the trailing markers |
| `Markers.NeededTypes` | framework/backend/kubernetes/cmd/inject-kubebuilder-markers/main.go:312-338 | a type marker is added exactly if there is a length to check and no type is given |
| `Markers.MarkerLines` | framework/backend/kubernetes/cmd/inject-kubebuilder-markers/main.go:292-350 | the lines written for a tagged line: default, types, validations and rules, indented like it, and at least one |
| `Markers.BlankHasNoTags` | framework/backend/kubernetes/cmd/inject-kubebuilder-markers/main.go:264-281 | a blank line carries no tags, so keeping it needs no special case |
| `Markers.TaggedIffRead` | framework/backend/kubernetes/cmd/inject-kubebuilder-markers/main.go:274-290 | the first look at a line, for the keys of the tags only, passes over no tag |
| `Markers.ProcessLines` | framework/backend/kubernetes/cmd/inject-kubebuilder-markers/main.go:263-354 | the line loop computes the specified output and count, and with no marker injected the lines are unchanged |
| `Markers.InjectedIff` | framework/backend/kubernetes/cmd/inject-kubebuilder-markers/main.go:263-354 | something is injected exactly if a line is tagged |
| `Markers.EmittedAreMarkers` | framework/backend/kubernetes/cmd/inject-kubebuilder-markers/main.go:121-239 | everything that is written is recognised as a marker on the next run |
| `Markers.MarkerReadsBackIff` | framework/backend/kubernetes/cmd/inject-kubebuilder-markers/main.go:192-199 | name and value of a marker can be read back from the line written exactly if the name has no equals sign |
| `Markers.DefaultReadsBack` | framework/backend/kubernetes/cmd/inject-kubebuilder-markers/main.go:215-230 | a default can be read back from the line written, in lists and objects with double for single quotes |
| `Markers.CelReadsBackIff` | framework/backend/kubernetes/cmd/inject-kubebuilder-markers/main.go:121-135 | rule, message and old-self mark can be read back from the line written exactly if the texts have no quotes |
| `Markers.TypesAddedIff` | framework/backend/kubernetes/cmd/inject-kubebuilder-markers/main.go:312-338 | which type markers are added: one for the value and one for its items, each exactly if there is a length to check and no type is given |
| `Markers.EmittedSaysTags` | framework/backend/kubernetes/cmd/inject-kubebuilder-markers/main.go:292-350 | the lines written for a tagged line say, in order, its default, the types added, its markers and its rules |
| `Markers.IndentIsLeading` | framework/backend/kubernetes/cmd/inject-kubebuilder-markers/main.go:375-377 | the indent is all the blanks and tabs the line begins with |
| `Markers.MarkersAreTransient` | framework/backend/kubernetes/cmd/inject-kubebuilder-markers/main.go:292-295 | marker lines leave nothing behind that the next tagged line does not strip, even if they mention tags themselves |
| `Markers.InjectionIsIdempotent` | framework/backend/kubernetes/cmd/inject-kubebuilder-markers/main.go:259-372 | injecting into an injected file changes nothing, for all lines and tags |
| `Markers.OnlyMarkersChange` | framework/backend/kubernetes/cmd/inject-kubebuilder-markers/main.go:259-372 | with marker lines erased, output and input are the same |
| `Markers.TaggedLinesAreAnnotated` | framework/backend/kubernetes/cmd/inject-kubebuilder-markers/main.go:259-372 | directly above every tagged line stand exactly the markers of its tags |
| `Markers.ProcessFile` | framework/backend/kubernetes/cmd/inject-kubebuilder-markers/main.go:249-358 | the file holds the joined output; it is written exactly if a marker was injected, and otherwise left as it is |
| `Markers.SecondRunChangesNothing` | framework/backend/kubernetes/cmd/inject-kubebuilder-markers/main.go:249-358 | a second run leaves every character of the file as it is |
| `IncludeSet.BuildIndex` | framework/backend/kubernetes/cmd/model-gen/transformer.go:248-262 | the loops index every type spec, the last one of a name winning |
| `IncludeSet.IndexMatchesFile` | framework/backend/kubernetes/cmd/model-gen/transformer.go:248-262 | the index has what the file defines, and every type of the file is in it |
| `IncludeSet.AddRefs` | framework/backend/kubernetes/cmd/model-gen/transformer.go:276-288 | a new reference is included and queued exactly if it is defined here and not shared |
| `IncludeSet.QueueRoots` | framework/backend/kubernetes/cmd/model-gen/transformer.go:263-270 | every root is included and queued, and nothing else, whatever order the roots come in |
| `IncludeSet.RefsAreMentions` | framework/backend/kubernetes/cmd/model-gen/transformer.go:210-242 | the walk finds exactly the names that stand in a type position: below pointers, elements, keys, values and fields, and not below qualified names or interfaces |
| `IncludeSet.Follow` | framework/backend/kubernetes/cmd/model-gen/transformer.go:272-289 | each round keeps the worklist invariant and makes progress, so the loop ends |
| `IncludeSet.ComputeIncludeSet` | framework/backend/kubernetes/cmd/model-gen/transformer.go:246-291 | the result is exactly what is reachable from the roots through defined, non-shared names in type positions, whatever the map order |
| `IncludeSet.WalkStaysInside` | framework/backend/kubernetes/cmd/model-gen/transformer.go:246-291 | a closed set that has the roots has everything a walk can reach |
| `IncludeSet.ReachableIsLeast` | framework/backend/kubernetes/cmd/model-gen/transformer.go:246-291 | the result is the least set that has the roots and is closed under references |
| `IncludeSet.Decl.KeepSpecs` | framework/backend/kubernetes/cmd/model-gen/transformer.go:311-339 | filtering in place leaves exactly the specs that pass, in order |
| `IncludeSet.Decl.Prune` | framework/backend/kubernetes/cmd/model-gen/transformer.go:299-347 | a declaration stays unless it is a type or constant declaration that lost all its specs |
| `IncludeSet.FilterFileDecls` | framework/backend/kubernetes/cmd/model-gen/transformer.go:297-349 | the surviving nodes move to the front of the same array, in their order, each pruned |
| `IncludeSet.KeptExactly` | framework/backend/kubernetes/cmd/model-gen/transformer.go:297-349 | a spec is in the pruned file exactly if it was in the file and passes the filter of its declaration |
| `IncludeSet.StaysIff` | framework/backend/kubernetes/cmd/model-gen/transformer.go:297-349 | a type stays exactly if it is reached, a constant exactly if its type is written down as a bare name that is reached, and everything else stays |
| `IncludeSet.FunctionsStay` | framework/backend/kubernetes/cmd/model-gen/transformer.go:299-305 | functions stay |
| `IncludeSet.PrunedFileIsClosed` | framework/backend/kubernetes/cmd/model-gen/transformer.go:210-349 | a name found in a kept type is shared, kept too, or was never defined in the file; what is kept is reached from a root |

## Left out

What the models do not capture of the code they cover:

- Namespaces.Api.Drive: for whole calls, one after the other; what two overlapping creations can do is proved beside it.
- RuleMeaning.MeaningKeptIff: for networks whose open range covers every source; which sources a group or an address covers, and under which name the provider knows a group, is left open.
- InstanceCreate.Handler.Drive: phases move forward only and objects are not deleted; deletion of instances and of what they refer to is not part of this model.
- Markers.ProcessFile: reading the tags of a line is left open, and values are taken to hold no line break; trimming knows the ASCII white space only.
- Markers.EmittedSaysTags: for rules without quotes in their texts, and for marker names without an equals sign and numbers that do not begin with a quote, as all of them are; what the others say is in `Markers.CelReadsBackIff` and `Markers.MarkerReadsBackIff`.
- IncludeSet.PrunedFileIsClosed: for files that declare types in type declarations, each name once, as the language demands.
- References.RoundTripIff: for paths of non-empty segments and for tenants and workspaces without slashes, which the names of resources are.
- Kubernetes, informers and operators: the API server answers one request at a time; a write that changes nothing advances the version here, and deletion of provider objects and namespaces takes effect at once instead of waiting for finalizers.
- Networking.EditedRulesAreRightIff: as long as nobody else makes rules for the group; retagging in between is part of what is stored.
- WriterLoops.Update: every request of the loops is answered; requests without a reply are among the steps in `Writers`.
- Networking.HandedOutGroupsAreForIff: for groups that were there when the pass began or that it created; a group that somebody else creates under the same name during the pass is taken as it is.
- Requests that fail for no reason of the store, except in `Writers`, `Namespaces` and `InstanceCreate`, where any request may fail before or after it took effect, and in `SecurityGroups`, where a run may stop anywhere.
- Readers see the latest state; stale caches and pages of long lists are not part of this model.
- Missing and empty label or annotation maps are not told apart.
- Case folding beyond ASCII letters.
- The library sort of tags is modelled by an insertion sort; only that the result is sorted matters.
- SHA3 is a function without collisions or empty results; in `Tags` and `RuleExpansion` nothing is hashed.
- Conversions between stored and domain form, apart from references and the power intent: field copying.
- Times are opaque values handed to the push; only the unset time is special.
- Region defaults, public keys and other spec fields of provider objects that no branch looks at.
- Deletion of instances, networks, volumes and workspaces at the provider: single deletions with a check that the object is gone.
- The state lookup of a single reference, and tag updates of the other handlers, which are the same loop as the one modelled.
- HTTP servers, middleware, authentication, authorisation, metrics, logging and flags.
- SKU, flavor and image tables, limits and enum mappings: finite tables.
- The dummy plugin and the IONOS stores: clocks and thin wrappers.
- The other passes of the model generator (time types, shared imports, sibling files): syntax-directed replacements.
