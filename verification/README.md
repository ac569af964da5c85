# toolchain-common: a Dafny model of its protocols and compilers

toolchain-common is the library shared by the operators of a multi-cluster Kubernetes platform. This project
models the parts of it that carry state or build something, and proves what they are for. One module stands
for one component; `dafny verify dfyconfig.toml` checks all of them.

| module | component |
|---|---|
| `Clusters` | the cache of cluster clients and the service that fills it, one caller at a time, lock calls included |
| `ClusterInterleavings` | the same under any number of threads: a step system of program counters, an RWMutex and the map |
| `ClusterDeletions`, `ClusterAnswers`, `ClusterAlone` | in those interleavings: what becomes of a deleted cluster, what a finished call answers, and that a call alone keeps its sequential contract |
| `SpaceBindings` | bindings a space inherits from its parents |
| `Apply`, `ApplyCases`, `ApplyLaws`, `ApplyAgain` | create, skip or update objects, against a server that numbers generations; lists applied once and again |
| `TierFiles`, `TierTemplates`, `TierCases`, `TierGeneration` | template files to TierTemplates to NSTemplateTiers to the trace of ensure calls |
| `Usernames`, `UsernameCases`, `UserIdentifiers`, `DnsLabels` | compliant user names and encoded user identifiers |
| `Identities`, `Base64` | identity names, with unpadded base64 written out (sections 3.2 and 4 of RFC 4648) |
| `Conditions`, `VersionChecks`, `States` | histories: status conditions, the GitHub request gate, the states of a signup |
| `Owners`, `Resources` | the walk to the top-level owner, and the lazily filled cache of API resources |
| `Strings`, `Sequences`, `Wrappers` | shared helpers |

Code that changes things step by step is a class or a method with loops, proved equal to a specification
function of its inputs or of the old state; the laws are lemmas about those functions, over all inputs and all
runs. What the outside answers (API calls, discovery, clocks, parsers) is a parameter: each law holds for
every answer, failures included, unless it names the behaviour it relies on (`Lawful`).

The specification functions are pinned in turn: the `...Cases` modules, and laws such as `AdditionExactly` and
`FoundExactly` beside the functions, tell the outcome of one operation from the fields and characters of its input,
without the functions' helpers: which branch is taken, which constants and keys are used, what stays.

## What the proofs say about the code

Where a promise fails, the code is modelled as it is, a lemma shows the failing input, and the exact condition
is proved beside it.

- User names may have 21 characters, not 20 as the comment on the limit says: exactly when a 20-character name
  has its first three characters replaced for a forbidden prefix and no forbidden suffix follows
  (`ShapeAndLength`, `TwentyOneCharacters`).
- Every user name is free of forbidden words, whatever the words, when none of them is comparable with the added
  `crt-` or `-crt` or can be completed by the latter (`HarmlessWordsAreKeptOut`). For hyphen-free words the exact
  condition is that none of them is a prefix or suffix of `crt` (`ForbiddenWordsExactly`); with hyphens that one
  does not suffice (`HyphenatedWordsCanSurvive`).
- Loading tier files depends on the iteration order of the files map exactly when the files are not refused and
  two of them compete for one slot with different templates (`ConfluenceExactly`); files are refused when one has
  no known place or cannot be parsed, or a tier mixes a based-on file with regular ones (`FailsExactly`). Names
  ending in `.yaml` never compete; `ns_dev` and `ns_dev.yaml` do (`NamesWithoutEndingCompete`).
- The provider label is on an ensured NSTemplateTier exactly when the object it is made from came with a label
  map; a map made for the purpose is never set on the object (`ProviderLabelExactly`). A run can succeed with an
  unlabelled tier (`UnlabelledTiersAreEnsured`).
- Every TierTemplate is reachable by a parameter of its own exactly when the upper-cased kinds and roles of the
  files are distinct and none clashes with the cluster key (`OwnKeysExactly`).
- Where tiers and kinds have no hyphens, no ensured TierTemplate overwrites another exactly when no tier is made
  from two files of one kind and revision (`EnsuredNamesAreUnique`). `ns_admin.yaml` and `spacerole_admin.yaml`
  of one revision are such files: their two templates share a name (`TwinFilesShareAName`). In general names
  coincide exactly when tiers and the rests of the names overlap at a hyphen (`EnsuredNamesMeetExactly`), as for
  kind `c` of tier `a-b` and kind `b-c` of tier `a` (`HyphensMakeNamesMeet`).
- A deletion from the cluster cache does not always last: a name can come back without being listed again exactly
  when some thread carries it at that moment, such as a refresh that is past its list call
  (`DeletionLastsExactly`).
- Identity names are injective for one provider. Two providers meet exactly when one is the other followed by
  `:b64` and its user ID is the encoding of the other's (`NamesAcrossProviders`, `TwoProvidersMeet`).
- The encoder of user identifiers is not idempotent: an encoded value stays exactly when it does not end with a
  hyphen, or has full length and repeats its own checksum (`EncodingTwice`). Which subjects end with a hyphen is
  `EncodedWithHyphen`; the subject `-` is one (`NothingKept`).
- The batch flag of condition updates is false only for an unchanged list, but it also reports changes that
  cancel out (`FlagMayReportAnUndoneChange`). When flag and change agree is `FlagAgreesExactly`; they always do
  when no type is mentioned twice (`FlagIsExactForDistinctTypes`), and `UndoneExactly` tells which batches leave
  the list as it was.
- A GitHub call recorded at the zero time does not hold the next one back (`ZeroTimeDefeatsTheGate`); all other
  calls do (`CallsAreSpaced`).
- A list that was applied can be applied again exactly when the first call has left objects whose cluster IP can
  be looked up; it then settles exactly when the objects of each key agree in content, the cluster IP and service
  accounts aside (`SettlesExactly`). Distinct keys always do (`ApplyingAListTwice`).
- An update keeps the controller reference of the existing object exactly for service accounts and for objects
  that state the same controller (`ControllerKeptExactly`), so a forced update drops the owner set at creation
  (`ForcedUpdateDropsTheController`).
- Unstructured content can be applied again with force exactly when its spec can carry a cluster IP
  (`ImproperContentCannotBeReapplied`).
- A single failed application returns true beside the error exactly when it failed in creating the object
  (`FlagOfAFailure`), although its comment promises true for a creation or an update only; a list returns false
  with every error (`BatchFlagIsExact`).
- The comment on `SetApprovedManually` says that an approved signup has a single state. That holds exactly when
  the list was duplicate-free and held nothing but `approved` and the three states that are cleared
  (`ApprovalLeavesOneState`); a rejected signup stays rejected (`ApprovalKeepsRejection`).
- Clearing a state removes its first entry only (`ClearingADuplicateLeavesOne`). So a deactivated user is never
  also approved or deactivating, over all runs, exactly when this holds at the start and none of the three states
  is listed twice there (`OpposingStatesNeverCoexist`), and a getter follows its setters exactly when its state is
  listed at most once (`GettersExactly`).

## Model

| member | source | states |
|---|---|---|
| Clusters.ToolchainClusterClients.AddCachedToolchainCluster | pkg/cluster/cache.go:49-53 | entered with the lock free, leaves it free; the map is the old one with the entry under its own name |
| Clusters.ToolchainClusterClients.DeleteCachedToolchainCluster | pkg/cluster/cache.go:55-59 | only that name is gone; the lock is free again |
| Clusters.ToolchainClusterClients.GetCachedToolchainCluster | pkg/cluster/cache.go:61-72 | a miss hands the lock over to one refresh and looks again: the map is refreshed exactly on a miss that may refresh, and the answer is the entry of the map afterwards |
| Clusters.ToolchainClusterClients.GetCachedToolchainClusters | pkg/cluster/cache.go:82-99 | in whatever order the map is iterated, the list holds each entry that meets all conditions exactly once |
| Clusters.ToolchainClusterClients.GetHostCluster | pkg/cluster/cache.go:115-127 | refreshes exactly when the cache is empty; no host exactly when it is still empty, else an entry of it |
| Clusters.ToolchainClusterClients.GetMemberClusters | pkg/cluster/cache.go:136-145 | refreshes exactly when no entry matches; then lists all matching entries once |
| Clusters.ToolchainClusterClients.AddToolchainCluster | pkg/cluster/service.go:78-127 | the map gains the entry the resource yields against the old map, reusing the client when the rest configs agree; any failure leaves the map alone and is returned |
| Clusters.ToolchainClusterClients.RefreshCache | pkg/cluster/service.go:136-149 | adds the listed resources in order, past failing ones; a failed list adds none; never re-enters itself (termination by call depth) |
| Clusters.AdditionExactly | pkg/cluster/service.go:85-125 | what an addition stores, told from the loaded config, the old entry and the built client: the old client exactly when the rest configs agree, the readiness of the resource, and nothing on each of the three failures, in their order |
| Clusters.RefreshExactly | pkg/cluster/service.go:136-149 | a refresh adds the listed resources one by one in list order; a failed list changes nothing |
| Clusters.RefreshOverridesTheOldMap | pkg/cluster/service.go:136-149 | a refresh is the old map overridden by one entry per resource that loads, builds a client and has an operator namespace, each computed against the OLD map; failing and unlisted names keep their old entry |
| Clusters.RefreshKeepsGood | pkg/cluster/service.go:115-125 | every entry stays under its own name, with an operator namespace and a client built from its own rest config |
| Clusters.LookupSucceedsOnTheMergedMap | pkg/cluster/cache.go:64-71 | a refreshing look-up succeeds exactly for names in the merged map |
| Clusters.RefreshForgetsNothing | pkg/cluster/service.go:136-149 | no refresh removes a name |
| ClusterInterleavings.InvariantOverEveryRun | pkg/cluster/cache.go:49-86 | in every state of every interleaving: the lock agrees with the program counters, a writer is alone, entries and all that threads carry are fit for the cache |
| ClusterInterleavings.AccessOnlyUnderTheLock | pkg/cluster/cache.go:49-86 | the map is written only by the exclusive holder and read only under the lock; a step releases only what its own thread holds; a thread that may wait holds nothing; a finished one holds nothing |
| ClusterInterleavings.EntriesAreAlwaysGood | pkg/cluster/service.go:78-127 | in every reachable state each entry is under its own name, has an operator namespace and a client built from an equal rest config, despite the non-atomic look-up and store; answers hold no names but those asked for; no call refreshes twice (what calls answer is `CallsAnswer`) |
| ClusterInterleavings.SomeThreadCanStep | pkg/cluster/cache.go:61-72 | no reachable state with an unfinished thread is a deadlock |
| ClusterInterleavings.WaitsExactly | pkg/cluster/cache.go:49-86 | in every reachable state an unfinished thread has to wait exactly if it has announced a write while some thread reads, or is to read or announce while some thread has announced or is writing |
| ClusterInterleavings.EveryRunEnds | pkg/cluster/service.go:136-149 | runs are bounded by the work the threads start with; where nothing can step, all threads are done and the lock is free |
| ClusterInterleavings.StepKeepsLock | pkg/cluster/cache.go:61-69 | each step, the hand-over of the read lock included, keeps lock and program counters in agreement |
| ClusterInterleavings.StepKeepsFit | pkg/cluster/service.go:85-125 | each step of adding a resource keeps what a thread carries fit to be stored |
| ClusterAnswers.CallsAnswer | pkg/cluster/cache.go:61-99 | over every run and any number of threads: a finished look-up or list call answers what the map held at a state within the call; it read once if it found something, and after a miss that may refresh it answers from a read that follows its own listing of the resources |
| ClusterAnswers.LookUpsAnswer | pkg/cluster/cache.go:61-72 | a finished refreshing look-up has the entry of the name at a state within the call, if there was one, and comes back empty only after it has listed the resources |
| ClusterAlone.AloneAsContracted | pkg/cluster/cache.go:49-145 | a look-up, list, addition, deletion or refresh that runs alone to its end leaves the map and the answer its sequential contract says, the refresh on a miss included |
| ClusterDeletions.DeletionLastsExactly | pkg/cluster/service.go:129-149 | a deletion takes the name out of the map; over all continuations in which it is not listed again it stays out if and only if no thread carries it at that moment |
| ClusterDeletions.ComesBackExactly | pkg/cluster/service.go:78-149 | in every reachable state an absent name can come back without being listed again exactly when some thread carries it |
| ClusterDeletions.StaysAbsent | pkg/cluster/service.go:78-149 | what no thread carries stays absent over every interleaving |
| ClusterDeletions.PutBack | pkg/cluster/service.go:78-127 | whatever locks are held, a thread that carries a name can be driven to put it back |
| SpaceBindings.MergeSpaceBindings | pkg/spacebinding/spacebindinglister.go:49-66 | deleting one binding per found one, the result is the found list followed by exactly the parent bindings that outnumber the user's found ones |
| SpaceBindings.DeleteFromTheBack | pkg/spacebinding/spacebindinglister.go:54-60 | the backwards scan deletes the last binding of the user in place, if there is one |
| SpaceBindings.DeleteIsOneMoreFound | pkg/spacebinding/spacebindinglister.go:53-61 | deleting the last binding of a user equals one more found binding of that user |
| SpaceBindings.ListForSpace | pkg/spacebinding/spacebindinglister.go:23-47 | whatever the look-ups answer: the list is what each level reached, the found list first, adds to the nearer ones, with the failure that ended the walk (`OwnBindingsOnly` and `ParentDecides` say which levels those are) |
| SpaceBindings.OwnBindingsOnly | pkg/spacebinding/spacebindinglister.go:35-37 | without a parent, or with inheritance disabled, the levels are the own bindings alone |
| SpaceBindings.ParentDecides | pkg/spacebinding/spacebindinglister.go:39-46 | otherwise the parent's look-up decides: its failure ends the walk, its walk follows the own bindings |
| SpaceBindings.NothingIsInherited | pkg/spacebinding/spacebindinglister.go:23-37 | with inheritance disabled every user is listed with the larger of the numbers found so far and in the space itself, whatever the parent binds |
| SpaceBindings.ParentIsInherited | pkg/spacebinding/spacebindinglister.go:23-47 | otherwise a user whom only the parent binds is listed |
| SpaceBindings.SurvivorsByPosition | pkg/spacebinding/spacebindinglister.go:50-66 | by position: what a level adds stays in order, and of each user the first bindings stay, as many as exceed every nearer level |
| SpaceBindings.RankBoundsTheWalk | pkg/spacebinding/spacebindinglister.go:35-46 | a rank decreasing along parent links bounds the recursion |
| SpaceBindings.EveryUserGetsTheMaximum | pkg/spacebinding/spacebindinglister.go:23-66 | each user is listed with exactly as many bindings as the single level that lists it most |
| SpaceBindings.NearestSpaceWins | pkg/spacebinding/spacebindinglister.go:50-52 | when no level lists a user twice, each user is listed once, with the binding of the nearest space |
| SpaceBindings.UsersAreIsolated | pkg/spacebinding/spacebindinglister.go:53-61 | listers that answer alike for a user list the same for that user, whatever they answer for others |
| SpaceBindings.FartherLevelsOnlyAppend | pkg/spacebinding/spacebindinglister.go:26-46 | further levels only append to what the nearer ones give |
| SpaceBindings.FailedListIsPrefix | pkg/spacebinding/spacebindinglister.go:26-46 | a walk cut short by a failure lists a prefix of what is listed when more look-ups succeed |
| Apply.IsGenerationChangeNeeded | pkg/test/client.go:143-176 | decides exactly the rule on specs and padded contents |
| Apply.PadNulls | pkg/test/client.go:169-173 | the loop adds the null fields the update lacks, in any order |
| Apply.ContentChangesByField | pkg/test/client.go:154-175 | no change exactly when specs agree up to an absent one, the update has no field of its own and lacks only null fields |
| Apply.Server.Create | pkg/test/client.go:90-94 | generation 1; fails, storing nothing, when the key exists or a resource version is set |
| Apply.Server.Update | pkg/test/client.go:120-141 | the stored object is the sent one, its generation raised by one exactly when content changes; conflicts and missing keys store nothing |
| Apply.Merged | pkg/client/client.go:273-283 | existing pairs overridden by the new ones, in any iteration order |
| Apply.ApplyClient.CreateObj | pkg/client/client.go:234-242 | owner set or refused, object stored or not, and which error |
| Apply.ApplyClient.ReplaceExisting | pkg/client/client.go:144-171 | the update path, aliasing of the service account's object included, leaves server, flag and error as specified |
| Apply.ApplyClient.ChooseSent | pkg/client/client.go:147-158 | the object to send: the caller's with the existing version, or the existing service account with labels and annotations merged in |
| Apply.ApplyClient.SendUpdate | pkg/client/client.go:160-171 | cluster IP retained or refused, update sent, and the flag read off the generations |
| Apply.ApplyClient.ApplyObject | pkg/client/client.go:105-172 | server, write count, flag and error are those of the specification on the one key; no other key changes (the cases of `ApplyCases` say what that is) |
| ApplyCases.CreatedExactly | pkg/client/client.go:125-131 | a missing object is created exactly when look-up, owner and creation raise no error, and is then stored as given, with saved configuration, owner, generation 1 |
| ApplyCases.WritesExactly | pkg/client/client.go:133-142 | an existing object is written exactly when the application is forced, saves no configuration, or the object on the server does not carry the configuration to be saved; otherwise nothing changes |
| ApplyCases.UpdatedExactly | pkg/client/client.go:144-168 | what a write leaves of an object that is no service account: the object as given with the annotations sent and the existing cluster IP |
| ApplyCases.ServiceAccountExactly | pkg/client/client.go:150-158 | what a write leaves of a service account: the existing object with labels and annotations overridden |
| ApplyCases.UnsavedApplicationsWrite | pkg/client/client.go:133-168 | an application that saves no configuration leaves the content it was given, service accounts and the cluster IP aside |
| ApplyCases.UpdateErrorsExactly | pkg/client/client.go:125-168 | which error an application to an existing object ends with, in the order of the checks |
| ApplyCases.ServiceAccountsByKind | pkg/client/client.go:153-153 | among ASCII kinds, service accounts are those that read `serviceaccount` in any case |
| ApplyCases.ListsAreForced | pkg/client/client.go:247-259 | every object of a list that is applied is written |
| ApplyCases.LabelsExactly | pkg/client/client.go:262-271 | the new labels go over the object's own and nothing else of it changes |
| ApplyLaws.MergeLabels | pkg/client/client.go:262-271 | the object with the new labels over its own |
| ApplyLaws.FlagIsExact | pkg/client/client.go:91-95 | the flag is true exactly when the object was created or its generation went up, which is exactly when its content changed |
| ApplyLaws.FailureChangesNothing | pkg/client/client.go:125-168 | a failed application leaves the server's object as it was and writes nothing |
| ApplyLaws.FlagOfAFailure | pkg/client/client.go:125-131 | the flag beside an error is true exactly when the object was missing and was to be created |
| ApplyLaws.ServiceAccountsKeepTheirContent | pkg/client/client.go:150-158 | updating a service account keeps its content and generation, merges labels and annotations, and returns false |
| ApplyLaws.UpdatesReplaceTheObject | pkg/client/client.go:160-168 | any other update takes the new object over, except for the cluster IP the existing one has |
| ApplyLaws.ConfigurationIsSaved | pkg/client/client.go:112-122 | after a saving success the server holds the configuration just applied |
| ApplyLaws.ApplyingTwice | pkg/client/client.go:133-171 | applying again succeeds, returns false, keeps generation and content on every path; with a saved configuration and no force it writes nothing |
| ApplyLaws.MarkedTypedObjectsAreSkippedToo | pkg/client/client.go:210-225 | for typed objects the annotation left on the first call's argument does not defeat the skip |
| ApplyLaws.ImproperContentCannotBeReapplied | pkg/client/client.go:198-208 | forced re-application of unstructured content succeeds exactly when its spec can carry a cluster IP |
| ApplyLaws.ForcedUpdateDropsTheController | pkg/client/client.go:166-171 | the controller set at creation is gone after a forced update |
| ApplyLaws.ControllerKeptExactly | pkg/client/client.go:144-171 | an update keeps the existing controller exactly for service accounts and equal controllers |
| ApplyLaws.ApplyAll | pkg/client/client.go:247-259 | the loop applies each object in turn up to the first failure and returns the accumulated flag |
| ApplyLaws.BatchFlagIsExact | pkg/client/client.go:244-259 | the flag of a list is true exactly when some object is new or has a higher generation, repeated keys included; false on any error |
| ApplyLaws.EachKeyOnItsOwn | pkg/client/client.go:249-257 | with distinct keys every object finds the server as the call found it and leaves it for good |
| ApplyLaws.ApplyingAListTwice | pkg/client/client.go:247-259 | applying equal copies of a list of distinct keys again returns false and changes no generation |
| ApplyLaws.OneKeyTwiceNeverSettles | pkg/client/client.go:249-257 | two objects of one key and different content change the server on every call |
| ApplyAgain.SettlesExactly | pkg/client/client.go:247-259 | for any list, keys repeated or not: the second call succeeds if and only if the first has left readable objects, and then changes nothing if and only if objects of one key, service accounts aside, agree in content up to the cluster IP |
| ApplyAgain.TwoOfOneKey | pkg/client/client.go:249-257 | two typed objects of one key: the second call changes something exactly when one would change the other |
| ApplyAgain.LastWins | pkg/client/client.go:249-257 | a successful call leaves the content of the last object of each key that is no service account |
| ApplyAgain.SecondCallSucceeds | pkg/client/client.go:247-259 | a list that was applied can be applied again without an error |
| ApplyAgain.ProperListsStayReadable | pkg/client/client.go:176-208 | where unstructured specs can carry a cluster IP, what a call leaves is readable |
| ApplyAgain.OnlyReadableIsUpdated | pkg/client/client.go:160-165 | a call succeeds only if all it finds on the server is readable |
| TierFiles.LoadTemplatesByTiers | pkg/template/nstemplatetiers/nstemplatetier_generator.go:142-200 | iterating both maps in any order, the result is the loading of the files in the order met; every other order fails exactly when this one does, and without conflicts gives the same tiers |
| TierFiles.DispatchFiles | pkg/template/nstemplatetiers/nstemplatetier_generator.go:143-188 | the loop over the files: all dispatched in the order met, or a failure when one cannot be |
| TierFiles.HasMixed | pkg/template/nstemplatetiers/nstemplatetier_generator.go:190-198 | the loop over the tiers finds whether one mixes based-on and regular files |
| TierFiles.DispatchedBySlots | pkg/template/nstemplatetiers/nstemplatetier_generator.go:164-186 | each slot of a tier holds the last file that goes there, tiers are those of the files, a based-on file is kept parsed, and nothing else is there |
| TierFiles.ConflictFreeIsConfluent | pkg/template/nstemplatetiers/nstemplatetier_generator.go:142-200 | files not competing for a slot give the same tiers or failure in every order |
| TierFiles.FailureIgnoresTheOrder | pkg/template/nstemplatetiers/nstemplatetier_generator.go:145-199 | whether loading fails never depends on the order |
| TierFiles.ConfluenceExactly | pkg/template/nstemplatetiers/nstemplatetier_generator.go:142-200 | confluent exactly when the files are refused or no two compete with different templates |
| TierFiles.FailsExactly | pkg/template/nstemplatetiers/nstemplatetier_generator.go:145-198 | in every order, loading fails exactly when some file has no known place or cannot be parsed, or a tier mixes a based-on file with regular ones |
| TierFiles.YamlFilesDoNotCompete | pkg/template/nstemplatetiers/nstemplatetier_generator.go:160-186 | file names ending in `.yaml` are determined by their slot |
| TierFiles.NamesWithoutEndingCompete | pkg/template/nstemplatetiers/nstemplatetier_generator.go:171-176 | `ns_dev` and `ns_dev.yaml` of one tier with different contents make the tier depend on the order |
| TierFiles.SlotOfFileName | pkg/template/nstemplatetiers/nstemplatetier_generator.go:145-183 | the file name of a slot is dispatched to that slot |
| TierFiles.PlacesExactly | pkg/template/nstemplatetiers/nstemplatetier_generator.go:164-187 | which file names have a place, and which: three fixed names and two prefixes |
| TierFiles.SlashesExactly | pkg/template/nstemplatetiers/nstemplatetier_generator.go:145-150 | names without exactly one slash have none |
| TierFiles.RevisionOfFile | pkg/template/nstemplatetiers/nstemplatetier_generator.go:160-163 | the revision of a file is the one the metadata give for its name without the ending, or empty |
| TierTemplates.SetParams | pkg/template/nstemplatetiers/nstemplatetier_generator.go:316-325 | the nested loops give each first parameter of its name its last override; names, number and order stay |
| TierTemplates.NewTierTemplate | pkg/template/nstemplatetiers/nstemplatetier_generator.go:288-313 | revision `<based-on>-<base>`, name, kind and overridden contents, or a failure to decode |
| TierTemplates.NewTierTemplates | pkg/template/nstemplatetiers/nstemplatetier_generator.go:229-270 | namespaces by sorted kind, roles by sorted name, then cluster resources, up to the first failure |
| TierCases.TemplateMadeExactly | pkg/template/nstemplatetiers/nstemplatetier_generator.go:288-325 | one template from the fields of its file: lower-cased name of tier, kind and revision, the decoded body, and the first parameter of each name with the last override |
| TierCases.SourcesInOrder | pkg/template/nstemplatetiers/nstemplatetier_generator.go:229-270 | the files a tier is made from, by position: namespaces by kind, space roles by name, cluster resources |
| TierCases.TemplatesComeFrom | pkg/template/nstemplatetiers/nstemplatetier_generator.go:210-222 | a regular tier is made from its own files, a based-on tier from those of the other, with its own based-on revision and overrides |
| TierTemplates.MadeOneForOne | pkg/template/nstemplatetiers/nstemplatetier_generator.go:229-270 | success exactly when every source decodes, and then one template per source in the same order |
| TierTemplates.DerivedTiersCorrespond | pkg/template/nstemplatetiers/nstemplatetier_generator.go:212-222 | a tier based on another yields its base's templates one for one: same order and kinds, own tier name, revision `<based-on>-<base>`, contents with the overrides set; both succeed or both fail |
| TierTemplates.ReferenceIntegrity | pkg/template/nstemplatetiers/nstemplatetier_generator.go:433-446 | each parameter but the namespace names a template of the tier under its own key; all keys lead back to the name of their template exactly when templates sharing a key share their name |
| TierTemplates.OwnKeysExactly | pkg/template/nstemplatetiers/nstemplatetier_generator.go:435-446 | every template is reachable by a key of its own if and only if the kinds and roles of the files yield distinct keys |
| TierTemplates.TemplatesCarryTheirTier | pkg/template/nstemplatetiers/nstemplatetier_generator.go:300-312 | all templates made for a tier carry its name and the namespace |
| TierTemplates.PlainNamesAreUnique | pkg/template/nstemplatetiers/nstemplatetier_generator.go:327-331 | with hyphen-free tiers and kinds, names coincide exactly for one tier, kind and revision |
| TierTemplates.JoinedExactly | pkg/template/nstemplatetiers/nstemplatetier_generator.go:329-331 | exactly when joined names coincide at all |
| TierTemplates.HyphensMakeNamesMeet | pkg/template/nstemplatetiers/nstemplatetier_generator.go:288-313 | from loaded tiers: kind `c` of tier `a-b` and kind `b-c` of tier `a`, of one revision, make templates of one name |
| TierTemplates.NamesMeetExactly | pkg/template/nstemplatetiers/nstemplatetier_generator.go:327-331 | exactly when two templates share a name |
| TierTemplates.TwinsShareAName | pkg/template/nstemplatetiers/nstemplatetier_generator.go:232-261 | a namespace and a space role of one kind and revision make two templates of one name with the contents of either file |
| TierTemplates.NewNSTemplateTier | pkg/template/nstemplatetiers/nstemplatetier_generator.go:420-456 | the three loops and four failures: the processed objects with references, overrides and the tier's name in place of the source tier's (the references are those of `ReferencesExactly`) |
| TierCases.ReferencesExactly | pkg/template/nstemplatetiers/nstemplatetier_generator.go:433-446 | the parameters, by literal key: `NAMESPACE`, `CLUSTER_TEMPL_REF` for cluster resources, the upper-cased kind with `_TEMPL_REF` for every other template, each naming the last template under it, and no others |
| TierCases.ClusterResourcesAreReferenced | pkg/template/nstemplatetiers/nstemplatetier_generator.go:438-439 | with cluster resources `CLUSTER_TEMPL_REF` is a parameter, and it names them unless another kind is upper-cased to `CLUSTER` |
| TierCases.TemplatesAreReferenced | pkg/template/nstemplatetiers/nstemplatetier_generator.go:440-443 | any other template that is the only one under its key is named there |
| TierCases.ObjectsMadeExactly | pkg/template/nstemplatetiers/nstemplatetier_generator.go:334-354 | the objects of a tier: whose tier.yaml, which overrides, whose name is replaced, and when there are none |
| Strings.ReplacedExactly | pkg/template/nstemplatetiers/nstemplatetier_generator.go:452-454 | of the name of an object the first occurrence of the source tier's name is replaced, and nothing else |
| TierTemplates.NoChainsOfBases | pkg/template/nstemplatetiers/nstemplatetier_generator.go:190-198 | a tier based on a based-on tier can never be made |
| TierGeneration.TierGenerator.TierTemplatesOf | pkg/template/nstemplatetiers/nstemplatetier_generator.go:210-221 | one turn of the first pass: templates from the files of the source tier for the tier itself |
| TierGeneration.TierGenerator.InitTierTemplates | pkg/template/nstemplatetiers/nstemplatetier_generator.go:203-227 | although it writes into the map it reads from, every tier gets what it would get from the original map, or the pass fails when one cannot |
| TierGeneration.TierGenerator.NSTemplateTierObjectsOf | pkg/template/nstemplatetiers/nstemplatetier_generator.go:335-347 | one turn of the second pass, with the tier.yaml of the source tier |
| TierGeneration.TierGenerator.InitNSTemplateTiers | pkg/template/nstemplatetiers/nstemplatetier_generator.go:334-354 | the same for an arbitrary iteration order of the map being written |
| TierGeneration.TierGenerator.Create | pkg/template/nstemplatetiers/nstemplatetier_generator.go:273-285 | an ensuring pass in some order of the tiers makes the calls of that order up to the first error |
| TierGeneration.TierGenerator.EnsureNSTemplateTier | pkg/template/nstemplatetiers/nstemplatetier_generator.go:357-379 | one tier of the second ensuring pass: exactly one unstructured object that converts, labelled and ensured, or an error before any call |
| TierGeneration.NoTierStep | pkg/template/nstemplatetiers/nstemplatetier_generator.go:358-368 | when a tier is not ensured at all |
| TierGeneration.GenerateTiers | pkg/template/nstemplatetiers/nstemplatetier_generator.go:57-75 | load, initialise, ensure: no call on a failure before, else the calls are the steps of both passes up to the first error; only the last call can have failed, none on success |
| TierGeneration.InitialisedTier | pkg/template/nstemplatetiers/nstemplatetier_generator.go:78-102 | an initialised tier has the templates its files say and objects processed with those templates |
| TierGeneration.InitialisedExactly | pkg/template/nstemplatetiers/nstemplatetier_generator.go:203-354 | initialising succeeds exactly when for every tier the templates and the objects that refer to them can be made |
| TierGeneration.GenerationIsConfluent | pkg/template/nstemplatetiers/nstemplatetier_generator.go:78-102 | for `.yaml` files, loading and initialising give the same tier data or the same failure in every order |
| TierGeneration.TraceOfSteps | pkg/template/nstemplatetiers/nstemplatetier_generator.go:273-285 | the calls are a prefix of the steps, complete exactly on success, in which at most the last call failed |
| TierGeneration.TemplatesComeFirst | pkg/template/nstemplatetiers/nstemplatetier_generator.go:63-73 | in every trace, failed ones included, no NSTemplateTier is ensured before every TierTemplate of every tier has been, successfully |
| TierGeneration.ReferencesAreEnsuredFirst | pkg/template/nstemplatetiers/nstemplatetier_generator.go:435-446 | each reference of an ensured tier names a TierTemplate of that same tier ensured before it, cluster resources under `CLUSTER_TEMPL_REF` and all others under their upper-cased kind, and there are no further references; all templates have keys of their own exactly when the files yield distinct keys |
| TierGeneration.EnsuredTierIsTheObject | pkg/template/nstemplatetiers/nstemplatetier_generator.go:357-379 | what is ensured for a tier is the conversion of its one object |
| TierGeneration.SuccessEnsuresEverything | pkg/template/nstemplatetiers/nstemplatetier_generator.go:57-75 | a success has ensured every template and the object of every tier |
| TierGeneration.ProviderLabelExactly | pkg/template/nstemplatetiers/nstemplatetier_generator.go:372-377 | in every trace an ensured tier carries the provider label exactly when its object came with a label map; nothing else is changed |
| TierGeneration.UnlabelledTiersAreEnsured | pkg/template/nstemplatetiers/nstemplatetier_generator.go:357-379 | a run from a single tier.yaml that succeeds and ensures a tier without the label |
| TierGeneration.EnsuredNamesAreUnique | pkg/template/nstemplatetiers/nstemplatetier_generator.go:273-331 | for plain names, all ensured templates, by tier and position, have distinct names if and only if no tier is made from two files of one kind and revision |
| TierGeneration.EnsuredNamesMeetExactly | pkg/template/nstemplatetiers/nstemplatetier_generator.go:300-331 | hyphens included: exactly when two ensured templates share a name |
| TierGeneration.TwinFilesShareAName | pkg/template/nstemplatetiers/nstemplatetier_generator.go:171-176 | from two files such as `ns_admin.yaml` and `spacerole_admin.yaml`: two templates of one name |
| Strings.SortedKeys | pkg/template/nstemplatetiers/nstemplatetier_generator.go:232-238 | collecting the keys of a map in any order and sorting them gives the one sorted list |
| Usernames.TransformUsername | pkg/usersignup/usersignup.go:21-78 | the successive rewritings compose to the specified transformation, which `UsernameCases` tells from the characters of the name |
| UsernameCases.OnlyTheFrontCounts | pkg/usersignup/usersignup.go:23-23 | of a name with something in front of an `@` only that counts: what follows makes no difference |
| UsernameCases.LeadingAtIsSpelledOut | pkg/usersignup/usersignup.go:24-26 | a name that starts with `@` is treated like the one with `at-` for each `@` |
| UsernameCases.EmptyName | pkg/usersignup/usersignup.go:24-41 | the empty name is treated like a hyphen |
| UsernameCases.TransformedExactly | pkg/usersignup/usersignup.go:27-48 | the name before forbidden words: its words and hyphens, `crt-` before digits alone, `crt` at an end that is no letter or digit, cut behind the 20th character or in front of it when that is a hyphen |
| UsernameCases.GapsBecomeOneHyphen | pkg/usersignup/usersignup.go:23-35 | each stretch of other characters than letters and digits becomes one hyphen, and what surrounds it is unchanged by that |
| UsernameCases.LettersSurvive | pkg/usersignup/usersignup.go:23-41 | before the cut no letter or digit in front of the `@` is lost, altered or moved; exactly when a `crt` goes to either end |
| UsernameCases.LettersOfSpelledOut | pkg/usersignup/usersignup.go:24-26 | for a name that starts with `@` these are the letters of its parts with `at` for each `@` |
| UsernameCases.ForbiddenWordsReplace | pkg/usersignup/usersignup.go:50-77 | what a matching forbidden prefix and then a matching forbidden suffix make of the name, short or long |
| Usernames.CollapseHyphens | pkg/usersignup/usersignup.go:33-35 | the `--` loop ends, and equals one pass that collapses each run of hyphens |
| Usernames.AvoidForbiddenPrefix | pkg/usersignup/usersignup.go:53-63 | stopping at the first match decides whether any prefix matches |
| Usernames.AvoidForbiddenSuffix | pkg/usersignup/usersignup.go:66-76 | likewise for suffixes |
| Usernames.BaseNameShape | pkg/usersignup/usersignup.go:23-48 | before forbidden words: 1 to 20 letters, digits and single hyphens, none at either end |
| Usernames.ShapeAndLength | pkg/usersignup/usersignup.go:50-77 | every result is non-empty, of letters, digits and hyphens, alphanumeric at both ends, at most 20 long, and exactly 21 in one stated case |
| Usernames.TwentyOneCharacters | pkg/usersignup/usersignup.go:15-19 | names that exceed the documented limit of 20 |
| Usernames.LabelWithoutUpperCase | pkg/usersignup/usersignup.go:21-78 | without upper case the result is a label of section 2.1 of RFC 1123 |
| Usernames.CutKeepsTheFront | pkg/usersignup/usersignup.go:42-48 | the cut keeps all of a short name and at least 19 characters of a long one |
| Usernames.CleanNamesStay | pkg/usersignup/usersignup.go:21-78 | names with nothing to fix are left alone |
| Usernames.NoForbiddenWordSurvives | pkg/usersignup/usersignup.go:50-77 | hyphen-free words that are no end of `crt` never start or end a transformed name |
| Usernames.HarmlessWordsAreKeptOut | pkg/usersignup/usersignup.go:50-77 | for all lists of harmless words the result has no forbidden prefix or suffix, although each loop stops at its first match and the suffix step comes second |
| Usernames.ForbiddenWordsExactly | pkg/usersignup/usersignup.go:50-77 | for hyphen-free words, that condition on the lists is exact |
| Usernames.HyphenatedWordsCanSurvive | pkg/usersignup/usersignup.go:53-63 | with a forbidden `crt-` every name that another forbidden prefix changes starts with a forbidden one |
| UserIdentifiers.SanitizeDNS1123 | pkg/usersignup/usersignup.go:104-123 | the builder loop keeps the label characters of the lower-cased string in order, trimmed |
| UserIdentifiers.EncodeUserIdentifier | pkg/usersignup/usersignup.go:87-102 | sanitised, prefixed when that changed anything, cut at 63 |
| UserIdentifiers.EncodedExactly | pkg/usersignup/usersignup.go:87-102 | a subject that is not compliant becomes its checksum, a hyphen and what is kept of it, cut off behind 63 characters |
| UserIdentifiers.SanitizedExactly | pkg/usersignup/usersignup.go:104-123 | only the hyphens at either end of what is kept are taken off |
| UserIdentifiers.KeptOfOne | pkg/usersignup/usersignup.go:110-118 | of a character its lower case is kept, if that is `a-z`, `0-9` or a hyphen |
| UserIdentifiers.HexExactly | pkg/usersignup/usersignup.go:93-93 | the hexadecimal text has the value of the checksum and no leading zero |
| UserIdentifiers.ChecksumShape | pkg/usersignup/usersignup.go:93-93 | a 32-bit checksum prints as 1 to 8 hexadecimal digits |
| UserIdentifiers.EncodedShape | pkg/usersignup/usersignup.go:87-102 | at most 63 characters of `a-z`, `0-9`, `-`, no hyphen in front, empty only for the empty subject |
| UserIdentifiers.CompliantSubjectsStay | pkg/usersignup/usersignup.go:91-99 | compliant subjects are only ever cut |
| UserIdentifiers.FixedPoints | pkg/usersignup/usersignup.go:91-99 | the fixed points are exactly the compliant subjects that fit, and texts of full length that repeat their own checksum |
| UserIdentifiers.EncodingTwice | pkg/usersignup/usersignup.go:87-102 | an encoded value encodes to itself exactly when it does not end with a hyphen, or has full length and repeats its own checksum |
| UserIdentifiers.EncodedWithHyphen | pkg/usersignup/usersignup.go:91-99 | a subject is encoded with a hyphen at the end exactly when nothing of it is kept or the cut falls behind a hyphen |
| UserIdentifiers.NothingKept | pkg/usersignup/usersignup.go:91-94 | subjects of which nothing is kept encode differently a second time; the subject `-` is one |
| Base64.DecodeEncode | pkg/identity/identity_naming_standard.go:41-41 | decoding unpadded base64 undoes encoding, for all byte strings |
| Base64.EncodeDecode | pkg/identity/identity_naming_standard.go:41-41 | encoding undoes decoding, where it succeeds |
| Base64.EncodeHasNoColon | pkg/identity/identity_naming_standard.go:41-41 | no colon in an encoded text |
| Base64.EncodedLength | pkg/identity/identity_naming_standard.go:41-41 | an encoded text has no padding: its length is four thirds of the input, rounded up |
| Base64.EncodeExactly | pkg/identity/identity_naming_standard.go:41-41 | three bytes are one number of 24 bits whose four digits to the base 64 are written in order; missing bytes count as zero |
| Base64.DigitExactly | pkg/identity/identity_naming_standard.go:41-41 | the standard alphabet |
| Identities.NamedIdentity.ApplyToIdentity | pkg/identity/identity_naming_standard.go:32-36 | name, provider and user name set so that both names decode to the user ID |
| Identities.NamesExactly | pkg/identity/identity_naming_standard.go:38-60 | the bytes of a name: the provider, a colon, and the ID, or `b64:` and its encoding exactly when it holds a colon or a slash |
| Identities.UsernameDecodes | pkg/identity/identity_naming_standard.go:38-44 | the decoder answers with an ID exactly on the user name of that ID |
| Identities.NameDecodes | pkg/identity/identity_naming_standard.go:47-49 | for a fixed provider, decoding and naming are inverse on all byte strings |
| Identities.NamesAreInjective | pkg/identity/identity_naming_standard.go:47-49 | two IDs of one provider never share a name |
| Identities.NamesAcrossProviders | pkg/identity/identity_naming_standard.go:47-60 | for any two providers: names coincide exactly for equal parts or when one provider is the other followed by `:b64` and its ID the encoding of the other's |
| Identities.TwoProvidersMeet | pkg/identity/identity_naming_standard.go:41-48 | a coincidence that happens |
| Identities.MeetingOf | pkg/identity/identity_naming_standard.go:41-48 | every ID that needs encoding and encodes without a slash takes part in a coincidence |
| Conditions.FindConditionByType | pkg/condition/condition.go:51-58 | the first condition of the type, or none |
| Conditions.AddOrUpdateStatusCondition | pkg/condition/condition.go:109-142 | on Go slices: result and flag as specified, and the elements of the slice passed in never altered, although the result may share its array |
| Conditions.AddOrUpdateStatusConditions | pkg/condition/condition.go:26-35 | the same for a batch, with one clock reading each |
| Conditions.AddedExactly | pkg/condition/condition.go:109-142 | a new type goes to the end, with all its fields |
| Conditions.UpdatedExactly | pkg/condition/condition.go:118-139 | the first condition of a known type is replaced in its place unless it says the same and no last-updated time is asked for; which times it has |
| Conditions.LookupAfterRun | pkg/condition/condition.go:109-142 | after any run a look-up finds the last written status, reason and message, with the time of first appearance or of the latest actual change of status, and the last-updated time of the latest update that was no repetition |
| Conditions.TransitionTimesNeverGoBack | pkg/condition/condition.go:110-133 | under a monotone clock transition times are monotone |
| Conditions.TypesInFirstSeenOrder | pkg/condition/condition.go:119-141 | types are those of the initial list, then each new one once in order of first mention |
| Conditions.TypesStayUnique | pkg/condition/condition.go:10-13 | types stay unique over every run |
| Conditions.OneFlagIsExact | pkg/condition/condition.go:122-138 | without the last-updated time, the flag of one update says exactly whether the list changed |
| Conditions.BatchFlagIsExact | pkg/condition/condition.go:26-35 | a batch flag is false exactly when every update repeats what the list says, and then the list is unchanged |
| Conditions.ChangeIsExact | pkg/condition/condition.go:109-142 | a batch leaves the list as it was exactly when all it says about the types it mentions, times included, is what the list says |
| Conditions.FlagAgreesExactly | pkg/condition/condition.go:10-13 | exactly when the flag of a batch says whether the list changed |
| Conditions.FlagIsExactForDistinctTypes | pkg/condition/condition.go:10-13 | it always does when no type is mentioned twice and no last-updated time is asked for |
| Conditions.UndoneExactly | pkg/condition/condition.go:122-138 | under a later clock, without asking for last-updated times and handing in the stored ones, a batch leaves the list as it was exactly when it mentions known types, keeps their statuses and says in the end what the list says |
| Conditions.FlagMayReportAnUndoneChange | pkg/condition/condition.go:26-35 | a batch that changes nothing in the end and still reports a change |
| VersionChecks.VersionCheckManager.CheckDeployedVersionIsUpToDate | pkg/status/versionchecks.go:35-81 | whether GitHub is called, what is remembered, and which verdict follows from which answer |
| VersionChecks.LateExactly | pkg/status/versionchecks.go:68-76 | a deployment is late exactly when another commit is the latest and more than half an hour has passed since it was made |
| VersionChecks.RemembersTheLatestCall | pkg/status/versionchecks.go:47-61 | over every run the remembered time of a repository is that of its latest call |
| VersionChecks.GateIsExact | pkg/client/github_client.go:33-35 | a check calls GitHub exactly when every earlier call for that name is more than a minute old or the latest is at the zero time |
| VersionChecks.CallsAreSpaced | pkg/client/github_client.go:11-12 | over every run two calls for one repository name are more than a minute apart, failed calls included, unless the earlier one is at the zero time |
| VersionChecks.ZeroTimeDefeatsTheGate | pkg/client/github_client.go:33-35 | the zero time is taken for no call |
| States.UserSignup.Contains | pkg/states/state_manager.go:70-77 | membership |
| States.UserSignup.Remove | pkg/states/state_manager.go:79-86 | the first entry is removed in place |
| States.UserSignup.SetState | pkg/states/state_manager.go:60-68 | appended if missing, removed if present, else untouched |
| States.UserSignup.ApplySetter | pkg/states/state_manager.go:11-58 | each setter performs its writes in order |
| States.WithStateExactly | pkg/states/state_manager.go:60-86 | by position: a missing state goes to the end, a listed one has its first entry taken out, nothing else moves |
| States.SetStateWrites | pkg/states/state_manager.go:60-68 | exactly the written state changes its presence, and no duplicate arises |
| States.SetStateTimes | pkg/states/state_manager.go:60-86 | on any list: how often each state is listed after a write |
| States.SetStateKeepsTheRest | pkg/states/state_manager.go:79-86 | all other states keep order and number, duplicates or not |
| States.GettersAnswerTheLastVerdict | pkg/states/state_manager.go:5-58 | over every run the getter of a state listed at most once answers with the last value written, unless a later opposing setter cleared it |
| States.GettersExactly | pkg/states/state_manager.go:5-58 | that condition on the start is exact for every state with a setter |
| States.RunsStayDuplicateFree | pkg/states/state_manager.go:60-68 | a duplicate-free list stays so over every run |
| States.OpposingStatesNeverCoexist | pkg/states/state_manager.go:11-50 | over all runs `deactivated` never meets `deactivating` or `approved`, if and only if this holds at the start and none of the three is listed twice there |
| States.UntouchedStatesKeepTheirOrder | pkg/states/state_manager.go:60-86 | states no setter speaks about keep order and number over every run |
| States.ClearingADuplicateLeavesOne | pkg/states/state_manager.go:79-86 | clearing a state removes its first entry only, which breaks the exclusion for two entries |
| States.ApprovalLeavesOneState | pkg/states/state_manager.go:9-18 | a manual approval leaves the single state the comment promises if and only if the list was duplicate-free and held only `approved` and the states that are cleared |
| States.ApprovalKeepsRejection | pkg/states/state_manager.go:9-18 | an approved signup that was rejected keeps that state |
| Owners.ChooseOwner | pkg/owners/fetcher.go:51-70 | the loop over two variables finds the first controller if named, else the first named reference before it |
| Owners.ChoiceExactly | pkg/owners/fetcher.go:51-70 | named references or not: which one is chosen, by position, and exactly when none is |
| Owners.ChoiceAmongNamedReferences | pkg/owners/fetcher.go:50-67 | with named references: the first controller, else the first reference |
| Owners.OwnerFetcher.GetOwners | pkg/owners/fetcher.go:49-103 | with or without an error, the list is the reverse of the walk up to where it ended; the resource cache answers as before |
| Owners.OwnerFetcher.FetchOwner | pkg/owners/fetcher.go:51-96 | one hop: no owner, the failure of the look-up or fetch, or the chosen owner with its resource |
| Owners.HopExactly | pkg/owners/fetcher.go:72-96 | a hop goes to the object fetched under the name of the chosen reference as the first resource of its kind and version, from the namespace of the object exactly if that resource is namespaced |
| Owners.BrokenExactly | pkg/owners/fetcher.go:73-92 | on what a walk breaks off: a failed discovery, a version that cannot be parsed, no such resource, a failed fetch |
| Owners.TopExactly | pkg/owners/fetcher.go:68-70 | the top is reached exactly when every named reference has a controller before it |
| Owners.WalkByPosition | pkg/owners/fetcher.go:98-102 | each element is the chosen owner of the one before |
| Owners.WalkIsUnique | pkg/owners/fetcher.go:49-103 | the outside determines the list and the error |
| Owners.FailedWalkIsPrefix | pkg/owners/fetcher.go:90-100 | on a failure the owners are those of the unfailing walk up to it |
| Owners.RankBoundsTheChain | pkg/owners/fetcher.go:98-98 | on an acyclic graph the recursion ends |
| Resources.ResourceCache.EnsureResourceList | pkg/client/resource_cache.go:91-110 | asks once; after a failure or an absent list the next call asks again |
| Resources.ResourceCache.GVRForKind | pkg/client/resource_cache.go:27-61 | the first resource of the kind in a list of exactly that version, none, or the failure |
| Resources.FoundExactly | pkg/client/resource_cache.go:40-58 | by position: what is found is the first resource of the kind in a list of just that version, with its name, scope and parsed version |
| Resources.NotFoundExactly | pkg/client/resource_cache.go:33-60 | nothing is found exactly if there is no such resource, and the look-up fails exactly if the version cannot be parsed |
| Resources.ResourceCache.GVKForGR | pkg/client/resource_cache.go:64-89 | the first resource of group and name before any unparsable list, none, or the first unparsable list |
| Resources.SearchByName | pkg/client/resource_cache.go:69-88 | the nested loops: the first match before any unparsable list |
| Resources.ReverseFoundExactly | pkg/client/resource_cache.go:69-86 | by position: the reverse look-up finds the first resource of the group and name |
| Resources.LookupIsUnique | pkg/client/resource_cache.go:40-60 | lists and arguments determine the answer |
| Resources.ReverseOfLookup | pkg/client/resource_cache.go:27-89 | kind to resource to kind is the identity exactly when the first resource of the group and name, in list order, is of that version and kind |
| Resources.ParsedExactly | pkg/client/resource_cache.go:32-37 | a version of two slashes or more cannot be parsed; one slash parts group and version, none leaves the group empty |

## Left out

- Kubernetes, discovery, dynamic, GitHub and REST clients, kubeconfig parsing, health probes, controllers: I/O; their answers are parameters, failures included.
- YAML and JSON decoding, template expansion, object conversion, CRC-32, the case conversions: abstract functions; `Lawful` states the facts used (lower-casing fixes `a-z`, `0-9` and `-`; checksums have 32 bits; JSON text is never empty; a loaded config has the name of its resource; a client factory does not alter its config).
- Generated parameter values of template expansion and the order of ensure calls that fail now and succeed later: processing and the failing of calls are functions of their input.
- Server-side apply (`pkg/client/ssa_client.go`): decided by a library that is not part of this model.
- Text of errors and log lines, cluster status contents other than readiness.
- The constants of the API module (`toolchainv1alpha1`, not part of this model): state names are constructors; the provider label, the cluster resources kind and the ready type have the values the repository's tests and comments show.
- Cyclic parent chains and ownership graphs: the code does not detect them, so a depth bound is a precondition; `RankBoundsTheWalk` and `RankBoundsTheChain` derive it from a rank.
- A tier based on one that was not loaded: the code dereferences nil, so `BasesLoaded` is a precondition.
- The service constructors' unlocked write of `refreshCache`: taken as set before threads start.
- ClusterInterleavings: new readers wait for an announced writer, but the order in which waiting threads are served is left open, so the runs are a superset of those of sync.RWMutex. A list call returns at most `listLimit` resources, an arbitrary number that bounds the length of runs.
- Conditions.AddOrUpdateStatusCondition: does not model how two results share one spare-capacity array when both are appended to the same slice; the elements of the slice passed in are covered.
- Slices of space bindings and of states are values: deletion in place inside one array is not visible, since every list call returns a fresh slice and the signup owns its list.
- Usernames.ForbiddenWordsExactly: an if-and-only-if for hyphen-free words; for lists with hyphens `HarmlessWordsAreKeptOut` is sufficient only.
- ApplyAgain.SettlesExactly: objects of one key are held in one form, so lists that hold an object both typed and unstructured are not covered.
- UserIdentifiers.EncodingTwice: whether CRC-32 has a text that repeats its own checksum is not decided, since checksums are abstract.
- ApplyLaws.MarkedTypedObjectsAreSkippedToo: for typed objects only; removing the annotation from unstructured content acts on a copy.
- ApplyLaws.ApplyingTwice: for unstructured content whose spec can carry a cluster IP; `ImproperContentCannotBeReapplied` shows the rest fails.
- Clusters.RefreshOverridesTheOldMap: for distinctly named resources, as one namespace holds.
- Apply.ApplyClient.ApplyObject: a server object without a spec, or with an empty cluster IP, counts as unreadable as a Go Service; a server of Services holds neither.
- Conversion failures and type mismatches while the server compares generations, and the absence of a kind on typed objects read back.
- The mutable variable `MaxLength` has its default of 20. Invalid UTF-8 in user names and identifiers is not modelled; identity names are byte strings.
- Overflow of `time.Time` and of generations.
- Condition counting and the `Is...` helpers, `AddStatusConditions`, `RoleLabel`, `ListToolchainClusterConfigs`, name generators, notification builders, predicates, configuration getters, test fixtures: single-branch code that would only add easy members.
