/** What applying is for: the flag is exact, applying again changes nothing (pkg/client/client.go). */
module ApplyLaws {
  import opened Wrappers
  import opened Apply

  // ----- one object -----

  /** Unstructured content whose spec can carry a cluster IP. */
  predicate Proper(o: Object) {
    o.form.Unstructured? ==> !o.spec.NoMap? && (o.spec.Fields? ==> o.spec.clusterIP != NotText)
  }

  /** The flag of a successful application is true exactly when the object was created or its generation
      went up, and the generation goes up by one exactly when spec or content change. */
  lemma FlagIsExact(marshal: Marshal, onServer: Option<Object>, o: Object, opts: Options, faults: Faults)
    requires Applied(marshal, onServer, o, opts, faults).error == None
    ensures var outcome := Applied(marshal, onServer, o, opts, faults);
            && outcome.stored.Some?
            && (outcome.changed <==> onServer.None? || outcome.stored.value.generation != onServer.value.generation)
            && (onServer.None? ==> outcome.stored.value.generation == 1)
            && (onServer.Some? ==>
                  var raised := if ContentChanges(onServer.value, outcome.stored.value) then 1 else 0;
                  outcome.stored.value.generation == onServer.value.generation + raised)
  {
  }

  /** A failed application leaves the object on the server as it was. */
  lemma FailureChangesNothing(marshal: Marshal, onServer: Option<Object>, o: Object, opts: Options, faults: Faults)
    requires Applied(marshal, onServer, o, opts, faults).error != None
    ensures Applied(marshal, onServer, o, opts, faults).stored == onServer
    ensures !Applied(marshal, onServer, o, opts, faults).wrote
  {
  }

  /** Updating an existing service account never changes its content, secrets included: labels and
      annotations are merged into it, its generation stays, and the flag is false. */
  lemma ServiceAccountsKeepTheirContent(
    marshal: Marshal, existing: Object, o: Object, opts: Options, faults: Faults)
    requires IsServiceAccount(o) && Applied(marshal, Some(existing), o, opts, faults).error == None
    ensures var outcome := Applied(marshal, Some(existing), o, opts, faults);
            var stored := outcome.stored.value;
            && !outcome.changed && stored.generation == existing.generation
            && stored.content == existing.content && stored.spec == existing.spec && stored.controller == existing.controller
            && existing.labels.Keys <= stored.labels.Keys && existing.annotations.Keys <= stored.annotations.Keys
            && (outcome.wrote ==> stored.labels == existing.labels + o.labels)
            && (outcome.wrote ==> stored.annotations == existing.annotations + Annotated(marshal, o, opts).annotations)
  {
  }

  /** Any other update replaces content and metadata by those of the object applied, except for a cluster
      IP that the existing object has. */
  lemma UpdatesReplaceTheObject(marshal: Marshal, existing: Object, o: Object, opts: Options, faults: Faults)
    requires !IsServiceAccount(o) && Applied(marshal, Some(existing), o, opts, faults).wrote
    ensures var stored := Applied(marshal, Some(existing), o, opts, faults).stored.value;
            && stored.content == o.content && stored.labels == o.labels && stored.controller == o.controller
            && stored.annotations == Annotated(marshal, o, opts).annotations
            && stored.resourceVersion == NextVersion(existing.resourceVersion)
            && var found := FoundIP(o.form, existing.spec);
               && found.Success?
               && (found.value.None? ==> stored.spec == o.spec)
               && (found.value.Some? ==> FoundIP(o.form, stored.spec) == found)
  {
  }

  /** After a success that saved its configuration, the server holds that configuration. */
  lemma ConfigurationIsSaved(marshal: Marshal, onServer: Option<Object>, o: Object, opts: Options, faults: Faults)
    requires opts.saveConfiguration && Applied(marshal, onServer, o, opts, faults).error == None
    ensures var stored := Applied(marshal, onServer, o, opts, faults).stored.value;
            LAST_APPLIED in stored.annotations && stored.annotations[LAST_APPLIED] == NewConfiguration(marshal, o)
  {
  }

  /** Idempotence: applying an equal object again succeeds, returns false and keeps generation and content,
      whether the first application created, updated, skipped, retained a cluster IP or merged a service
      account; with a saved configuration and no force it writes nothing at all. */
  lemma ApplyingTwice(marshal: Marshal, onServer: Option<Object>, o: Object, opts: Options, faults: Faults)
    requires FitsForm(o.form, o.spec) && Proper(o)
    requires Applied(marshal, onServer, o, opts, faults).error == None
    ensures var first := Applied(marshal, onServer, o, opts, faults);
            var second := Applied(marshal, first.stored, o, opts, NO_FAULTS);
            && second.error == None && !second.changed
            && second.stored.value.generation == first.stored.value.generation
            && SpecOrEmpty(second.stored.value.spec) == SpecOrEmpty(first.stored.value.spec)
            && second.stored.value.content == first.stored.value.content
            && (opts.saveConfiguration && !opts.forceUpdate ==> !second.wrote && second.stored == first.stored)
  {
    var first := Applied(marshal, onServer, o, opts, faults);
    if opts.saveConfiguration {
      ConfigurationIsSaved(marshal, onServer, o, opts, faults);
    }
    StoredFits(marshal, onServer, o, opts, faults);
    SecondUpdate(marshal, first.stored.value, o, opts);
  }

  /** The stored object of a success can be read back in the form it was applied in, and its cluster IP, if
      any, is already the one the next update would retain. */
  ghost predicate Settled(stored: Object, o: Object) {
    && FitsForm(o.form, stored.spec)
    && (IsServiceAccount(o) ==> WithIPOf(o.form, stored.spec, stored.spec) == Success(stored.spec))
    && (!IsServiceAccount(o) ==>
          && stored.content == o.content
          && WithIPOf(o.form, o.spec, stored.spec).Success?
          && SpecOrEmpty(WithIPOf(o.form, o.spec, stored.spec).value) == SpecOrEmpty(stored.spec))
  }

  lemma StoredFits(marshal: Marshal, onServer: Option<Object>, o: Object, opts: Options, faults: Faults)
    requires FitsForm(o.form, o.spec) && Proper(o)
    requires Applied(marshal, onServer, o, opts, faults).error == None
    ensures var first := Applied(marshal, onServer, o, opts, faults);
            Settled(first.stored.value, o) || (!first.wrote && first.stored == onServer
              && Skips(marshal, ReadAs(onServer.value, o), o, opts) && FitsForm(o.form, onServer.value.spec))
  {
  }

  lemma SecondUpdate(marshal: Marshal, stored: Object, o: Object, opts: Options)
    requires Settled(stored, o) || (FitsForm(o.form, stored.spec) && Skips(marshal, ReadAs(stored, o), o, opts))
    ensures var second := Applied(marshal, Some(stored), o, opts, NO_FAULTS);
            && second.error == None && !second.changed
            && second.stored.value.generation == stored.generation
            && SpecOrEmpty(second.stored.value.spec) == SpecOrEmpty(stored.spec)
            && second.stored.value.content == stored.content
            && (Skips(marshal, ReadAs(stored, o), o, opts) ==> !second.wrote && second.stored == Some(stored))
  {
  }

  /** For typed objects the old annotation does not count: an object that differs from the applied one in
      that annotation only, such as the mutated argument of the first call, is skipped as well. */
  lemma MarkedTypedObjectsAreSkippedToo(
    marshal: Marshal, onServer: Option<Object>, o: Object, mark: string, owner: Option<string>, faults: Faults)
    requires !o.form.Unstructured? && FitsForm(o.form, o.spec)
    requires Applied(marshal, onServer, o, Options(owner, false, true), faults).error == None
    ensures var opts := Options(owner, false, true);
            var first := Applied(marshal, onServer, o, opts, faults);
            var marked := o.(annotations := o.annotations[LAST_APPLIED := mark]);
            var second := Applied(marshal, first.stored, marked, opts, NO_FAULTS);
            second.error == None && !second.changed && !second.wrote && second.stored == first.stored
  {
    var opts := Options(owner, false, true);
    var marked := o.(annotations := o.annotations[LAST_APPLIED := mark]);
    assert marked.(annotations := marked.annotations - {LAST_APPLIED}) == o.(annotations := o.annotations - {LAST_APPLIED});
    ApplyingTwice(marshal, onServer, o, opts, faults);
    ConfigurationIsSaved(marshal, onServer, o, opts, faults);
    StoredFits(marshal, onServer, o, opts, faults);
  }

  /** Unstructured content whose spec is not a map is the exception: once created it cannot be applied again
      with force, because its cluster IP cannot be looked up. */
  lemma ImproperContentCannotBeReapplied(marshal: Marshal, o: Object, opts: Options)
    requires o.form.Unstructured? && opts.owner == None && opts.forceUpdate
    ensures var first := Applied(marshal, None, o, opts, NO_FAULTS);
            var second := Applied(marshal, first.stored, o, opts, NO_FAULTS);
            first.error == None && (second.error == None <==> Proper(o))
  {
  }

  /** The flag of a failed application is true exactly when it failed in creating the object. */
  lemma FlagOfAFailure(marshal: Marshal, onServer: Option<Object>, o: Object, opts: Options, faults: Faults)
    requires Applied(marshal, onServer, o, opts, faults).error != None
    ensures Applied(marshal, onServer, o, opts, faults).changed <==> onServer == None && !faults.get
  {
  }

  /** An update keeps the controller of the existing object exactly for service accounts and for objects that
      state the same controller: owners are set on creation only. */
  lemma ControllerKeptExactly(marshal: Marshal, existing: Object, o: Object, opts: Options, faults: Faults)
    requires Applied(marshal, Some(existing), o, opts, faults).wrote
    ensures var stored := Applied(marshal, Some(existing), o, opts, faults).stored.value;
            stored.controller == existing.controller <==> IsServiceAccount(o) || o.controller == existing.controller
  {
  }

  /** A forced update sends the object as given, so the controller set at its creation is gone after it. */
  lemma ForcedUpdateDropsTheController(marshal: Marshal, o: Object, owner: string)
    requires FitsForm(o.form, o.spec) && Proper(o) && !IsServiceAccount(o) && o.controller == None
    ensures var opts := Options(Some(owner), true, true);
            var first := Applied(marshal, None, o, opts, NO_FAULTS);
            var second := Applied(marshal, first.stored, o, opts, NO_FAULTS);
            && first.error == None && first.stored.value.controller == Some(owner)
            && second.error == None && second.stored.value.controller == None
  {
  }

  // ----- a list of objects -----

  const FORCED := Options(None, true, true)

  function Labelled(o: Object, newLabels: map<string, string>): Object {
    o.(labels := o.labels + newLabels)
  }

  datatype Batch = Batch(objects: Objects, changed: bool, error: Option<ApplyError>)

  /** Apply: every object in turn, with force and with its configuration saved, up to the first failure. */
  function AppliedAll(
    marshal: Marshal, objects: Objects, os: seq<Object>, newLabels: map<string, string>, faults: seq<Faults>): Batch
    requires |faults| == |os|
  {
    if os == [] then Batch(objects, false, None)
    else
      var n := |os| - 1;
      OneMore(marshal, AppliedAll(marshal, objects, os[..n], newLabels, faults[..n]), os[n], newLabels, faults[n])
  }

  function OneMore(marshal: Marshal, before: Batch, given: Object, newLabels: map<string, string>, faults: Faults): Batch {
    if before.error.Some? then before
    else
      var o := Labelled(given, newLabels);
      var outcome := Applied(marshal, OnServer(before.objects, o.key), o, FORCED, faults);
      Batch(With(before.objects, o.key, outcome.stored),
            outcome.error.None? && (before.changed || outcome.changed), outcome.error)
  }

  lemma LastErrorStays(
    marshal: Marshal, objects: Objects, os: seq<Object>, newLabels: map<string, string>, faults: seq<Faults>)
    requires |faults| == |os| > 0
    requires AppliedAll(marshal, objects, os[..|os| - 1], newLabels, faults[..|os| - 1]).error.Some?
    ensures AppliedAll(marshal, objects, os, newLabels, faults) ==
            AppliedAll(marshal, objects, os[..|os| - 1], newLabels, faults[..|os| - 1])
  {
  }

  lemma {:induction false} ErrorsStay(
    marshal: Marshal, objects: Objects, os: seq<Object>, newLabels: map<string, string>, faults: seq<Faults>, k: nat)
    requires |faults| == |os| && k <= |os|
    requires AppliedAll(marshal, objects, os[..k], newLabels, faults[..k]).error.Some?
    ensures AppliedAll(marshal, objects, os, newLabels, faults) == AppliedAll(marshal, objects, os[..k], newLabels, faults[..k])
  {
    if k == |os| {
      assert os[..k] == os && faults[..k] == faults;
    } else {
      var n := |os| - 1;
      assert os[..n][..k] == os[..k] && faults[..n][..k] == faults[..k];
      ErrorsStay(marshal, objects, os[..n], newLabels, faults[..n], k);
      LastErrorStays(marshal, objects, os, newLabels, faults);
    }
  }

  method MergeLabels(obj: Resource, newLabels: map<string, string>)
    modifies obj
    ensures obj.o == Labelled(old(obj.o), newLabels)
  {
    var labels := Merged(obj.o.labels, newLabels);
    obj.o := obj.o.(labels := labels);
  }

  /** One turn of the loop of Apply. */
  method ApplyOne(client: ApplyClient, obj: Resource, newLabels: map<string, string>, faults: Faults, createdOrUpdated: bool)
    returns (changed: bool, error: Option<ApplyError>)
    requires Lawful(client.marshal)
    modifies client.server, obj
    ensures Batch(client.server.objects, changed, error) ==
            OneMore(client.marshal, Batch(old(client.server.objects), createdOrUpdated, None), old(obj.o), newLabels, faults)
    ensures error == None ==> client.server.writes == old(client.server.writes) + 1
  {
    MergeLabels(obj, newLabels);
    var result, failure := client.ApplyObject(obj, FORCED, faults);
    if failure.Some? {
      return false, failure;
    }
    return createdOrUpdated || result, None;
  }

  method ApplyAll(client: ApplyClient, objs: seq<Resource>, newLabels: map<string, string>, faults: seq<Faults>)
    returns (createdOrUpdated: bool, error: Option<ApplyError>)
    requires Lawful(client.marshal) && |faults| == |objs|
    requires forall i, j :: 0 <= i < j < |objs| ==> objs[i] != objs[j]
    modifies client.server, objs
    ensures var batch := AppliedAll(client.marshal, old(client.server.objects), old(Values(objs)), newLabels, faults);
            client.server.objects == batch.objects && createdOrUpdated == batch.changed && error == batch.error
    ensures error == None ==> client.server.writes == old(client.server.writes) + |objs|
  {
    ghost var os, start := Values(objs), client.server.objects;
    createdOrUpdated := false;
    for i := 0 to |objs|
      invariant forall j :: i <= j < |objs| ==> objs[j].o == os[j]
      invariant client.server.writes == old(client.server.writes) + i
      invariant Batch(client.server.objects, createdOrUpdated, None) ==
                AppliedAll(client.marshal, start, os[..i], newLabels, faults[..i])
    {
      OneMoreApplied(client.marshal, start, os, newLabels, faults, i);
      createdOrUpdated, error := ApplyOne(client, objs[i], newLabels, faults[i], createdOrUpdated);
      if error.Some? {
        ErrorsStay(client.marshal, start, os, newLabels, faults, i + 1);
        return;
      }
    }
    assert os[..|objs|] == os && faults[..|objs|] == faults;
    error := None;
  }

  lemma OneMoreApplied(
    marshal: Marshal, objects: Objects, os: seq<Object>, newLabels: map<string, string>, faults: seq<Faults>, i: nat)
    requires |faults| == |os| && i < |os|
    ensures AppliedAll(marshal, objects, os[..i + 1], newLabels, faults[..i + 1]) ==
            OneMore(marshal, AppliedAll(marshal, objects, os[..i], newLabels, faults[..i]), os[i], newLabels, faults[i])
  {
    assert os[..i + 1][..i] == os[..i] && faults[..i + 1][..i] == faults[..i];
  }

  ghost function Values(objs: seq<Resource>): seq<Object>
    reads objs
  {
    seq(|objs|, i requires 0 <= i < |objs| reads objs => objs[i].o)
  }

  /** Some object is new, or has a higher generation. */
  ghost predicate Grew(objects: Objects, later: Objects) {
    exists k :: k in later && (k in objects ==> later[k].generation > objects[k].generation)
  }

  /** No object is lost or set back; after a success the flag says whether some object is new or has a
      higher generation, after a failure it is false. */
  ghost predicate FlagSaysGrown(objects: Objects, batch: Batch) {
    && (forall k :: k in objects ==> k in batch.objects && batch.objects[k].generation >= objects[k].generation)
    && (batch.error == None ==> (batch.changed <==> Grew(objects, batch.objects)))
    && (batch.error != None ==> !batch.changed)
  }

  /** The flag of a list is exact as well: true exactly when some object is new on the server or has a
      higher generation than before the call, even if a key occurs more than once. */
  lemma {:induction false} BatchFlagIsExact(
    marshal: Marshal, objects: Objects, os: seq<Object>, newLabels: map<string, string>, faults: seq<Faults>)
    requires |faults| == |os|
    ensures FlagSaysGrown(objects, AppliedAll(marshal, objects, os, newLabels, faults))
  {
    if os != [] {
      var n := |os| - 1;
      BatchFlagIsExact(marshal, objects, os[..n], newLabels, faults[..n]);
      OneMoreFlag(marshal, objects, AppliedAll(marshal, objects, os[..n], newLabels, faults[..n]), os[n], newLabels, faults[n]);
    }
  }

  lemma OneMoreFlag(
    marshal: Marshal, objects: Objects, before: Batch, given: Object, newLabels: map<string, string>, faults: Faults)
    requires FlagSaysGrown(objects, before)
    ensures FlagSaysGrown(objects, OneMore(marshal, before, given, newLabels, faults))
  {
    if before.error == None {
      var o := Labelled(given, newLabels);
      var onServer := OnServer(before.objects, o.key);
      var outcome := Applied(marshal, onServer, o, FORCED, faults);
      if outcome.error == None {
        FlagIsExact(marshal, onServer, o, FORCED, faults);
      } else {
        FailureChangesNothing(marshal, onServer, o, FORCED, faults);
      }
      FlagAfter(objects, before, o.key, outcome);
    }
  }

  lemma FlagAfter(objects: Objects, before: Batch, key: Key, outcome: Outcome)
    requires FlagSaysGrown(objects, before) && before.error == None
    requires outcome.error != None ==> outcome.stored == OnServer(before.objects, key)
    requires outcome.error == None ==> outcome.stored.Some?
    requires outcome.error == None && key in before.objects ==>
               var was, next := before.objects[key].generation, outcome.stored.value.generation;
               next >= was && (outcome.changed <==> next != was)
    requires outcome.error == None && key !in before.objects ==> outcome.changed
    ensures FlagSaysGrown(objects, Batch(With(before.objects, key, outcome.stored),
              outcome.error.None? && (before.changed || outcome.changed), outcome.error))
  {
    if outcome.error == None {
      OneMoreKey(objects, before.objects, key, outcome.stored.value);
    } else {
      assert With(before.objects, key, outcome.stored) == before.objects;
    }
  }

  lemma OneMoreKey(objects: Objects, before: Objects, key: Key, stored: Object)
    requires forall k :: k in objects ==> k in before && before[k].generation >= objects[k].generation
    requires key in before ==> stored.generation >= before[key].generation
    ensures var after := before[key := stored];
            Grew(objects, after) <==> Grew(objects, before) || key !in before || stored.generation > before[key].generation
  {
  }

  ghost predicate DistinctKeys(os: seq<Object>) {
    forall i, j :: 0 <= i < j < |os| ==> os[i].key != os[j].key
  }

  /** With distinct keys each object finds the server as the call found it, and leaves it for good. */
  lemma EachKeyOnItsOwn(
    marshal: Marshal, objects: Objects, os: seq<Object>, newLabels: map<string, string>, faults: seq<Faults>, i: nat)
    requires |faults| == |os| && DistinctKeys(os) && i < |os|
    requires AppliedAll(marshal, objects, os, newLabels, faults).error == None
    ensures var o := Labelled(os[i], newLabels);
            var outcome := Applied(marshal, OnServer(objects, o.key), o, FORCED, faults[i]);
            outcome.error == None
            && OnServer(AppliedAll(marshal, objects, os, newLabels, faults).objects, o.key) == outcome.stored
  {
    LaterKeysStay(marshal, objects, os, newLabels, faults, i + 1, os[i].key);
    LastKeyOnItsOwn(marshal, objects, os[..i + 1], newLabels, faults[..i + 1]);
  }

  lemma {:induction false} LaterKeysStay(
    marshal: Marshal, objects: Objects, os: seq<Object>, newLabels: map<string, string>, faults: seq<Faults>, k: nat, key: Key)
    requires |faults| == |os| && k <= |os| && forall j :: k <= j < |os| ==> os[j].key != key
    requires AppliedAll(marshal, objects, os, newLabels, faults).error == None
    ensures var before := AppliedAll(marshal, objects, os[..k], newLabels, faults[..k]);
            && before.error == None
            && OnServer(AppliedAll(marshal, objects, os, newLabels, faults).objects, key) == OnServer(before.objects, key)
  {
    if k == |os| {
      assert os[..k] == os && faults[..k] == faults;
    } else {
      var n := |os| - 1;
      LastOneElsewhere(marshal, objects, os, newLabels, faults, key);
      assert os[..n][..k] == os[..k] && faults[..n][..k] == faults[..k];
      LaterKeysStay(marshal, objects, os[..n], newLabels, faults[..n], k, key);
    }
  }

  lemma LastKeyOnItsOwn(
    marshal: Marshal, objects: Objects, os: seq<Object>, newLabels: map<string, string>, faults: seq<Faults>)
    requires |faults| == |os| > 0 && DistinctKeys(os)
    requires AppliedAll(marshal, objects, os, newLabels, faults).error == None
    ensures var n := |os| - 1;
            var o := Labelled(os[n], newLabels);
            var outcome := Applied(marshal, OnServer(objects, o.key), o, FORCED, faults[n]);
            outcome.error == None
            && OnServer(AppliedAll(marshal, objects, os, newLabels, faults).objects, o.key) == outcome.stored
  {
    var n := |os| - 1;
    OtherKeysStay(marshal, objects, os[..n], newLabels, faults[..n], os[n].key);
    LastOne(marshal, objects, os, newLabels, faults);
  }

  lemma LastOne(
    marshal: Marshal, objects: Objects, os: seq<Object>, newLabels: map<string, string>, faults: seq<Faults>)
    requires |faults| == |os| > 0 && AppliedAll(marshal, objects, os, newLabels, faults).error == None
    ensures var n := |os| - 1;
            var o := Labelled(os[n], newLabels);
            var before := AppliedAll(marshal, objects, os[..n], newLabels, faults[..n]).objects;
            var outcome := Applied(marshal, OnServer(before, o.key), o, FORCED, faults[n]);
            outcome.error == None
            && OnServer(AppliedAll(marshal, objects, os, newLabels, faults).objects, o.key) == outcome.stored
  {
    var n := |os| - 1;
    var before := AppliedAll(marshal, objects, os[..n], newLabels, faults[..n]).objects;
    FlagIsExact(marshal, OnServer(before, os[n].key), Labelled(os[n], newLabels), FORCED, faults[n]);
  }

  lemma LastOneElsewhere(
    marshal: Marshal, objects: Objects, os: seq<Object>, newLabels: map<string, string>, faults: seq<Faults>, key: Key)
    requires |faults| == |os| > 0 && AppliedAll(marshal, objects, os, newLabels, faults).error == None
    requires key != os[|os| - 1].key
    ensures var n := |os| - 1;
            var before := AppliedAll(marshal, objects, os[..n], newLabels, faults[..n]);
            && before.error == None
            && OnServer(AppliedAll(marshal, objects, os, newLabels, faults).objects, key) == OnServer(before.objects, key)
  {
  }

  lemma {:induction false} OtherKeysStay(
    marshal: Marshal, objects: Objects, os: seq<Object>, newLabels: map<string, string>, faults: seq<Faults>, key: Key)
    requires |faults| == |os| && forall i :: 0 <= i < |os| ==> os[i].key != key
    ensures OnServer(AppliedAll(marshal, objects, os, newLabels, faults).objects, key) == OnServer(objects, key)
  {
    if os != [] {
      OtherKeysStay(marshal, objects, os[..|os| - 1], newLabels, faults[..|os| - 1], key);
    }
  }

  function NoFaults(n: nat): (faults: seq<Faults>)
    ensures |faults| == n && forall i :: 0 <= i < n ==> faults[i] == NO_FAULTS
  {
    seq(n, _ => NO_FAULTS)
  }

  /** Applying a list of distinct keys twice: the second call succeeds, returns false, and no generation
      changes. */
  lemma ApplyingAListTwice(
    marshal: Marshal, objects: Objects, os: seq<Object>, newLabels: map<string, string>, faults: seq<Faults>)
    requires |faults| == |os| && DistinctKeys(os)
    requires forall i :: 0 <= i < |os| ==> FitsForm(os[i].form, os[i].spec) && Proper(os[i])
    requires AppliedAll(marshal, objects, os, newLabels, faults).error == None
    ensures var first := AppliedAll(marshal, objects, os, newLabels, faults);
            var second := AppliedAll(marshal, first.objects, os, newLabels, NoFaults(|os|));
            && second.error == None && !second.changed
            && second.objects.Keys == first.objects.Keys
            && forall k :: k in first.objects ==> second.objects[k].generation == first.objects[k].generation
  {
    var first := AppliedAll(marshal, objects, os, newLabels, faults);
    forall i | 0 <= i < |os| ensures Quiet(marshal, first.objects, os, newLabels, i) {
      EachKeyOnItsOwn(marshal, objects, os, newLabels, faults, i);
      var o := Labelled(os[i], newLabels);
      ApplyingTwice(marshal, OnServer(objects, o.key), o, FORCED, faults[i]);
    }
    SecondPass(marshal, first.objects, os, newLabels);
  }

  /** Applying object i to these objects succeeds and changes nothing. */
  ghost predicate Quiet(marshal: Marshal, objects: Objects, os: seq<Object>, newLabels: map<string, string>, i: nat)
    requires i < |os|
  {
    var o := Labelled(os[i], newLabels);
    var outcome := Applied(marshal, OnServer(objects, o.key), o, FORCED, NO_FAULTS);
    && o.key in objects && outcome.error == None && !outcome.changed && outcome.stored.Some?
    && outcome.stored.value.generation == objects[o.key].generation
  }

  lemma {:induction false} SecondPass(marshal: Marshal, objects: Objects, os: seq<Object>, newLabels: map<string, string>)
    requires DistinctKeys(os) && forall i :: 0 <= i < |os| ==> Quiet(marshal, objects, os, newLabels, i)
    ensures var second := AppliedAll(marshal, objects, os, newLabels, NoFaults(|os|));
            && second.error == None && !second.changed && second.objects.Keys == objects.Keys
            && forall k :: k in objects ==> second.objects[k].generation == objects[k].generation
  {
    if os != [] {
      var n := |os| - 1;
      forall i | 0 <= i < n ensures Quiet(marshal, objects, os[..n], newLabels, i) {
        assert Quiet(marshal, objects, os, newLabels, i);
      }
      SecondPass(marshal, objects, os[..n], newLabels);
      assert NoFaults(|os|)[..n] == NoFaults(n);
      OtherKeysStay(marshal, objects, os[..n], newLabels, NoFaults(n), os[n].key);
      assert Quiet(marshal, objects, os, newLabels, n);
    }
  }

  lemma TypedUpdate(marshal: Marshal, existing: Object, o: Object)
    requires o.form.TypedOther? && !IsServiceAccount(o)
    ensures var outcome := Applied(marshal, Some(existing), o, FORCED, NO_FAULTS);
            && outcome.error == None && outcome.stored.Some?
            && outcome.stored.value.content == o.content && outcome.stored.value.spec == o.spec
            && (outcome.changed <==> ContentChanges(existing, o))
  {
  }

  lemma TwoInARow(marshal: Marshal, objects: Objects, a: Object, b: Object)
    ensures var one := AppliedAll(marshal, objects, [a], map[], NoFaults(1));
            var x := Applied(marshal, OnServer(objects, a.key), Labelled(a, map[]), FORCED, NO_FAULTS);
            one == Batch(With(objects, a.key, x.stored), x.error.None? && x.changed, x.error)
    ensures var one := AppliedAll(marshal, objects, [a], map[], NoFaults(1));
            var y := Applied(marshal, OnServer(one.objects, b.key), Labelled(b, map[]), FORCED, NO_FAULTS);
            var two := AppliedAll(marshal, objects, [a, b], map[], NoFaults(2));
            one.error == None ==>
              two == Batch(With(one.objects, b.key, y.stored), y.error.None? && (one.changed || y.changed), y.error)
  {
  }

  /** Distinct keys matter: two objects with one key and different content take turns on every call, and
      leave the server ready to do so again. */
  lemma OneKeyTwiceNeverSettles(marshal: Marshal, objects: Objects, a: Object, b: Object)
    requires a.form == b.form == TypedOther && !IsServiceAccount(a) && !IsServiceAccount(b)
    requires a.key == b.key && a.key in objects
    requires objects[a.key].content == b.content && objects[a.key].spec == b.spec && ContentChanges(b, a)
    ensures var batch := AppliedAll(marshal, objects, [a, b], map[], NoFaults(2));
            && batch.error == None && batch.changed
            && a.key in batch.objects && batch.objects[a.key].content == b.content && batch.objects[a.key].spec == b.spec
  {
    TwoInARow(marshal, objects, a, b);
    TypedUpdate(marshal, objects[a.key], Labelled(a, map[]));
    var one := AppliedAll(marshal, objects, [a], map[], NoFaults(1));
    TypedUpdate(marshal, one.objects[a.key], Labelled(b, map[]));
  }
}
