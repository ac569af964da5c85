/** Creating, skipping and updating objects (pkg/client/client.go) against a server that numbers
    generations (pkg/test/client.go). */
module Apply {
  import opened Wrappers

  const LAST_APPLIED := "toolchain.dev.openshift.com/last-applied-configuration"

  // ----- objects -----

  /** How a caller holds an object: as a Go Service, as some other Go type, or as unstructured content. */
  datatype Form = TypedService | TypedOther | Unstructured

  /** `spec.clusterIP`: not there, a string, or something else. */
  datatype ClusterIP = NotSet | Text(ip: string) | NotText

  /** `spec`: not there, a map, or something else. */
  datatype Spec = NoSpec | Fields(clusterIP: ClusterIP, rest: map<string, string>) | NoMap(value: string)

  datatype Key = Key(resource: string, namespace: string, name: string)

  /** `kind` is the kind the object itself states; `content` holds the remaining top-level fields, null
      values included. */
  datatype Object = Object(
    form: Form, kind: string, key: Key,
    labels: map<string, string>, annotations: map<string, string>, controller: Option<string>,
    generation: nat, resourceVersion: Option<nat>,
    spec: Spec, content: map<string, Option<string>>)

  /** A Go Service has a spec, and an empty cluster IP is not written out. */
  predicate FitsForm(form: Form, spec: Spec) {
    form.TypedService? ==> spec.Fields? && spec.clusterIP != NotText && spec.clusterIP != Text("")
  }

  // ----- the server's generation rule -----

  function SpecOrEmpty(spec: Spec): Spec {
    if spec.NoSpec? then Fields(NotSet, map[]) else spec
  }

  /** The content of the update with the null fields of the current object that it lacks. */
  function Padded(updated: map<string, Option<string>>, current: map<string, Option<string>>): map<string, Option<string>> {
    updated + map key | key in current && key !in updated && current[key] == None :: None
  }

  predicate ContentChanges(current: Object, updated: Object) {
    SpecOrEmpty(updated.spec) != SpecOrEmpty(current.spec) || Padded(updated.content, current.content) != current.content
  }

  /** The loop over the fields of the current object, in any order. */
  method PadNulls(content: map<string, Option<string>>, current: map<string, Option<string>>)
    returns (updatingMap: map<string, Option<string>>)
    ensures updatingMap == Padded(content, current)
  {
    updatingMap := content;
    var left := current.Keys;
    while left != {}
      invariant left <= current.Keys
      invariant updatingMap == Padded(content, current - left)
      decreases left
    {
      var key :| key in left;
      OneMorePadded(content, current, left, key);
      if key !in updatingMap && current[key] == None {
        updatingMap := updatingMap[key := None];
      }
      left := left - {key};
    }
    assert current - left == current;
  }

  lemma OneMorePadded(content: map<string, Option<string>>, current: map<string, Option<string>>, left: set<string>, key: string)
    requires key in left && left <= current.Keys
    ensures var before := Padded(content, current - left);
            Padded(content, current - (left - {key})) ==
            if key !in before && current[key] == None then before[key := None] else before
  {
  }

  method IsGenerationChangeNeeded(current: Object, updated: Object) returns (needed: bool)
    ensures needed == ContentChanges(current, updated)
  {
    var updatingMap := PadNulls(updated.content, current.content);
    needed := SpecOrEmpty(updated.spec) != SpecOrEmpty(current.spec) || updatingMap != current.content;
  }

  /** The rule by field: nothing changes exactly when the specs agree up to an absent one, the update has no
      field of its own, and it lacks none but null fields. */
  lemma ContentChangesByField(current: Object, updated: Object)
    ensures !ContentChanges(current, updated) <==>
            && (|| updated.spec == current.spec
                || (updated.spec == NoSpec && current.spec == Fields(NotSet, map[]))
                || (updated.spec == Fields(NotSet, map[]) && current.spec == NoSpec))
            && (forall k :: k in updated.content ==> k in current.content && current.content[k] == updated.content[k])
            && (forall k :: k in current.content && current.content[k] != None ==> k in updated.content)
  {
  }

  // ----- the cluster IP -----

  /** clusterIP: what is found in an existing object of a form, or an error. */
  function FoundIP(form: Form, spec: Spec): Result<Option<string>, ()> {
    match form
    case TypedOther => Success(None)
    case TypedService => Success(if spec.Fields? && spec.clusterIP.Text? then Some(spec.clusterIP.ip) else None)
    case Unstructured =>
      match spec
      case NoSpec => Success(None)
      case NoMap(_) => Failure(())
      case Fields(NotSet, _) => Success(None)
      case Fields(Text(ip), _) => Success(Some(ip))
      case Fields(NotText, _) => Failure(())
  }

  /** RetainClusterIP: the new spec with the existing cluster IP in it, or an error. */
  function WithIPOf(form: Form, spec: Spec, existing: Spec): Result<Spec, ()> {
    match FoundIP(form, existing)
    case Failure(_) => Failure(())
    case Success(None) => Success(spec)
    case Success(Some(ip)) =>
      match spec
      case Fields(_, _) => Success(spec.(clusterIP := Text(ip)))
      case NoSpec => Success(Fields(Text(ip), map[]))
      case NoMap(_) => Failure(())
  }

  // ----- service accounts -----

  /** Simple case folding, as far as it can reach an ASCII letter. */
  function Folded(c: char): char {
    if 'A' <= c <= 'Z' then c + 32 as char
    else if c == '\U{17F}' then 's'
    else if c == '\U{212A}' then 'k'
    else c
  }

  predicate EqualFold(a: string, b: string) {
    |a| == |b| && forall i :: 0 <= i < |a| ==> Folded(a[i]) == Folded(b[i])
  }

  predicate IsServiceAccount(o: Object) {
    EqualFold(o.kind, "ServiceAccount")
  }

  // ----- one application -----

  datatype Options = Options(owner: Option<string>, forceUpdate: bool, saveConfiguration: bool)

  /** Failures of the API that have nothing to do with the objects. */
  datatype Faults = Faults(get: bool, setOwner: bool, write: bool)

  const NO_FAULTS := Faults(false, false, false)

  datatype ApplyError = GetFailed | OwnerNotSet | CreateFailed | ClusterIPNotRetained | UpdateFailed

  /** The JSON text of an object; never empty. */
  type Marshal = Object -> string

  ghost predicate Lawful(marshal: Marshal) {
    forall o :: marshal(o) != ""
  }

  /** The object without the annotation that holds its previous configuration. Removing it from unstructured
      content acts on a copy of the annotations, so there it stays. */
  function NewConfiguration(marshal: Marshal, o: Object): string {
    marshal(if o.form.Unstructured? then o else o.(annotations := o.annotations - {LAST_APPLIED}))
  }

  function Annotated(marshal: Marshal, o: Object, opts: Options): Object {
    if opts.saveConfiguration then o.(annotations := o.annotations[LAST_APPLIED := NewConfiguration(marshal, o)]) else o
  }

  /** The configuration last applied to the existing object is the one to apply now. */
  predicate Skips(marshal: Marshal, existing: Object, o: Object, opts: Options) {
    && !opts.forceUpdate && opts.saveConfiguration
    && LAST_APPLIED in existing.annotations && existing.annotations[LAST_APPLIED] == NewConfiguration(marshal, o)
  }

  /** What an application leaves: the object on the server, whether it was written, the flag and the error. */
  datatype Outcome = Outcome(stored: Option<Object>, wrote: bool, changed: bool, error: Option<ApplyError>)

  function Created(annotated: Object, opts: Options, faults: Faults): Outcome {
    if opts.owner.Some? && (faults.setOwner || (annotated.controller.Some? && annotated.controller != opts.owner))
    then Outcome(None, false, true, Some(OwnerNotSet))
    else if faults.write then Outcome(None, false, true, Some(CreateFailed))
    else
      var owned := if opts.owner.Some? then annotated.(controller := opts.owner) else annotated;
      Outcome(Some(owned.(generation := 1, resourceVersion := Some(1))), true, true, None)
  }

  /** The object sent to update an existing one: for a service account the existing one with the new labels
      and annotations merged in. */
  function ToSend(existing: Object, annotated: Object): Object {
    if IsServiceAccount(annotated) then
      existing.(annotations := existing.annotations + annotated.annotations, labels := existing.labels + annotated.labels)
    else annotated.(resourceVersion := existing.resourceVersion)
  }

  function NextVersion(version: Option<nat>): Option<nat> {
    Some(if version.Some? then version.value + 1 else 1)
  }

  function Updated(existing: Object, sent: Object): Object {
    sent.(
      generation := existing.generation + if ContentChanges(existing, sent) then 1 else 0,
      resourceVersion := NextVersion(existing.resourceVersion))
  }

  /** What a Get into a copy of an object yields. */
  function ReadAs(onServer: Object, o: Object): Object {
    onServer.(form := o.form, kind := o.kind, key := o.key)
  }

  /** The end of applyObject: an existing object is updated unless its cluster IP cannot be retained. */
  function Replaced(existing: Object, annotated: Object, faults: Faults): Outcome {
    AfterSending(existing, ToSend(existing, annotated), faults)
  }

  function AfterSending(existing: Object, sent: Object, faults: Faults): Outcome {
    match WithIPOf(sent.form, sent.spec, existing.spec)
    case Failure(_) => Outcome(Some(existing), false, false, Some(ClusterIPNotRetained))
    case Success(spec) =>
      if faults.write then Outcome(Some(existing), false, false, Some(UpdateFailed))
      else
        var stored := Updated(existing, sent.(spec := spec));
        Outcome(Some(stored), true, stored.generation != existing.generation, None)
  }

  /** applyObject on the object the server has under the key, if any, for an object of that key. */
  function Applied(marshal: Marshal, onServer: Option<Object>, o: Object, opts: Options, faults: Faults): Outcome {
    var annotated := Annotated(marshal, o, opts);
    if faults.get || (onServer.Some? && !FitsForm(o.form, onServer.value.spec)) then
      Outcome(onServer, false, false, Some(GetFailed))
    else if onServer.None? then Created(annotated, opts, faults)
    else
      var existing := ReadAs(onServer.value, o);
      if Skips(marshal, existing, o, opts) then Outcome(onServer, false, false, None)
      else
        var outcome := Replaced(existing, annotated, faults);
        if outcome.wrote then outcome else outcome.(stored := onServer)
  }

  // ----- the same, step by step -----

  /** An object in the caller's hands. */
  class Resource {
    var o: Object

    constructor (o: Object)
      ensures this.o == o
    {
      this.o := o;
    }
  }

  type Objects = map<Key, Object>

  function OnServer(objects: Objects, key: Key): Option<Object> {
    if key in objects then Some(objects[key]) else None
  }

  /** The map after an application to one key. */
  function With(objects: Objects, key: Key, stored: Option<Object>): Objects {
    if stored.Some? then objects[key := stored.value] else objects
  }

  class Server {
    var objects: Objects
    var writes: nat

    constructor ()
      ensures objects == map[] && writes == 0
    {
      objects, writes := map[], 0;
    }

    method Create(obj: Resource, fault: bool) returns (ok: bool)
      modifies this, obj
      ensures ok <==> !fault && old(obj.o.resourceVersion) == None && obj.o.key !in old(objects)
      ensures ok ==> obj.o == old(obj.o).(generation := 1, resourceVersion := Some(1))
      ensures ok ==> objects == old(objects)[obj.o.key := obj.o] && writes == old(writes) + 1
      ensures !ok ==> obj.o == old(obj.o).(generation := 1) && objects == old(objects) && writes == old(writes)
    {
      obj.o := obj.o.(generation := 1);
      if fault || obj.o.resourceVersion != None || obj.o.key in objects {
        return false;
      }
      obj.o := obj.o.(resourceVersion := Some(1));
      objects := objects[obj.o.key := obj.o];
      writes := writes + 1;
      return true;
    }

    method Update(obj: Resource, fault: bool) returns (ok: bool)
      modifies this, obj
      ensures ok <==> && !fault && obj.o.key in old(objects)
                      && old(obj.o).resourceVersion == old(objects)[obj.o.key].resourceVersion
      ensures ok ==> obj.o == Updated(old(objects)[obj.o.key], old(obj.o))
      ensures ok ==> objects == old(objects)[obj.o.key := obj.o] && writes == old(writes) + 1
      ensures !ok ==> objects == old(objects) && writes == old(writes)
      ensures obj.o.key == old(obj.o.key)
    {
      if obj.o.key !in objects {
        return false;
      }
      var current := objects[obj.o.key];
      var generationShouldChange := IsGenerationChangeNeeded(current, obj.o);
      if generationShouldChange {
        obj.o := obj.o.(generation := current.generation + 1);
      } else {
        obj.o := obj.o.(generation := current.generation);
      }
      if fault || obj.o.resourceVersion != current.resourceVersion {
        return false;
      }
      obj.o := obj.o.(resourceVersion := NextVersion(current.resourceVersion));
      objects := objects[obj.o.key := obj.o];
      writes := writes + 1;
      return true;
    }
  }

  /** Copies every pair of the second map over the first, pair by pair. */
  method Merged(into: map<string, string>, from: map<string, string>) returns (merged: map<string, string>)
    ensures merged == into + from
  {
    merged := into;
    var left := from.Keys;
    while left != {}
      invariant left <= from.Keys
      invariant merged == into + map k | k in from && k !in left :: from[k]
      decreases left
    {
      var key :| key in left;
      merged := merged[key := from[key]];
      left := left - {key};
    }
    assert (map k | k in from && k !in left :: from[k]) == from;
  }

  class ApplyClient {
    const server: Server
    const marshal: Marshal

    constructor (server: Server, marshal: Marshal)
      ensures this.server == server && this.marshal == marshal
    {
      this.server, this.marshal := server, marshal;
    }

    method CreateObj(obj: Resource, opts: Options, faults: Faults) returns (error: Option<ApplyError>)
      requires obj.o.key !in server.objects
      modifies server, obj
      ensures var key, outcome := old(obj.o.key), Created(old(obj.o), opts, faults);
              && obj.o.key == key && error == outcome.error
              && server.objects == With(old(server.objects), key, outcome.stored)
              && server.writes == old(server.writes) + (if outcome.wrote then 1 else 0)
    {
      obj.o := obj.o.(resourceVersion := None);
      if opts.owner.Some? {
        if faults.setOwner || (obj.o.controller.Some? && obj.o.controller != opts.owner) {
          return Some(OwnerNotSet);
        }
        obj.o := obj.o.(controller := opts.owner);
      }
      var ok := server.Create(obj, faults.write);
      return if ok then None else Some(CreateFailed);
    }

    /** The object to send: the caller's with the existing resource version, or for a service account the
        existing one with labels and annotations merged in. */
    method ChooseSent(obj: Resource, existing: Resource) returns (sent: Resource)
      requires obj != existing && obj.o.key == existing.o.key
      modifies obj, existing
      ensures (sent == obj || sent == existing) && sent.o == ToSend(old(existing.o), old(obj.o))
      ensures obj.o.key == old(obj.o.key) && existing.o.spec == old(existing.o.spec)
    {
      obj.o := obj.o.(resourceVersion := existing.o.resourceVersion);
      sent := obj;
      if IsServiceAccount(obj.o) {
        var annotations := Merged(existing.o.annotations, obj.o.annotations);
        var labels := Merged(existing.o.labels, obj.o.labels);
        existing.o := existing.o.(annotations := annotations, labels := labels);
        sent := existing;
      }
    }

    /** The update of an existing object: for a service account the object sent is the existing one, and the
        caller's object only takes over its resource version. */
    method ReplaceExisting(obj: Resource, existing: Resource, faults: Faults) returns (changed: bool, error: Option<ApplyError>)
      requires obj != existing && obj.o.key in server.objects
      requires existing.o == ReadAs(server.objects[obj.o.key], obj.o)
      modifies server, obj, existing
      ensures var key, outcome := old(obj.o.key), Replaced(old(existing.o), old(obj.o), faults);
              && obj.o.key == key && changed == outcome.changed && error == outcome.error
              && server.objects == (if outcome.wrote then old(server.objects)[key := outcome.stored.value] else old(server.objects))
              && server.writes == old(server.writes) + (if outcome.wrote then 1 else 0)
    {
      ghost var was := existing.o;
      var originalGeneration := existing.o.generation;
      var sent := ChooseSent(obj, existing);
      changed, error := SendUpdate(sent, originalGeneration, existing.o.spec, faults, was);
    }

    /** RetainClusterIP and the update itself. */
    method SendUpdate(sent: Resource, originalGeneration: nat, existingSpec: Spec, faults: Faults, ghost existing: Object)
      returns (changed: bool, error: Option<ApplyError>)
      requires sent.o.key in server.objects && existingSpec == existing.spec && originalGeneration == existing.generation
      requires var current := server.objects[sent.o.key]; existing == ReadAs(current, existing)
      requires sent.o.resourceVersion == existing.resourceVersion
      modifies server, sent
      ensures var outcome := AfterSending(existing, old(sent.o), faults);
              && sent.o.key == old(sent.o.key) && changed == outcome.changed && error == outcome.error
              && server.objects == (if outcome.wrote then old(server.objects)[sent.o.key := outcome.stored.value] else old(server.objects))
              && server.writes == old(server.writes) + (if outcome.wrote then 1 else 0)
    {
      var spec := WithIPOf(sent.o.form, sent.o.spec, existingSpec);
      if spec.Failure? {
        return false, Some(ClusterIPNotRetained);
      }
      sent.o := sent.o.(spec := spec.value);
      ghost var update := sent.o;
      var ok := server.Update(sent, faults.write);
      if !ok {
        return false, Some(UpdateFailed);
      }
      ContentIgnoresForm(old(server.objects)[sent.o.key], existing, update);
      return originalGeneration != sent.o.generation, None;
    }

    /** applyObject: the server, the flag and the error are as specified; nothing under another key changes. */
    method ApplyObject(obj: Resource, opts: Options, faults: Faults) returns (createdOrUpdated: bool, error: Option<ApplyError>)
      requires Lawful(marshal)
      modifies server, obj
      ensures var key := old(obj.o.key);
              var outcome := Applied(marshal, OnServer(old(server.objects), key), old(obj.o), opts, faults);
              && obj.o.key == key && createdOrUpdated == outcome.changed && error == outcome.error
              && server.objects == With(old(server.objects), key, outcome.stored)
              && server.writes == old(server.writes) + (if outcome.wrote then 1 else 0)
    {
      ghost var given := obj.o;
      var newConfiguration := "";
      if opts.saveConfiguration {
        newConfiguration := NewConfiguration(marshal, obj.o);
        obj.o := obj.o.(annotations := obj.o.annotations[LAST_APPLIED := newConfiguration]);
      }
      assert obj.o == Annotated(marshal, given, opts);
      if faults.get || (obj.o.key in server.objects && !FitsForm(obj.o.form, server.objects[obj.o.key].spec)) {
        return false, Some(GetFailed);
      }
      if obj.o.key !in server.objects {
        error := CreateObj(obj, opts, faults);
        return true, error;
      }
      var existing := new Resource(ReadAs(server.objects[obj.o.key], obj.o));
      if !opts.forceUpdate {
        if LAST_APPLIED in existing.o.annotations && newConfiguration != ""
           && newConfiguration == existing.o.annotations[LAST_APPLIED] {
          return false, None;
        }
      }
      createdOrUpdated, error := ReplaceExisting(obj, existing, faults);
    }
  }

  lemma ContentIgnoresForm(current: Object, read: Object, update: Object)
    requires read.spec == current.spec && read.content == current.content
    ensures ContentChanges(current, update) == ContentChanges(read, update)
  {
  }
}
