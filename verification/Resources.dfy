/** The lazily filled cache of API resources (pkg/client/resource_cache.go). */
module Resources {
  import opened Strings
  import opened Wrappers

  datatype GroupVersion = GroupVersion(group: string, version: string)
  datatype GroupVersionResource = GroupVersionResource(group: string, version: string, resource: string)
  datatype GroupVersionKind = GroupVersionKind(group: string, version: string, kind: string)
  datatype APIResource = APIResource(name: string, kind: string, namespaced: bool)
  datatype APIResourceList = APIResourceList(groupVersion: string, resources: seq<APIResource>)

  datatype LookupError = DiscoveryFailed(cause: string) | BadGroupVersion(text: string)

  /** Discovery answers with an error, or with lists that may be absent (a nil slice). */
  type Discovery = Result<Option<seq<APIResourceList>>, string>

  datatype Found = Found(gvr: GroupVersionResource, namespaced: bool)

  /** "version" or "group/version"; the empty string and "/" stand for the empty group version. */
  function ParseGroupVersion(s: string): Option<GroupVersion> {
    if s == "" || s == "/" then Some(GroupVersion("", ""))
    else
      var i := IndexOfSlash(s);
      if i == |s| then Some(GroupVersion("", s))
      else if '/' in s[i + 1..] then None
      else Some(GroupVersion(s[..i], s[i + 1..]))
  }

  /** One group and one version, a version alone, and what cannot be parsed. */
  lemma ParsedExactly(s: string, group: string, version: string)
    requires '/' !in group && '/' !in version
    ensures ParseGroupVersion(s) == None <==> exists i, j :: 0 <= i < j < |s| && s[i] == '/' && s[j] == '/'
    ensures s == version || s == group + "/" + version ==>
              ParseGroupVersion(s) == Some(GroupVersion(if s == version then "" else group, version))
  {
    var i := IndexOfSlash(s);
    assert forall j :: i < j < |s| ==> s[j] == s[i + 1..][j - i - 1];
    if s == group + "/" + version {
      SlashBehind(group, version, i);
    }
    assert forall j :: 0 <= j < |version| ==> version[j] in version;
  }

  lemma SlashBehind(group: string, version: string, i: nat)
    requires '/' !in group && '/' !in version
    requires i == IndexOfSlash(group + "/" + version)
    ensures i == |group| && (group + "/" + version)[..i] == group && (group + "/" + version)[i + 1..] == version
  {
    var s := group + "/" + version;
    assert s[|group|] == '/';
    assert forall j :: 0 <= j < |group| ==> s[j] == group[j] && group[j] in group;
  }

  /** Position (i, j) is the first, in reading order, whose resource satisfies the test. */
  ghost predicate FirstAt(lists: seq<APIResourceList>, test: (APIResourceList, APIResource) -> bool, i: nat, j: nat) {
    && i < |lists| && j < |lists[i].resources| && test(lists[i], lists[i].resources[j])
    && (forall l :: 0 <= l < j ==> !test(lists[i], lists[i].resources[l]))
    && NoneBefore(lists, test, i)
  }

  ghost predicate NoneBefore(lists: seq<APIResourceList>, test: (APIResourceList, APIResource) -> bool, i: nat)
    requires i <= |lists|
  {
    forall k, l :: 0 <= k < i && 0 <= l < |lists[k].resources| ==> !test(lists[k], lists[k].resources[l])
  }

  function OfKind(kind: string, apiVersion: string): (APIResourceList, APIResource) -> bool {
    (l: APIResourceList, r: APIResource) => l.groupVersion == apiVersion && r.kind == kind
  }

  /** The look-up a loaded cache answers: the first resource of the kind in a list of that version. */
  ghost predicate IsLookup(
    lists: seq<APIResourceList>, kind: string, apiVersion: string, answer: Result<Option<Found>, LookupError>)
  {
    match ParseGroupVersion(apiVersion)
    case None => answer == Failure(BadGroupVersion(apiVersion))
    case Some(gv) =>
      match answer
      case Failure(_) => false
      case Success(None) => NoneBefore(lists, OfKind(kind, apiVersion), |lists|)
      case Success(Some(found)) =>
        exists i: nat, j: nat :: FirstAt(lists, OfKind(kind, apiVersion), i, j) && Names(lists, i, j, apiVersion, found)
  }

  ghost predicate Names(lists: seq<APIResourceList>, i: nat, j: nat, apiVersion: string, found: Found) {
    && i < |lists| && j < |lists[i].resources| && ParseGroupVersion(apiVersion).Some?
    && var gv, r := ParseGroupVersion(apiVersion).value, lists[i].resources[j];
       found == Found(GroupVersionResource(gv.group, gv.version, r.name), r.namespaced)
  }

  /** The answer is determined by the lists and the arguments. */
  lemma LookupIsUnique(
    lists: seq<APIResourceList>, kind: string, apiVersion: string,
    a: Result<Option<Found>, LookupError>, b: Result<Option<Found>, LookupError>)
    requires IsLookup(lists, kind, apiVersion, a) && IsLookup(lists, kind, apiVersion, b)
    ensures a == b
  {
  }

  /** Nothing before position (i, j), in reading order, is of the version and kind. */
  ghost predicate NoneOfKindBefore(lists: seq<APIResourceList>, kind: string, apiVersion: string, i: nat, j: nat) {
    forall k, l :: 0 <= k < |lists| && 0 <= l < |lists[k].resources| && (k < i || (k == i && l < j)) ==>
      !(lists[k].groupVersion == apiVersion && lists[k].resources[l].kind == kind)
  }

  /** What is found is the first resource of the kind, reading the lists of just that version in order. */
  lemma FoundExactly(lists: seq<APIResourceList>, kind: string, apiVersion: string, found: Found) returns (i: nat, j: nat)
    requires IsLookup(lists, kind, apiVersion, Success(Some(found)))
    ensures i < |lists| && lists[i].groupVersion == apiVersion
    ensures j < |lists[i].resources| && lists[i].resources[j].kind == kind
    ensures NoneOfKindBefore(lists, kind, apiVersion, i, j)
    ensures found.gvr.resource == lists[i].resources[j].name && found.namespaced == lists[i].resources[j].namespaced
    ensures ParseGroupVersion(apiVersion) == Some(GroupVersion(found.gvr.group, found.gvr.version))
  {
    var test := OfKind(kind, apiVersion);
    i, j :| FirstAt(lists, test, i, j) && Names(lists, i, j, apiVersion, found);
    forall k, l | 0 <= k < |lists| && 0 <= l < |lists[k].resources| && (k < i || (k == i && l < j))
      ensures !(lists[k].groupVersion == apiVersion && lists[k].resources[l].kind == kind)
    {
      assert !test(lists[k], lists[k].resources[l]);
    }
  }

  /** Nothing is found exactly if the version can be parsed and there is no such resource; the look-up fails exactly
      if the version cannot be parsed. */
  lemma NotFoundExactly(lists: seq<APIResourceList>, kind: string, apiVersion: string, answer: Result<Option<Found>, LookupError>)
    requires IsLookup(lists, kind, apiVersion, answer)
    ensures answer == Success(None) <==>
            && ParseGroupVersion(apiVersion).Some?
            && forall k :: 0 <= k < |lists| && lists[k].groupVersion == apiVersion ==>
                 forall l :: 0 <= l < |lists[k].resources| ==> lists[k].resources[l].kind != kind
    ensures answer.Failure? <==> ParseGroupVersion(apiVersion) == None
    ensures answer.Failure? ==> answer.error == BadGroupVersion(apiVersion)
  {
    var test := OfKind(kind, apiVersion);
    if answer == Success(None) {
      forall k, l | 0 <= k < |lists| && lists[k].groupVersion == apiVersion && 0 <= l < |lists[k].resources|
        ensures lists[k].resources[l].kind != kind
      {
        assert !test(lists[k], lists[k].resources[l]);
      }
    } else if answer.Success? {
      var i, j := FoundExactly(lists, kind, apiVersion, answer.value.value);
    }
  }

  class ResourceCache {
    var resourceLists: Option<seq<APIResourceList>>

    constructor ()
      ensures resourceLists == None
    {
      resourceLists := None;
    }

    /** Asks for the lists once; after a failure, or an absent answer, the next call asks again. */
    method EnsureResourceList(discovery: Discovery) returns (error: Option<LookupError>)
      modifies this
      ensures old(resourceLists).Some? ==> error == None && resourceLists == old(resourceLists)
      ensures old(resourceLists).None? && discovery.Success? ==> error == None && resourceLists == discovery.value
      ensures old(resourceLists).None? && discovery.Failure? ==>
                error == Some(DiscoveryFailed(discovery.error)) && resourceLists == None
    {
      if resourceLists == None {
        if discovery.Failure? {
          return Some(DiscoveryFailed(discovery.error));
        }
        resourceLists := discovery.value;
      }
      error := None;
    }

    method GVRForKind(discovery: Discovery, kind: string, apiVersion: string)
      returns (answer: Result<Option<Found>, LookupError>)
      modifies this
      ensures resourceLists == LoadedWith(old(resourceLists), discovery)
      ensures IsAnswer(Effective(old(resourceLists), discovery), kind, apiVersion, answer)
      ensures old(resourceLists).None? && discovery.Failure? ==> answer == Failure(DiscoveryFailed(discovery.error))
      ensures old(resourceLists).Some? || discovery.Success? ==>
                IsLookup(if resourceLists.Some? then resourceLists.value else [], kind, apiVersion, answer)
    {
      var error := EnsureResourceList(discovery);
      if error.Some? {
        return Failure(error.value);
      }
      var gv := ParseGroupVersion(apiVersion);
      if gv.None? {
        return Failure(BadGroupVersion(apiVersion));
      }
      var lists := if resourceLists.Some? then resourceLists.value else [];
      ghost var test := OfKind(kind, apiVersion);
      for i := 0 to |lists|
        invariant NoneBefore(lists, test, i)
      {
        if lists[i].groupVersion == apiVersion {
          var resources := lists[i].resources;
          for j := 0 to |resources|
            invariant forall l :: 0 <= l < j ==> !test(lists[i], resources[l])
          {
            if resources[j].kind == kind {
              assert FirstAt(lists, test, i, j);
              var found := Found(
                GroupVersionResource(gv.value.group, gv.value.version, resources[j].name), resources[j].namespaced);
              assert Names(lists, i, j, apiVersion, found);
              return Success(Some(found));
            }
          }
        }
      }
      return Success(None);
    }

    /** The first resource of the group and name, reading the lists in order; the first list whose version
        cannot be parsed ends the search with an error. */
    method GVKForGR(discovery: Discovery, group: string, resource: string)
      returns (answer: Result<Option<GroupVersionKind>, LookupError>)
      modifies this
      ensures resourceLists == LoadedWith(old(resourceLists), discovery)
      ensures old(resourceLists).None? && discovery.Failure? ==> answer == Failure(DiscoveryFailed(discovery.error))
      ensures old(resourceLists).Some? || discovery.Success? ==>
                IsReverseLookup(Lists(LoadedWith(old(resourceLists), discovery)), group, resource, answer)
    {
      var error := EnsureResourceList(discovery);
      if error.Some? {
        return Failure(error.value);
      }
      var lists := if resourceLists.Some? then resourceLists.value else [];
      answer := SearchByName(lists, group, resource);
    }
  }

  /** The loops of GVKForGR over the loaded lists. */
  method SearchByName(lists: seq<APIResourceList>, group: string, resource: string)
    returns (answer: Result<Option<GroupVersionKind>, LookupError>)
    ensures IsReverseLookup(lists, group, resource, answer)
  {
    ghost var test := OfResource(group, resource);
    for i := 0 to |lists|
      invariant NoneBefore(lists, test, i)
      invariant forall k :: 0 <= k < i ==> ParseGroupVersion(lists[k].groupVersion).Some?
    {
      var gv := ParseGroupVersion(lists[i].groupVersion);
      if gv.None? {
        assert FirstUnparsed(lists, i);
        return Failure(BadGroupVersion(lists[i].groupVersion));
      }
      if gv.value.group == group {
        var resources := lists[i].resources;
        var j := FirstNamed(resources, resource);
        if j < |resources| {
          assert FirstAt(lists, test, i, j);
          return Success(Some(GroupVersionKind(gv.value.group, gv.value.version, resources[j].kind)));
        }
      }
    }
    return Success(None);
  }

  method FirstNamed(resources: seq<APIResource>, name: string) returns (j: nat)
    ensures j <= |resources| && (j < |resources| ==> resources[j].name == name)
    ensures forall l :: 0 <= l < j ==> resources[l].name != name
  {
    j := 0;
    while j < |resources| && resources[j].name != name
      invariant j <= |resources| && forall l :: 0 <= l < j ==> resources[l].name != name
    {
      j := j + 1;
    }
  }

  function LoadedWith(lists: Option<seq<APIResourceList>>, discovery: Discovery): Option<seq<APIResourceList>> {
    if lists.Some? then lists else if discovery.Success? then discovery.value else None
  }

  function Lists(lists: Option<seq<APIResourceList>>): seq<APIResourceList> {
    if lists.Some? then lists.value else []
  }

  /** The lists every look-up works on, loaded or about to be, or the cause of the failed discovery. */
  function Effective(lists: Option<seq<APIResourceList>>, discovery: Discovery): Result<seq<APIResourceList>, string> {
    if lists.None? && discovery.Failure? then Failure(discovery.error) else Success(Lists(LoadedWith(lists, discovery)))
  }

  ghost predicate IsAnswer(
    lists: Result<seq<APIResourceList>, string>, kind: string, apiVersion: string, answer: Result<Option<Found>, LookupError>)
  {
    match lists
    case Failure(cause) => answer == Failure(DiscoveryFailed(cause))
    case Success(loaded) => IsLookup(loaded, kind, apiVersion, answer)
  }

  function OfResource(group: string, resource: string): (APIResourceList, APIResource) -> bool {
    (l: APIResourceList, r: APIResource) =>
      var gv := ParseGroupVersion(l.groupVersion);
      gv.Some? && gv.value.group == group && r.name == resource
  }

  ghost predicate FirstUnparsed(lists: seq<APIResourceList>, i: nat) {
    && i < |lists| && ParseGroupVersion(lists[i].groupVersion).None?
    && forall k :: 0 <= k < i ==> ParseGroupVersion(lists[k].groupVersion).Some?
  }

  ghost predicate IsReverseLookup(
    lists: seq<APIResourceList>, group: string, resource: string, answer: Result<Option<GroupVersionKind>, LookupError>)
  {
    var test := OfResource(group, resource);
    match answer
    case Failure(e) =>
      exists i: nat :: FirstUnparsed(lists, i) && e == BadGroupVersion(lists[i].groupVersion) && NoneBefore(lists, test, i)
    case Success(None) =>
      NoneBefore(lists, test, |lists|) && forall k :: 0 <= k < |lists| ==> ParseGroupVersion(lists[k].groupVersion).Some?
    case Success(Some(gvk)) =>
      exists i: nat, j: nat :: FirstAt(lists, test, i, j)
        && (forall k :: 0 <= k <= i ==> ParseGroupVersion(lists[k].groupVersion).Some?)
        && var gv := ParseGroupVersion(lists[i].groupVersion).value;
           gvk == GroupVersionKind(gv.group, gv.version, lists[i].resources[j].kind)
  }

  predicate IsOfGroup(l: APIResourceList, group: string) {
    ParseGroupVersion(l.groupVersion).Some? && ParseGroupVersion(l.groupVersion).value.group == group
  }

  /** Nothing before position (i, j), in reading order, is of the group and name. */
  ghost predicate NoneOfNameBefore(lists: seq<APIResourceList>, group: string, resource: string, i: nat, j: nat) {
    forall k, l :: 0 <= k < |lists| && 0 <= l < |lists[k].resources| && (k < i || (k == i && l < j)) ==>
      !(IsOfGroup(lists[k], group) && lists[k].resources[l].name == resource)
  }

  lemma NoneOfNameBeforeFirst(lists: seq<APIResourceList>, group: string, resource: string, i: nat, j: nat)
    requires FirstAt(lists, OfResource(group, resource), i, j)
    ensures NoneOfNameBefore(lists, group, resource, i, j)
    ensures IsOfGroup(lists[i], group) && lists[i].resources[j].name == resource
  {
    var test := OfResource(group, resource);
    forall k, l | 0 <= k < |lists| && 0 <= l < |lists[k].resources| && (k < i || (k == i && l < j))
      ensures !(IsOfGroup(lists[k], group) && lists[k].resources[l].name == resource)
    {
      assert !test(lists[k], lists[k].resources[l]);
    }
  }

  /** The reverse look-up finds the first resource of the group and name, reading all lists in order. */
  lemma ReverseFoundExactly(lists: seq<APIResourceList>, group: string, resource: string, gvk: GroupVersionKind)
    returns (i: nat, j: nat)
    requires IsReverseLookup(lists, group, resource, Success(Some(gvk)))
    ensures i < |lists| && j < |lists[i].resources|
    ensures ParseGroupVersion(lists[i].groupVersion) == Some(GroupVersion(group, gvk.version)) && gvk.group == group
    ensures lists[i].resources[j].name == resource && lists[i].resources[j].kind == gvk.kind
    ensures NoneOfNameBefore(lists, group, resource, i, j)
    ensures forall k :: 0 <= k < i ==> ParseGroupVersion(lists[k].groupVersion).Some?
  {
    i, j := FirstOfReverse(lists, group, resource, Success(Some(gvk)));
    NoneOfNameBeforeFirst(lists, group, resource, i, j);
  }

  lemma FirstIsUnique(
    lists: seq<APIResourceList>, test: (APIResourceList, APIResource) -> bool, i: nat, j: nat, k: nat, l: nat)
    requires FirstAt(lists, test, i, j) && FirstAt(lists, test, k, l)
    ensures i == k && j == l
  {
  }

  /** The first resource of the group and name is of the version and kind, and no unparsable list comes
      before it. */
  ghost predicate ReadsBack(lists: seq<APIResourceList>, gvr: GroupVersionResource, kind: string, k: nat, l: nat) {
    && FirstAt(lists, OfResource(gvr.group, gvr.resource), k, l)
    && (forall m :: 0 <= m <= k ==> ParseGroupVersion(lists[m].groupVersion).Some?)
    && ParseGroupVersion(lists[k].groupVersion).value == GroupVersion(gvr.group, gvr.version)
    && lists[k].resources[l].kind == kind
  }

  /** What GVRForKind finds, GVKForGR maps back to the same version and kind exactly when the first resource of
      the group and name, in the order of the lists, is of that version and kind. */
  lemma ReverseOfLookup(
    lists: seq<APIResourceList>, kind: string, apiVersion: string, found: Found,
    back: Result<Option<GroupVersionKind>, LookupError>)
    requires IsLookup(lists, kind, apiVersion, Success(Some(found)))
    requires IsReverseLookup(lists, found.gvr.group, found.gvr.resource, back)
    ensures back == Success(Some(GroupVersionKind(found.gvr.group, found.gvr.version, kind))) <==>
            exists k: nat, l: nat :: ReadsBack(lists, found.gvr, kind, k, l)
  {
    var gvr := found.gvr;
    var test := OfResource(gvr.group, gvr.resource);
    if back.Success? && back.value.Some? {
      var k: nat, l: nat := FirstOfReverse(lists, gvr.group, gvr.resource, back);
      if i: nat, j: nat :| ReadsBack(lists, gvr, kind, i, j) {
        FirstIsUnique(lists, test, i, j, k, l);
      }
      assert back.value.value == GroupVersionKind(gvr.group, gvr.version, kind) ==> ReadsBack(lists, gvr, kind, k, l);
    }
  }

  lemma FirstOfReverse(
    lists: seq<APIResourceList>, group: string, resource: string, back: Result<Option<GroupVersionKind>, LookupError>)
    returns (k: nat, l: nat)
    requires IsReverseLookup(lists, group, resource, back) && back.Success? && back.value.Some?
    ensures FirstAt(lists, OfResource(group, resource), k, l)
    ensures forall m :: 0 <= m <= k ==> ParseGroupVersion(lists[m].groupVersion).Some?
    ensures var gv := ParseGroupVersion(lists[k].groupVersion).value;
            gv.group == group && back.value.value == GroupVersionKind(gv.group, gv.version, lists[k].resources[l].kind)
  {
    var test := OfResource(group, resource);
    k, l :| FirstAt(lists, test, k, l)
      && (forall m :: 0 <= m <= k ==> ParseGroupVersion(lists[m].groupVersion).Some?)
      && var gv := ParseGroupVersion(lists[k].groupVersion).value;
         back.value.value == GroupVersionKind(gv.group, gv.version, lists[k].resources[l].kind);
  }
}
