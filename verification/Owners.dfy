/** The walk from an object to its top-level owner (pkg/owners/fetcher.go). */
module Owners {
  import opened Wrappers
  import opened Resources

  datatype OwnerReference = OwnerReference(name: string, kind: string, apiVersion: string, controller: Option<bool>)

  datatype Object = Object(namespace: string, name: string, owners: seq<OwnerReference>)

  datatype ObjectWithGVR = ObjectWithGVR(obj: Object, gvr: GroupVersionResource)

  datatype OwnerError =
    | LookupFailed(error: LookupError)
    | NoResource(kind: string, apiVersion: string)
    | FetchFailed(cause: string)

  /** The dynamic client: a namespace is given for namespaced resources only. */
  type Fetch = (GroupVersionResource, Option<string>, string) -> Result<Object, string>

  // ----- the choice of one owner reference -----

  predicate IsController(ref: OwnerReference) {
    ref.controller == Some(true)
  }

  function FirstController(refs: seq<OwnerReference>): (i: nat)
    ensures i <= |refs| && (i < |refs| ==> IsController(refs[i]))
    ensures forall j :: 0 <= j < i ==> !IsController(refs[j])
  {
    if refs == [] || IsController(refs[0]) then 0 else 1 + FirstController(refs[1..])
  }

  function FirstNamed(refs: seq<OwnerReference>): (i: nat)
    ensures i <= |refs| && (i < |refs| ==> refs[i].name != "")
    ensures forall j :: 0 <= j < i ==> refs[j].name == ""
  {
    if refs == [] || refs[0].name != "" then 0 else 1 + FirstNamed(refs[1..])
  }

  /** The first controller if it is named, else the first named reference before it. */
  function Chosen(refs: seq<OwnerReference>): Option<OwnerReference> {
    var c := FirstController(refs);
    if c < |refs| && refs[c].name != "" then Some(refs[c])
    else
      var n := FirstNamed(refs[..c]);
      if n < c then Some(refs[n]) else None
  }

  method ChooseOwner(refs: seq<OwnerReference>) returns (chosen: Option<OwnerReference>)
    ensures chosen == Chosen(refs)
  {
    var ownerReference := OwnerReference("", "", "", None);
    var nonControllerOwner := OwnerReference("", "", "", None);
    ghost var c := FirstController(refs);
    for i := 0 to |refs|
      invariant i <= c && ownerReference.name == ""
      invariant nonControllerOwner.name == "" ==> FirstNamed(refs[..i]) == i
      invariant nonControllerOwner.name != "" ==>
                  FirstNamed(refs[..c]) < i && nonControllerOwner == refs[FirstNamed(refs[..c])]
    {
      if refs[i].controller.Some? && refs[i].controller.value {
        ownerReference := refs[i];
        break;
      } else if nonControllerOwner.name == "" {
        nonControllerOwner := refs[i];
      }
    }
    if ownerReference.name == "" {
      ownerReference := nonControllerOwner;
    }
    if ownerReference.name == "" {
      return None;
    }
    return Some(ownerReference);
  }

  /** With named references the choice is the first controller, else the first reference. */
  lemma ChoiceAmongNamedReferences(refs: seq<OwnerReference>)
    requires forall r :: r in refs ==> r.name != ""
    ensures Chosen(refs) ==
            if refs == [] then None
            else if FirstController(refs) < |refs| then Some(refs[FirstController(refs)])
            else Some(refs[0])
  {
  }

  /** The reference is named, no controller comes before it, and it is itself the controller; or else nothing
      before it has a name, and neither has the first controller. */
  ghost predicate ChosenAt(refs: seq<OwnerReference>, i: nat) {
    && i < |refs| && refs[i].name != ""
    && (forall j :: 0 <= j < i ==> refs[j].controller != Some(true))
    && (refs[i].controller == Some(true)
        || (&& (forall j :: 0 <= j < i ==> refs[j].name == "")
            && (forall c :: i < c < |refs| && refs[c].controller == Some(true) && refs[c].name != "" ==>
                  exists j :: i < j < c && refs[j].controller == Some(true))))
  }

  /** Named or not: that reference is chosen, and none exactly if every named one has a controller before it. */
  lemma ChoiceExactly(refs: seq<OwnerReference>)
    ensures match Chosen(refs)
            case Some(ref) => exists i: nat :: ChosenAt(refs, i) && ref == refs[i]
            case None => forall i :: 0 <= i < |refs| && refs[i].name != "" ==>
                           exists j :: 0 <= j < i && refs[j].controller == Some(true)
  {
    var c := FirstController(refs);
    var n := FirstNamed(refs[..c]);
    if c < |refs| && refs[c].name != "" {
      assert ChosenAt(refs, c);
    } else if n < c {
      assert forall j :: 0 <= j < n ==> refs[j] == refs[..c][j];
      assert ChosenAt(refs, n);
    } else {
      assert forall i :: 0 <= i < c ==> refs[..c][i] == refs[i];
      forall i | 0 <= i < |refs| && refs[i].name != "" ensures exists j :: 0 <= j < i && refs[j].controller == Some(true) {
        assert refs[c].controller == Some(true);
      }
    }
  }

  // ----- one hop and the whole walk -----

  datatype Hop = Top | Broken(error: OwnerError) | Up(owner: ObjectWithGVR)

  /** What the walk sees around it: the API resources, or why discovery failed, and the fetched objects. */
  datatype World = World(lists: Result<seq<APIResourceList>, string>, fetch: Fetch)

  ghost predicate IsHopVia(
    world: World, obj: Object, ref: OwnerReference, answer: Result<Option<Found>, LookupError>, hop: Hop)
  {
    && IsAnswer(world.lists, ref.kind, ref.apiVersion, answer)
    && match answer
       case Failure(e) => hop == Broken(LookupFailed(e))
       case Success(None) => hop == Broken(NoResource(ref.kind, ref.apiVersion))
       case Success(Some(found)) =>
         match world.fetch(found.gvr, if found.namespaced then Some(obj.namespace) else None, ref.name)
         case Failure(cause) => hop == Broken(FetchFailed(cause))
         case Success(owner) => hop == Up(ObjectWithGVR(owner, found.gvr))
  }

  ghost predicate IsHop(world: World, obj: Object, hop: Hop) {
    match Chosen(obj.owners)
    case None => hop == Top
    case Some(ref) => exists answer :: IsHopVia(world, obj, ref, answer, hop)
  }

  lemma HopIsUnique(world: World, obj: Object, a: Hop, b: Hop)
    requires IsHop(world, obj, a) && IsHop(world, obj, b)
    ensures a == b
  {
    var chosen := Chosen(obj.owners);
    if chosen.Some? {
      var x :| IsHopVia(world, obj, chosen.value, x, a);
      var y :| IsHopVia(world, obj, chosen.value, y, b);
      if world.lists.Success? {
        LookupIsUnique(world.lists.value, chosen.value.kind, chosen.value.apiVersion, x, y);
      }
    }
  }

  /** The first resource of the kind of the reference in the lists of its version, and the namespace to ask there:
      that of the object, if the resource is namespaced. */
  ghost predicate OwnerIsAmong(
    lists: seq<APIResourceList>, obj: Object, ref: OwnerReference, gvr: GroupVersionResource, namespace: Option<string>)
  {
    exists i: nat, j: nat ::
      && i < |lists| && lists[i].groupVersion == ref.apiVersion
      && j < |lists[i].resources| && lists[i].resources[j].kind == ref.kind
      && NoneOfKindBefore(lists, ref.kind, ref.apiVersion, i, j)
      && gvr.resource == lists[i].resources[j].name
      && ParseGroupVersion(ref.apiVersion) == Some(GroupVersion(gvr.group, gvr.version))
      && namespace == if lists[i].resources[j].namespaced then Some(obj.namespace) else None
  }

  lemma FoundAmong(lists: seq<APIResourceList>, obj: Object, ref: OwnerReference, found: Found)
    requires IsLookup(lists, ref.kind, ref.apiVersion, Success(Some(found)))
    ensures OwnerIsAmong(lists, obj, ref, found.gvr, if found.namespaced then Some(obj.namespace) else None)
  {
    var i, j := FoundExactly(lists, ref.kind, ref.apiVersion, found);
  }

  /** A hop goes to the object fetched under the name of the chosen reference. */
  lemma HopExactly(world: World, obj: Object, owner: ObjectWithGVR) returns (at: nat, namespace: Option<string>)
    requires IsHop(world, obj, Up(owner))
    ensures ChosenAt(obj.owners, at) && world.lists.Success?
    ensures OwnerIsAmong(world.lists.value, obj, obj.owners[at], owner.gvr, namespace)
    ensures world.fetch(owner.gvr, namespace, obj.owners[at].name) == Success(owner.obj)
  {
    ChoiceExactly(obj.owners);
    var ref := Chosen(obj.owners).value;
    at :| ChosenAt(obj.owners, at) && ref == obj.owners[at];
    var answer :| IsHopVia(world, obj, ref, answer, Up(owner));
    FoundAmong(world.lists.value, obj, ref, answer.value.value);
    namespace := if answer.value.value.namespaced then Some(obj.namespace) else None;
  }

  /** A walk breaks off when the look-up fails, finds no such resource, or the owner cannot be fetched. */
  lemma BrokenExactly(world: World, obj: Object, error: OwnerError) returns (at: nat)
    requires IsHop(world, obj, Broken(error))
    ensures ChosenAt(obj.owners, at)
    ensures var ref := obj.owners[at];
            match world.lists
            case Failure(cause) => error == LookupFailed(DiscoveryFailed(cause))
            case Success(lists) =>
              match error
              case LookupFailed(e) => e == BadGroupVersion(ref.apiVersion) && ParseGroupVersion(ref.apiVersion) == None
              case NoResource(kind, apiVersion) =>
                && kind == ref.kind && apiVersion == ref.apiVersion
                && forall k, l :: 0 <= k < |lists| && 0 <= l < |lists[k].resources| ==>
                     !(lists[k].groupVersion == apiVersion && lists[k].resources[l].kind == kind)
              case FetchFailed(cause) =>
                exists gvr, namespace ::
                  OwnerIsAmong(lists, obj, ref, gvr, namespace) && world.fetch(gvr, namespace, ref.name) == Failure(cause)
  {
    ChoiceExactly(obj.owners);
    var ref := Chosen(obj.owners).value;
    at :| ChosenAt(obj.owners, at) && ref == obj.owners[at];
    var answer :| IsHopVia(world, obj, ref, answer, Broken(error));
    if world.lists.Success? {
      NotFoundExactly(world.lists.value, ref.kind, ref.apiVersion, answer);
      if error.FetchFailed? {
        FoundAmong(world.lists.value, obj, ref, answer.value.value);
      }
    }
  }

  /** The top is reached when every named reference has a controller before it. */
  lemma TopExactly(world: World, obj: Object)
    ensures IsHop(world, obj, Top) <==>
            forall i :: 0 <= i < |obj.owners| && obj.owners[i].name != "" ==>
              exists j :: 0 <= j < i && obj.owners[j].controller == Some(true)
  {
    ChoiceExactly(obj.owners);
  }

  /** How a walk that stops here stopped. */
  function End(error: Option<OwnerError>): Hop {
    match error
    case None => Top
    case Some(e) => Broken(e)
  }

  /** The first hop of a walk, or its end. */
  function Next(chain: seq<ObjectWithGVR>, error: Option<OwnerError>): Hop {
    if chain == [] then End(error) else Up(chain[0])
  }

  /** A walk, nearest owner first: each element is the chosen owner of the one before, and the walk ends at
      an object with nothing to choose, or at the hop that failed. */
  ghost predicate IsWalk(world: World, obj: Object, chain: seq<ObjectWithGVR>, error: Option<OwnerError>)
    decreases chain
  {
    IsHop(world, obj, Next(chain, error)) && (chain != [] ==> IsWalk(world, chain[0].obj, chain[1..], error))
  }

  /** The object reached after i hops. */
  function At(obj: Object, chain: seq<ObjectWithGVR>, i: nat): Object
    requires i <= |chain|
  {
    if i == 0 then obj else chain[i - 1].obj
  }

  /** Read off by position: element i is the chosen owner of the object reached after i hops. */
  lemma {:induction false} WalkByPosition(
    world: World, obj: Object, chain: seq<ObjectWithGVR>, error: Option<OwnerError>, i: nat)
    requires IsWalk(world, obj, chain, error) && i <= |chain|
    ensures IsHop(world, At(obj, chain, i), if i < |chain| then Up(chain[i]) else End(error))
    decreases i
  {
    if i > 0 {
      WalkByPosition(world, chain[0].obj, chain[1..], error, i - 1);
      assert At(obj, chain, i) == At(chain[0].obj, chain[1..], i - 1);
      assert i < |chain| ==> chain[1..][i - 1] == chain[i];
    }
  }

  /** The world determines the walk. */
  lemma {:induction false} WalkIsUnique(
    world: World, obj: Object, a: seq<ObjectWithGVR>, e: Option<OwnerError>, b: seq<ObjectWithGVR>, f: Option<OwnerError>)
    requires IsWalk(world, obj, a, e) && IsWalk(world, obj, b, f)
    ensures a == b && e == f
    decreases a
  {
    HopIsUnique(world, obj, Next(a, e), Next(b, f));
    if a != [] && b != [] {
      WalkIsUnique(world, a[0].obj, a[1..], e, b[1..], f);
      assert a == [a[0]] + a[1..] && b == [b[0]] + b[1..];
    }
  }

  /** More fetches succeed in the one world than in the other, with the same objects. */
  ghost predicate FetchesMore(less: Fetch, more: Fetch) {
    forall gvr, namespace, name :: less(gvr, namespace, name).Success? ==> more(gvr, namespace, name) == less(gvr, namespace, name)
  }

  /** Whatever fails, the owners returned are those of the walk that would not have failed there, up to the
      failure: with more fetches succeeding, the walk only goes on. */
  lemma {:induction false} FailedWalkIsPrefix(
    world: World, more: Fetch, obj: Object,
    partial: seq<ObjectWithGVR>, end: Option<OwnerError>, full: seq<ObjectWithGVR>, error: Option<OwnerError>)
    requires FetchesMore(world.fetch, more)
    requires IsWalk(world, obj, partial, end) && IsWalk(world.(fetch := more), obj, full, error)
    ensures partial <= full
    decreases partial
  {
    if partial != [] {
      SameFirstOwner(world, more, obj, partial[0], Next(full, error));
      FailedWalkIsPrefix(world, more, partial[0].obj, partial[1..], end, full[1..], error);
      assert partial == [partial[0]] + partial[1..] && full == [full[0]] + full[1..];
    }
  }

  lemma SameFirstOwner(world: World, more: Fetch, obj: Object, owner: ObjectWithGVR, hop: Hop)
    requires FetchesMore(world.fetch, more) && IsHop(world, obj, Up(owner)) && IsHop(world.(fetch := more), obj, hop)
    ensures hop == Up(owner)
  {
    HopStays(world, more, obj, owner);
    HopIsUnique(world.(fetch := more), obj, Up(owner), hop);
  }

  lemma HopStays(world: World, more: Fetch, obj: Object, owner: ObjectWithGVR)
    requires FetchesMore(world.fetch, more) && IsHop(world, obj, Up(owner))
    ensures IsHop(world.(fetch := more), obj, Up(owner))
  {
    var ref := Chosen(obj.owners).value;
    var answer :| IsHopVia(world, obj, ref, answer, Up(owner));
    assert IsHopVia(world.(fetch := more), obj, ref, answer, Up(owner));
  }

  // ----- the recursion -----

  /** The chain of chosen owners is at most this long. */
  ghost predicate EndsWithin(world: World, obj: Object, depth: nat)
    decreases depth
  {
    forall owner :: IsHop(world, obj, Up(owner)) ==> depth > 0 && EndsWithin(world, owner.obj, depth - 1)
  }

  /** On an ownership graph whose hops strictly lower a rank, every chain ends. */
  lemma {:induction false} RankBoundsTheChain(world: World, rank: Object -> nat, obj: Object)
    requires LowersRank(world, rank)
    ensures EndsWithin(world, obj, rank(obj))
    decreases rank(obj)
  {
    forall owner | IsHop(world, obj, Up(owner)) ensures rank(obj) > 0 && EndsWithin(world, owner.obj, rank(obj) - 1) {
      HopLowersRank(world, rank, obj, owner);
      RankBoundsTheChain(world, rank, owner.obj);
      LongerIsFine(world, owner.obj, rank(owner.obj), rank(obj) - 1);
    }
    EndsWithOwners(world, obj, rank(obj));
  }

  lemma EndsWithOwners(world: World, obj: Object, depth: nat)
    requires forall owner :: IsHop(world, obj, Up(owner)) ==> depth > 0 && EndsWithin(world, owner.obj, depth - 1)
    ensures EndsWithin(world, obj, depth)
  {
  }

  ghost predicate LowersRank(world: World, rank: Object -> nat) {
    forall o, owner :: IsHop(world, o, Up(owner)) ==> rank(owner.obj) < rank(o)
  }

  lemma HopLowersRank(world: World, rank: Object -> nat, obj: Object, owner: ObjectWithGVR)
    requires LowersRank(world, rank) && IsHop(world, obj, Up(owner))
    ensures rank(owner.obj) < rank(obj)
  {
  }

  lemma {:induction false} LongerIsFine(world: World, obj: Object, depth: nat, more: nat)
    requires EndsWithin(world, obj, depth) && depth <= more
    ensures EndsWithin(world, obj, more)
    decreases depth
  {
    forall owner | IsHop(world, obj, Up(owner)) ensures more > 0 && EndsWithin(world, owner.obj, more - 1) {
      LongerIsFine(world, owner.obj, depth - 1, more - 1);
    }
  }

  function Reversed(chain: seq<ObjectWithGVR>): (r: seq<ObjectWithGVR>)
    ensures |r| == |chain| && forall i :: 0 <= i < |r| ==> r[i] == chain[|chain| - 1 - i]
  {
    seq(|chain|, i requires 0 <= i < |chain| => chain[|chain| - 1 - i])
  }

  lemma OneMoreOwner(owners: seq<ObjectWithGVR>, owner: ObjectWithGVR)
    ensures Reversed(owners + [owner])[0] == owner && Reversed(owners + [owner])[1..] == Reversed(owners)
  {
  }

  class OwnerFetcher {
    const resourceCache: ResourceCache

    constructor (resourceCache: ResourceCache)
      ensures this.resourceCache == resourceCache
    {
      this.resourceCache := resourceCache;
    }

    /** GetOwners: top-level owner first. With or without an error, the owners are exactly those of the walk
        up to its end, in reverse. */
    method GetOwners(discovery: Discovery, fetch: Fetch, obj: Object, ghost depth: nat)
      returns (owners: seq<ObjectWithGVR>, error: Option<OwnerError>)
      requires EndsWithin(World(Effective(resourceCache.resourceLists, discovery), fetch), obj, depth)
      modifies resourceCache
      ensures IsWalk(World(old(Effective(resourceCache.resourceLists, discovery)), fetch), obj, Reversed(owners), error)
      ensures Effective(resourceCache.resourceLists, discovery) == old(Effective(resourceCache.resourceLists, discovery))
      decreases depth
    {
      var hop := FetchOwner(discovery, fetch, obj);
      match hop
      case Top => return [], None;
      case Broken(e) => return [], Some(e);
      case Up(owner) =>
        var ownerOwners;
        ownerOwners, error := GetOwners(discovery, fetch, owner.obj, depth - 1);
        owners := ownerOwners + [owner];
        OneMoreOwner(ownerOwners, owner);
    }

    /** What GetOwners does before it calls itself: the choice, the look-up and the fetch. */
    method FetchOwner(discovery: Discovery, fetch: Fetch, obj: Object) returns (hop: Hop)
      modifies resourceCache
      ensures IsHop(World(old(Effective(resourceCache.resourceLists, discovery)), fetch), obj, hop)
      ensures Effective(resourceCache.resourceLists, discovery) == old(Effective(resourceCache.resourceLists, discovery))
    {
      ghost var world := World(Effective(resourceCache.resourceLists, discovery), fetch);
      var chosen := ChooseOwner(obj.owners);
      if chosen.None? {
        return Top;
      }
      var ref := chosen.value;
      var answer := resourceCache.GVRForKind(discovery, ref.kind, ref.apiVersion);
      if answer.Failure? {
        hop := Broken(LookupFailed(answer.error));
      } else if answer.value.None? {
        hop := Broken(NoResource(ref.kind, ref.apiVersion));
      } else {
        var found := answer.value.value;
        var fetched := if found.namespaced then fetch(found.gvr, Some(obj.namespace), ref.name)
                       else fetch(found.gvr, None, ref.name);
        hop := if fetched.Failure? then Broken(FetchFailed(fetched.error)) else Up(ObjectWithGVR(fetched.value, found.gvr));
      }
      assert IsHopVia(world, obj, ref, answer, hop);
    }
  }
}
