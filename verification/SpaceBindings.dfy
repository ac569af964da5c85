/** Bindings of a space together with those it inherits from its parent spaces
    (pkg/spacebinding/spacebindinglister.go). */
module SpaceBindings {
  import opened Sequences
  import opened Wrappers

  datatype SpaceBinding = SpaceBinding(masterUserRecord: string, space: string, role: string)

  datatype Space = Space(name: string, parentSpace: string, disableInheritance: bool)

  datatype ListError = ListFailed(cause: string) | ParentUnavailable(cause: string)

  /** The two look-ups a lister is built from. Every list call yields a fresh list. */
  datatype Lister = Lister(
    listSpaceBindings: string -> Result<seq<SpaceBinding>, string>,
    getSpace: string -> Result<Space, string>)

  predicate Inherits(space: Space) {
    space.parentSpace != "" && !space.disableInheritance
  }

  // ----- how often a user is bound -----

  function Count(user: string, bindings: seq<SpaceBinding>): nat {
    if bindings == [] then 0
    else (if bindings[0].masterUserRecord == user then 1 else 0) + Count(user, bindings[1..])
  }

  function MaxCount(user: string, levels: seq<seq<SpaceBinding>>): nat {
    if levels == [] then 0
    else
      var here, rest := Count(user, levels[0]), MaxCount(user, levels[1..]);
      if here >= rest then here else rest
  }

  lemma {:induction false} CountConcat(user: string, a: seq<SpaceBinding>, b: seq<SpaceBinding>)
    ensures Count(user, a + b) == Count(user, a) + Count(user, b)
  {
    if a == [] {
      assert a + b == b;
    } else {
      CountConcat(user, a[1..], b);
      assert (a + b)[1..] == a[1..] + b;
    }
  }

  lemma {:induction false} MaxCountConcat(user: string, a: seq<seq<SpaceBinding>>, b: seq<seq<SpaceBinding>>)
    ensures var x, y := MaxCount(user, a), MaxCount(user, b);
            MaxCount(user, a + b) == if x >= y then x else y
  {
    if a == [] {
      assert a + b == b;
    } else {
      MaxCountConcat(user, a[1..], b);
      assert (a + b)[1..] == a[1..] + b;
    }
  }

  lemma MaxCountOfOne(user: string, level: seq<SpaceBinding>)
    ensures MaxCount(user, [level]) == Count(user, level)
  {
  }

  lemma {:induction false} CountZero(user: string, bindings: seq<SpaceBinding>)
    ensures Count(user, bindings) == 0 <==> forall b :: b in bindings ==> b.masterUserRecord != user
  {
    if bindings != [] {
      CountZero(user, bindings[1..]);
      assert bindings == [bindings[0]] + bindings[1..];
    }
  }

  // ----- what one level adds to the levels above it -----

  /** The bindings of a level that outnumber what the same user already has: position i stays exactly
      when more bindings of its user are found from i to the end than in any single earlier level. */
  function Survivors(bindings: seq<SpaceBinding>, above: seq<seq<SpaceBinding>>): seq<SpaceBinding> {
    if bindings == [] then []
    else
      var user := bindings[0].masterUserRecord;
      (if Count(user, bindings) > MaxCount(user, above) then [bindings[0]] else [])
      + Survivors(bindings[1..], above)
  }

  lemma {:induction false} CountSurvivors(user: string, bindings: seq<SpaceBinding>, above: seq<seq<SpaceBinding>>)
    ensures var c, m := Count(user, bindings), MaxCount(user, above);
            Count(user, Survivors(bindings, above)) == if c >= m then c - m else 0
  {
    if bindings != [] {
      CountSurvivors(user, bindings[1..], above);
      var first := if Count(bindings[0].masterUserRecord, bindings) > MaxCount(bindings[0].masterUserRecord, above)
                   then [bindings[0]] else [];
      CountConcat(user, first, Survivors(bindings[1..], above));
    }
  }

  lemma {:induction false} SurvivorsDependOnCounts(
    bindings: seq<SpaceBinding>, above: seq<seq<SpaceBinding>>, above': seq<seq<SpaceBinding>>)
    requires forall user :: MaxCount(user, above) == MaxCount(user, above')
    ensures Survivors(bindings, above) == Survivors(bindings, above')
  {
    if bindings != [] {
      SurvivorsDependOnCounts(bindings[1..], above, above');
    }
  }

  lemma {:induction false} SurvivorsOfNothing(bindings: seq<SpaceBinding>)
    ensures Survivors(bindings, [[]]) == bindings
  {
    if bindings != [] {
      MaxCountOfOne(bindings[0].masterUserRecord, []);
      SurvivorsOfNothing(bindings[1..]);
    }
  }

  function DeleteLast(bindings: seq<SpaceBinding>, user: string): seq<SpaceBinding> {
    if bindings == [] then []
    else if bindings[|bindings| - 1].masterUserRecord == user then bindings[..|bindings| - 1]
    else DeleteLast(bindings[..|bindings| - 1], user) + [bindings[|bindings| - 1]]
  }

  lemma {:induction false} DeleteLastAt(bindings: seq<SpaceBinding>, user: string, i: nat)
    requires i < |bindings| && bindings[i].masterUserRecord == user
    requires forall j :: i < j < |bindings| ==> bindings[j].masterUserRecord != user
    ensures DeleteLast(bindings, user) == bindings[..i] + bindings[i + 1..]
  {
    if i < |bindings| - 1 {
      DeleteLastAt(bindings[..|bindings| - 1], user, i);
    }
  }

  lemma {:induction false} DeleteLastAbsent(bindings: seq<SpaceBinding>, user: string)
    requires forall b :: b in bindings ==> b.masterUserRecord != user
    ensures DeleteLast(bindings, user) == bindings
  {
    if bindings != [] {
      DeleteLastAbsent(bindings[..|bindings| - 1], user);
    }
  }

  lemma {:induction false} DeleteLastCons(head: SpaceBinding, tail: seq<SpaceBinding>, user: string)
    ensures DeleteLast([head] + tail, user) ==
            if Count(user, tail) > 0 then [head] + DeleteLast(tail, user)
            else if head.masterUserRecord == user then tail
            else [head] + tail
  {
    CountZero(user, tail);
    if Count(user, tail) > 0 {
      var i := LastOf(tail, user);
      DeleteLastAt(tail, user, i);
      DeleteLastAt([head] + tail, user, i + 1);
      DeletedBehind(head, tail, i);
    } else if head.masterUserRecord == user {
      DeleteLastAt([head] + tail, user, 0);
    } else {
      DeleteLastAbsent([head] + tail, user);
    }
  }

  lemma DeletedBehind(head: SpaceBinding, tail: seq<SpaceBinding>, i: nat)
    requires i < |tail|
    ensures var whole := [head] + tail; whole[..i + 1] + whole[i + 2..] == [head] + (tail[..i] + tail[i + 1..])
  {
  }

  lemma LastOf(bindings: seq<SpaceBinding>, user: string) returns (i: nat)
    requires exists b :: b in bindings && b.masterUserRecord == user
    ensures i < |bindings| && bindings[i].masterUserRecord == user
    ensures forall j :: i < j < |bindings| ==> bindings[j].masterUserRecord != user
  {
    i := |bindings| - 1;
    while bindings[i].masterUserRecord != user
      invariant i < |bindings|
      decreases i
      invariant forall j :: i < j < |bindings| ==> bindings[j].masterUserRecord != user
    {
      i := i - 1;
    }
  }

  lemma SurvivorsStep(bindings: seq<SpaceBinding>, found: seq<SpaceBinding>)
    requires bindings != []
    ensures var owner, rest := bindings[0].masterUserRecord, Survivors(bindings[1..], [found]);
            Survivors(bindings, [found]) == if Count(owner, bindings) > Count(owner, found) then [bindings[0]] + rest else rest
  {
    MaxCountOfOne(bindings[0].masterUserRecord, found);
  }

  lemma CountOneMore(user: string, found: seq<SpaceBinding>, next: SpaceBinding)
    ensures Count(user, found + [next]) == Count(user, found) + if next.masterUserRecord == user then 1 else 0
  {
    CountConcat(user, found, [next]);
    assert [next][1..] == [];
  }

  /** Deleting, from the back, one more binding of a user is the same as the user having one more
      binding in the level above. */
  lemma {:induction false} DeleteIsOneMoreFound(bindings: seq<SpaceBinding>, found: seq<SpaceBinding>, next: SpaceBinding)
    ensures DeleteLast(Survivors(bindings, [found]), next.masterUserRecord)
         == Survivors(bindings, [found + [next]])
  {
    if bindings != [] {
      var user, owner := next.masterUserRecord, bindings[0].masterUserRecord;
      var rest := Survivors(bindings[1..], [found]);
      DeleteIsOneMoreFound(bindings[1..], found, next);
      SurvivorsStep(bindings, found);
      SurvivorsStep(bindings, found + [next]);
      CountOneMore(owner, found, next);
      CountSurvivors(user, bindings[1..], [found]);
      MaxCountOfOne(user, found);
      DeleteLastCons(bindings[0], rest, user);
      if Count(user, rest) == 0 {
        CountZero(user, rest);
        DeleteLastAbsent(rest, user);
      }
    }
  }

  // ----- the merge of two lists -----

  /** The inner loop: scan from the back and delete the first hit in place. */
  method DeleteFromTheBack(bindings: seq<SpaceBinding>, user: string) returns (left: seq<SpaceBinding>)
    ensures left == DeleteLast(bindings, user)
  {
    left := bindings;
    var i := |left| - 1;
    while i >= 0
      invariant -1 <= i < |left| && left == bindings
      invariant forall j :: i < j < |left| ==> left[j].masterUserRecord != user
    {
      if left[i].masterUserRecord == user {
        DeleteLastAt(bindings, user, i);
        left := left[..i] + left[i + 1..];
        return;
      }
      i := i - 1;
    }
    DeleteLastAbsent(bindings, user);
  }

  /** mergeSpaceBindings: for each binding already found, one of its user is deleted from the parent list;
      what is left is appended. */
  method MergeSpaceBindings(foundBindings: seq<SpaceBinding>, parentBindings: seq<SpaceBinding>)
    returns (merged: seq<SpaceBinding>)
    ensures merged == foundBindings + Survivors(parentBindings, [foundBindings])
  {
    var parent := parentBindings;
    SurvivorsOfNothing(parentBindings);
    for k := 0 to |foundBindings|
      invariant parent == Survivors(parentBindings, [foundBindings[..k]])
    {
      parent := DeleteFromTheBack(parent, foundBindings[k].masterUserRecord);
      DeleteIsOneMoreFound(parentBindings, foundBindings[..k], foundBindings[k]);
      assert foundBindings[..k] + [foundBindings[k]] == foundBindings[..k + 1];
    }
    assert foundBindings[..|foundBindings|] == foundBindings;
    merged := foundBindings + parent;
  }

  // ----- the walk up the parent chain -----

  /** The recursion from this space ends within the given number of parent steps. */
  ghost predicate EndsWithin(lister: Lister, space: Space, depth: nat)
    decreases depth
  {
    lister.listSpaceBindings(space.name).Success? && Inherits(space) && lister.getSpace(space.parentSpace).Success?
    ==> depth > 0 && EndsWithin(lister, lister.getSpace(space.parentSpace).value, depth - 1)
  }

  /** A rank that decreases along every parent link bounds the walk. */
  lemma {:induction false} RankBoundsTheWalk(lister: Lister, rank: Space -> nat, space: Space)
    requires forall s: Space :: Inherits(s) && lister.getSpace(s.parentSpace).Success?
                                ==> rank(lister.getSpace(s.parentSpace).value) < rank(s)
    ensures EndsWithin(lister, space, rank(space))
    decreases rank(space)
  {
    if Inherits(space) && lister.getSpace(space.parentSpace).Success? {
      var parent := lister.getSpace(space.parentSpace).value;
      RankBoundsTheWalk(lister, rank, parent);
      DepthIsMonotone(lister, parent, rank(parent), rank(space) - 1);
    }
  }

  lemma {:induction false} DepthIsMonotone(lister: Lister, space: Space, depth: nat, more: nat)
    requires EndsWithin(lister, space, depth) && depth <= more
    ensures EndsWithin(lister, space, more)
    decreases depth
  {
    if lister.listSpaceBindings(space.name).Success? && Inherits(space) && lister.getSpace(space.parentSpace).Success? {
      DepthIsMonotone(lister, lister.getSpace(space.parentSpace).value, depth - 1, more - 1);
    }
  }

  /** What the look-ups yield on the way up: one list per space reached, nearest first, and the
      failure that ended the walk, if one did. */
  datatype Walk = Walk(levels: seq<seq<SpaceBinding>>, failure: Option<ListError>)

  ghost function WalkUp(lister: Lister, space: Space, depth: nat): Walk
    requires EndsWithin(lister, space, depth)
    decreases depth
  {
    match lister.listSpaceBindings(space.name)
    case Failure(e) => Walk([], Some(ListFailed(e)))
    case Success(bindings) =>
      if !Inherits(space) then Walk([bindings], None)
      else match lister.getSpace(space.parentSpace)
        case Failure(e) => Walk([bindings], Some(ParentUnavailable(e)))
        case Success(parent) =>
          var above := WalkUp(lister, parent, depth - 1);
          Walk([bindings] + above.levels, above.failure)
  }

  /** Every level from k on, reduced to what it adds to all levels before it. */
  ghost function Layered(levels: seq<seq<SpaceBinding>>, k: nat): seq<SpaceBinding>
    requires k <= |levels|
    decreases |levels| - k
  {
    if k == |levels| then [] else Survivors(levels[k], levels[..k]) + Layered(levels, k + 1)
  }

  /** The lists that make up the result: the one already found and one per space reached, nearest first. */
  ghost function Levels(lister: Lister, space: Space, found: seq<SpaceBinding>, depth: nat): seq<seq<SpaceBinding>>
    requires EndsWithin(lister, space, depth)
  {
    [found] + WalkUp(lister, space, depth).levels
  }

  /** What is listed for a space: each level reduced to what it adds to the nearer ones. */
  ghost function Listed(lister: Lister, space: Space, found: seq<SpaceBinding>, depth: nat): seq<SpaceBinding>
    requires EndsWithin(lister, space, depth)
  {
    Layered(Levels(lister, space, found, depth), 0)
  }

  /** ListForSpace: whatever the look-ups answer, and failing or not, the result is what each level reached
      adds to the nearer ones, with the failure that ended the walk. */
  method ListForSpace(lister: Lister, space: Space, foundBindings: seq<SpaceBinding>, ghost depth: nat)
    returns (bindings: seq<SpaceBinding>, failure: Option<ListError>)
    requires EndsWithin(lister, space, depth)
    ensures bindings == Listed(lister, space, foundBindings, depth) && failure == WalkUp(lister, space, depth).failure
    decreases depth
  {
    var parentBindings := lister.listSpaceBindings(space.name);
    if parentBindings.Failure? {
      OneLevel(foundBindings);
      return foundBindings, Some(ListFailed(parentBindings.error));
    }
    var found := MergeSpaceBindings(foundBindings, parentBindings.value);
    OneMoreLevel(foundBindings, parentBindings.value, []);
    OneLevel(found);
    assert [parentBindings.value] + [] == [parentBindings.value];
    if space.parentSpace == "" || space.disableInheritance {
      return found, None;
    }
    var parentSpace := lister.getSpace(space.parentSpace);
    if parentSpace.Failure? {
      return found, Some(ParentUnavailable(parentSpace.error));
    }
    OneMoreLevel(foundBindings, parentBindings.value, WalkUp(lister, parentSpace.value, depth - 1).levels);
    bindings, failure := ListForSpace(lister, parentSpace.value, found, depth - 1);
  }

  lemma {:induction false} SurvivorsOfFirst(bindings: seq<SpaceBinding>)
    ensures Survivors(bindings, []) == bindings
  {
    if bindings != [] {
      SurvivorsOfFirst(bindings[1..]);
    }
  }

  /** The list found first is a level like the others. */
  lemma FoundIsALevel(found: seq<SpaceBinding>, rest: seq<seq<SpaceBinding>>)
    ensures Layered([found] + rest, 0) == found + Layered([found] + rest, 1)
  {
    SurvivorsOfFirst(found);
    assert ([found] + rest)[..0] == [] && ([found] + rest)[0] == found;
  }

  lemma OneLevel(found: seq<SpaceBinding>)
    ensures Layered([found] + [], 0) == found && [found] + [] == [found]
  {
    FoundIsALevel(found, []);
    assert [found] + [] == [found];
    assert found + [] == found;
  }

  /** Folding the next level into the list found so far does not change the result. */
  lemma OneMoreLevel(found: seq<SpaceBinding>, level: seq<SpaceBinding>, rest: seq<seq<SpaceBinding>>)
    ensures Layered([found + Survivors(level, [found])] + rest, 0) == Layered([found] + ([level] + rest), 0)
  {
    var merged := found + Survivors(level, [found]);
    var long := [found] + ([level] + rest);
    assert long[1] == level && long[..1] == [found];
    forall user ensures Count(user, merged) == MaxCount(user, [found, level]) {
      CountOfMerged(user, found, level);
    }
    SameTail(merged, found, level, rest, 0);
    FoundIsALevel(merged, rest);
    FoundIsALevel(found, [level] + rest);
    LayeredFrom(long, 1);
    Regrouped(found, Survivors(level, [found]), Layered(long, 2));
  }

  lemma LayeredFrom(levels: seq<seq<SpaceBinding>>, k: nat)
    requires k < |levels|
    ensures Layered(levels, k) == Survivors(levels[k], levels[..k]) + Layered(levels, k + 1)
  {
  }

  lemma CountOfMerged(user: string, found: seq<SpaceBinding>, level: seq<SpaceBinding>)
    ensures Count(user, found + Survivors(level, [found])) == MaxCount(user, [found, level])
  {
    CountConcat(user, found, Survivors(level, [found]));
    CountSurvivors(user, level, [found]);
    MaxCountOfOne(user, found);
    MaxCountOfOne(user, level);
    assert [found, level][1..] == [level];
  }

  lemma {:induction false} SameTail(
    merged: seq<SpaceBinding>, found: seq<SpaceBinding>, level: seq<SpaceBinding>, rest: seq<seq<SpaceBinding>>, k: nat)
    requires k <= |rest|
    requires forall user :: Count(user, merged) == MaxCount(user, [found, level])
    ensures Layered([merged] + rest, k + 1) == Layered([found] + ([level] + rest), k + 2)
    decreases |rest| - k
  {
    if k < |rest| {
      var short, long := [merged] + rest, [found] + ([level] + rest);
      SameTail(merged, found, level, rest, k + 1);
      assert short[..k + 1] == [merged] + rest[..k] && long[..k + 2] == [found, level] + rest[..k];
      var above, above' := short[..k + 1], long[..k + 2];
      forall user ensures MaxCount(user, above) == MaxCount(user, above') {
        MaxCountOfOne(user, merged);
        MaxCountConcat(user, [merged], rest[..k]);
        MaxCountConcat(user, [found, level], rest[..k]);
      }
      SurvivorsDependOnCounts(rest[k], above, above');
      assert short[k + 1] == long[k + 2] == rest[k];
    }
  }

  // ----- where the walk goes -----

  /** Without a parent, or with inheritance disabled, the space's own bindings are all there is. */
  lemma OwnBindingsOnly(lister: Lister, space: Space, depth: nat)
    requires EndsWithin(lister, space, depth)
    requires space.parentSpace == "" || space.disableInheritance
    ensures WalkUp(lister, space, depth) ==
            match lister.listSpaceBindings(space.name)
            case Success(own) => Walk([own], None)
            case Failure(e) => Walk([], Some(ListFailed(e)))
  {
  }

  /** Otherwise the parent's look-up decides: its walk follows the space's own bindings, or its failure ends the
      walk. */
  lemma ParentDecides(lister: Lister, space: Space, depth: nat)
    requires EndsWithin(lister, space, depth)
    requires space.parentSpace != "" && !space.disableInheritance && lister.listSpaceBindings(space.name).Success?
    ensures var own := lister.listSpaceBindings(space.name).value;
            match lister.getSpace(space.parentSpace)
            case Failure(e) => WalkUp(lister, space, depth) == Walk([own], Some(ParentUnavailable(e)))
            case Success(parent) =>
              && depth > 0 && EndsWithin(lister, parent, depth - 1)
              && WalkUp(lister, space, depth) ==
                 Walk([own] + WalkUp(lister, parent, depth - 1).levels, WalkUp(lister, parent, depth - 1).failure)
  {
  }

  /** So with inheritance disabled every user is listed with the larger of the numbers found so far and in the
      space itself, whatever the parent binds. */
  lemma NothingIsInherited(lister: Lister, space: Space, found: seq<SpaceBinding>, depth: nat, user: string)
    requires EndsWithin(lister, space, depth) && lister.listSpaceBindings(space.name).Success?
    requires space.parentSpace == "" || space.disableInheritance
    ensures var own := lister.listSpaceBindings(space.name).value;
            Count(user, Listed(lister, space, found, depth)) ==
            if Count(user, found) >= Count(user, own) then Count(user, found) else Count(user, own)
  {
    OwnBindingsOnly(lister, space, depth);
    EveryUserGetsTheMaximum(lister, space, found, depth, user);
    var own := lister.listSpaceBindings(space.name).value;
    assert [found] + [own] == [found, own] && [found, own][1..] == [own];
    MaxCountOfOne(user, own);
  }

  /** And otherwise a user whom only the parent binds is listed with the parent's bindings. */
  lemma ParentIsInherited(
    lister: Lister, space: Space, depth: nat, parent: Space, binding: SpaceBinding)
    requires EndsWithin(lister, space, depth) && lister.listSpaceBindings(space.name).Success?
    requires space.parentSpace != "" && !space.disableInheritance && lister.getSpace(space.parentSpace) == Success(parent)
    requires lister.listSpaceBindings(parent.name).Success? && binding in lister.listSpaceBindings(parent.name).value
    requires Count(binding.masterUserRecord, lister.listSpaceBindings(space.name).value) == 0
    ensures Count(binding.masterUserRecord, Listed(lister, space, [], depth)) > 0
  {
    var user := binding.masterUserRecord;
    ParentDecides(lister, space, depth);
    EveryUserGetsTheMaximum(lister, space, [], depth, user);
    var up := lister.listSpaceBindings(parent.name).value;
    CountZero(user, up);
    var levels := Levels(lister, space, [], depth);
    assert levels[2] == WalkUp(lister, parent, depth - 1).levels[0] == up;
    CountedSomewhere(levels, user, 2);
  }

  /** More bindings of its user are found from the position to the end than in any single level above. */
  ghost predicate Stays(bindings: seq<SpaceBinding>, above: seq<seq<SpaceBinding>>, p: nat)
    requires p < |bindings|
  {
    Count(bindings[p].masterUserRecord, bindings[p..]) > MaxCount(bindings[p].masterUserRecord, above)
  }

  ghost function KeptFrom(bindings: seq<SpaceBinding>, above: seq<seq<SpaceBinding>>, p: nat): seq<nat>
    requires p <= |bindings|
    decreases |bindings| - p
  {
    if p == |bindings| then []
    else if Stays(bindings, above, p) then [p] + KeptFrom(bindings, above, p + 1)
    else KeptFrom(bindings, above, p + 1)
  }

  ghost predicate Ascends(s: seq<nat>, from: nat, to: nat) {
    && (forall i :: 0 <= i < |s| ==> from <= s[i] < to)
    && (forall i, j :: 0 <= i < j < |s| ==> s[i] < s[j])
  }

  lemma OneInFront(p: nat, rest: seq<nat>, to: nat)
    requires Ascends(rest, p + 1, to) && p < to
    ensures Ascends([p] + rest, p, to)
  {
    var all := [p] + rest;
    assert forall i :: 0 < i < |all| ==> all[i] == rest[i - 1];
  }

  lemma {:induction false} KeptInOrder(bindings: seq<SpaceBinding>, above: seq<seq<SpaceBinding>>, p: nat)
    requires p <= |bindings|
    ensures Ascends(KeptFrom(bindings, above, p), p, |bindings|)
    decreases |bindings| - p
  {
    if p < |bindings| {
      KeptInOrder(bindings, above, p + 1);
      OneInFront(p, KeptFrom(bindings, above, p + 1), |bindings|);
    }
  }

  lemma {:induction false} KeptExactly(bindings: seq<SpaceBinding>, above: seq<seq<SpaceBinding>>, p: nat, q: nat)
    requires p <= |bindings|
    ensures q in KeptFrom(bindings, above, p) <==> p <= q < |bindings| && Stays(bindings, above, q)
    decreases |bindings| - p
  {
    if p < |bindings| {
      KeptExactly(bindings, above, p + 1, q);
    }
  }

  lemma {:induction false} KeptSurvive(bindings: seq<SpaceBinding>, above: seq<seq<SpaceBinding>>, p: nat)
    requires p <= |bindings|
    ensures var kept, left := KeptFrom(bindings, above, p), Survivors(bindings[p..], above);
            |kept| == |left| && forall i :: 0 <= i < |kept| ==> kept[i] < |bindings| && left[i] == bindings[kept[i]]
    decreases |bindings| - p
  {
    if p < |bindings| {
      KeptSurvive(bindings, above, p + 1);
      SurvivorsFrom(bindings, above, p);
      var rest := KeptFrom(bindings, above, p + 1);
      assert forall i :: 0 < i < |[p] + rest| ==> ([p] + rest)[i] == rest[i - 1];
    }
  }

  lemma SurvivorsFrom(bindings: seq<SpaceBinding>, above: seq<seq<SpaceBinding>>, p: nat)
    requires p < |bindings|
    ensures Survivors(bindings[p..], above) ==
            (if Stays(bindings, above, p) then [bindings[p]] else []) + Survivors(bindings[p + 1..], above)
  {
    assert bindings[p..][0] == bindings[p] && bindings[p..][1..] == bindings[p + 1..];
  }

  /** What a level adds, by position: the bindings stay in order, and of each user the first ones stay, as many
      as the level has in excess of every nearer one. */
  lemma SurvivorsByPosition(bindings: seq<SpaceBinding>, above: seq<seq<SpaceBinding>>) returns (kept: seq<nat>)
    ensures |kept| == |Survivors(bindings, above)|
    ensures forall i :: 0 <= i < |kept| ==> kept[i] < |bindings| && Survivors(bindings, above)[i] == bindings[kept[i]]
    ensures forall i, j :: 0 <= i < j < |kept| ==> kept[i] < kept[j]
    ensures forall p: nat :: p < |bindings| ==>
              var user := bindings[p].masterUserRecord;
              p in kept <==> Count(user, bindings[..p]) + MaxCount(user, above) < Count(user, bindings)
  {
    kept := KeptFrom(bindings, above, 0);
    KeptInOrder(bindings, above, 0);
    KeptSurvive(bindings, above, 0);
    assert bindings[0..] == bindings;
    forall p: nat | p < |bindings|
      ensures var user := bindings[p].masterUserRecord;
              p in kept <==> Count(user, bindings[..p]) + MaxCount(user, above) < Count(user, bindings)
    {
      KeptExactly(bindings, above, 0, p);
      CountConcat(bindings[p].masterUserRecord, bindings[..p], bindings[p..]);
      assert bindings == bindings[..p] + bindings[p..];
    }
  }

  // ----- laws of the inherited list -----

  /** Every user is listed with exactly as many bindings as the single level that lists it most. */
  lemma EveryUserGetsTheMaximum(lister: Lister, space: Space, found: seq<SpaceBinding>, depth: nat, user: string)
    requires EndsWithin(lister, space, depth)
    ensures Count(user, Listed(lister, space, found, depth)) == MaxCount(user, Levels(lister, space, found, depth))
  {
    CountFromLevel(Levels(lister, space, found, depth), 0, user);
  }

  lemma {:induction false} CountFromLevel(levels: seq<seq<SpaceBinding>>, k: nat, user: string)
    requires k <= |levels|
    ensures MaxCount(user, levels[..k]) + Count(user, Layered(levels, k)) == MaxCount(user, levels)
    decreases |levels| - k
  {
    if k == |levels| {
      assert levels[..k] == levels;
    } else {
      CountFromLevel(levels, k + 1, user);
      assert levels[..k + 1] == levels[..k] + [levels[k]];
      MaxCountConcat(user, levels[..k], [levels[k]]);
      CountSurvivors(user, levels[k], levels[..k]);
      CountConcat(user, Survivors(levels[k], levels[..k]), Layered(levels, k + 1));
    }
  }

  ghost predicate OncePerLevel(levels: seq<seq<SpaceBinding>>) {
    forall k, user :: 0 <= k < |levels| ==> Count(user, levels[k]) <= 1
  }

  /** When no level lists a user twice, a user bound at level k and at no nearer level is listed with exactly
      one binding, and it is the one of level k. */
  lemma NearestSpaceWins(
    lister: Lister, space: Space, found: seq<SpaceBinding>, depth: nat, k: nat, binding: SpaceBinding)
    requires EndsWithin(lister, space, depth) && OncePerLevel(Levels(lister, space, found, depth))
    requires k < |Levels(lister, space, found, depth)| && binding in Levels(lister, space, found, depth)[k]
    requires forall j :: 0 <= j < k ==> Count(binding.masterUserRecord, Levels(lister, space, found, depth)[j]) == 0
    ensures var list := Listed(lister, space, found, depth);
            && binding in list && Count(binding.masterUserRecord, list) == 1
            && forall b :: b in list && b.masterUserRecord == binding.masterUserRecord ==> b == binding
  {
    NearestLevelWins(Levels(lister, space, found, depth), k, binding);
  }

  lemma NearestLevelWins(levels: seq<seq<SpaceBinding>>, k: nat, binding: SpaceBinding)
    requires OncePerLevel(levels) && k < |levels| && binding in levels[k]
    requires forall j :: 0 <= j < k ==> Count(binding.masterUserRecord, levels[j]) == 0
    ensures binding in Layered(levels, 0)
    ensures Count(binding.masterUserRecord, Layered(levels, 0)) == 1
    ensures forall b :: b in Layered(levels, 0) && b.masterUserRecord == binding.masterUserRecord ==> b == binding
  {
    CountedOnce(levels, k, binding);
    NoneBefore(levels[..k], binding.masterUserRecord);
    SurvivorStays(levels[k], levels[..k], binding);
    LayerIsKept(levels, 0, k, binding);
    OnlyOne(Layered(levels, 0), binding);
  }

  lemma CountedOnce(levels: seq<seq<SpaceBinding>>, k: nat, binding: SpaceBinding)
    requires OncePerLevel(levels) && k < |levels| && binding in levels[k]
    ensures Count(binding.masterUserRecord, Layered(levels, 0)) == 1
  {
    var user := binding.masterUserRecord;
    CountFromLevel(levels, 0, user);
    AtMostOne(levels, user);
    CountZero(user, levels[k]);
    CountedSomewhere(levels, user, k);
  }

  lemma {:induction false} CountedSomewhere(levels: seq<seq<SpaceBinding>>, user: string, k: nat)
    requires k < |levels|
    ensures Count(user, levels[k]) <= MaxCount(user, levels)
  {
    if k > 0 {
      CountedSomewhere(levels[1..], user, k - 1);
    }
  }

  lemma {:induction false} NoneBefore(levels: seq<seq<SpaceBinding>>, user: string)
    requires forall j :: 0 <= j < |levels| ==> Count(user, levels[j]) == 0
    ensures MaxCount(user, levels) == 0
  {
    if levels != [] {
      NoneBefore(levels[1..], user);
    }
  }

  lemma {:induction false} AtMostOne(levels: seq<seq<SpaceBinding>>, user: string)
    requires forall j :: 0 <= j < |levels| ==> Count(user, levels[j]) <= 1
    ensures MaxCount(user, levels) <= 1
  {
    if levels != [] {
      AtMostOne(levels[1..], user);
    }
  }

  lemma {:induction false} SurvivorStays(bindings: seq<SpaceBinding>, above: seq<seq<SpaceBinding>>, binding: SpaceBinding)
    requires binding in bindings && MaxCount(binding.masterUserRecord, above) == 0
    ensures binding in Survivors(bindings, above)
  {
    if bindings[0] != binding {
      SurvivorStays(bindings[1..], above, binding);
    }
  }

  lemma {:induction false} LayerIsKept(levels: seq<seq<SpaceBinding>>, from: nat, k: nat, binding: SpaceBinding)
    requires from <= k < |levels| && binding in Survivors(levels[k], levels[..k])
    ensures binding in Layered(levels, from)
    decreases k - from
  {
    if from < k {
      LayerIsKept(levels, from + 1, k, binding);
    }
  }

  lemma {:induction false} OnlyOne(bindings: seq<SpaceBinding>, binding: SpaceBinding)
    requires binding in bindings && Count(binding.masterUserRecord, bindings) == 1
    ensures forall b :: b in bindings && b.masterUserRecord == binding.masterUserRecord ==> b == binding
  {
    assert bindings == [bindings[0]] + bindings[1..];
    if bindings[0].masterUserRecord == binding.masterUserRecord {
      CountZero(binding.masterUserRecord, bindings[1..]);
    } else {
      OnlyOne(bindings[1..], binding);
    }
  }

  function OnlyUser(user: string, bindings: seq<SpaceBinding>): seq<SpaceBinding> {
    if bindings == [] then []
    else (if bindings[0].masterUserRecord == user then [bindings[0]] else []) + OnlyUser(user, bindings[1..])
  }

  function OnlyUserLevels(user: string, levels: seq<seq<SpaceBinding>>): (r: seq<seq<SpaceBinding>>)
    ensures |r| == |levels|
    ensures forall k :: 0 <= k < |levels| ==> r[k] == OnlyUser(user, levels[k])
  {
    if levels == [] then [] else [OnlyUser(user, levels[0])] + OnlyUserLevels(user, levels[1..])
  }

  /** The two listers answer alike as far as a user is concerned. */
  ghost predicate AlikeFor(user: string, lister: Lister, lister': Lister) {
    && (forall name :: lister.getSpace(name).Success? || lister'.getSpace(name).Success? ==>
          lister.getSpace(name) == lister'.getSpace(name))
    && (forall name :: lister.listSpaceBindings(name).Success? <==> lister'.listSpaceBindings(name).Success?)
    && (forall name :: lister.listSpaceBindings(name).Success? ==>
          OnlyUser(user, lister.listSpaceBindings(name).value) == OnlyUser(user, lister'.listSpaceBindings(name).value))
  }

  /** Isolation: what is listed for a user depends on that user's bindings alone. */
  lemma UsersAreIsolated(
    user: string, lister: Lister, lister': Lister, space: Space, found: seq<SpaceBinding>, found': seq<SpaceBinding>,
    depth: nat, depth': nat)
    requires EndsWithin(lister, space, depth) && EndsWithin(lister', space, depth')
    requires AlikeFor(user, lister, lister') && OnlyUser(user, found) == OnlyUser(user, found')
    ensures OnlyUser(user, Listed(lister, space, found, depth)) == OnlyUser(user, Listed(lister', space, found', depth'))
  {
    WalksAlike(user, lister, lister', space, depth, depth');
    var a, b := WalkUp(lister, space, depth).levels, WalkUp(lister', space, depth').levels;
    assert OnlyUserLevels(user, [found] + a) == [OnlyUser(user, found)] + OnlyUserLevels(user, a);
    assert OnlyUserLevels(user, [found'] + b) == [OnlyUser(user, found')] + OnlyUserLevels(user, b);
    LevelsOfUser(Levels(lister, space, found, depth), user, 0);
    LevelsOfUser(Levels(lister', space, found', depth'), user, 0);
  }

  lemma {:induction false} WalksAlike(user: string, lister: Lister, lister': Lister, space: Space, depth: nat, depth': nat)
    requires EndsWithin(lister, space, depth) && EndsWithin(lister', space, depth') && AlikeFor(user, lister, lister')
    ensures OnlyUserLevels(user, WalkUp(lister, space, depth).levels) == OnlyUserLevels(user, WalkUp(lister', space, depth').levels)
    decreases depth
  {
    if lister.listSpaceBindings(space.name).Success? && Inherits(space) && lister.getSpace(space.parentSpace).Success? {
      WalksAlike(user, lister, lister', lister.getSpace(space.parentSpace).value, depth - 1, depth' - 1);
    }
  }

  lemma {:induction false} LevelsOfUser(levels: seq<seq<SpaceBinding>>, user: string, k: nat)
    requires k <= |levels|
    ensures OnlyUser(user, Layered(levels, k)) == Layered(OnlyUserLevels(user, levels), k)
    decreases |levels| - k
  {
    if k < |levels| {
      var mine := OnlyUserLevels(user, levels);
      LevelsOfUser(levels, user, k + 1);
      OnlyUserConcat(user, Survivors(levels[k], levels[..k]), Layered(levels, k + 1));
      assert OnlyUserLevels(user, levels[..k]) == mine[..k];
      MaxCountOfUser(user, levels[..k]);
      SurvivorsOfUser(user, levels[k], levels[..k], mine[..k]);
    }
  }

  lemma {:induction false} OnlyUserConcat(user: string, a: seq<SpaceBinding>, b: seq<SpaceBinding>)
    ensures OnlyUser(user, a + b) == OnlyUser(user, a) + OnlyUser(user, b)
  {
    if a == [] {
      assert a + b == b;
    } else {
      OnlyUserConcat(user, a[1..], b);
      assert (a + b)[0] == a[0] && (a + b)[1..] == a[1..] + b;
      Regrouped(if a[0].masterUserRecord == user then [a[0]] else [], OnlyUser(user, a[1..]), OnlyUser(user, b));
    }
  }

  lemma {:induction false} CountOfUser(user: string, bindings: seq<SpaceBinding>)
    ensures Count(user, OnlyUser(user, bindings)) == Count(user, bindings)
  {
    if bindings != [] {
      CountOfUser(user, bindings[1..]);
      CountConcat(user, if bindings[0].masterUserRecord == user then [bindings[0]] else [], OnlyUser(user, bindings[1..]));
    }
  }

  lemma {:induction false} MaxCountOfUser(user: string, levels: seq<seq<SpaceBinding>>)
    ensures MaxCount(user, OnlyUserLevels(user, levels)) == MaxCount(user, levels)
  {
    if levels != [] {
      MaxCountOfUser(user, levels[1..]);
      CountOfUser(user, levels[0]);
    }
  }

  lemma {:induction false} SurvivorsOfUser(
    user: string, bindings: seq<SpaceBinding>, above: seq<seq<SpaceBinding>>, mine: seq<seq<SpaceBinding>>)
    requires MaxCount(user, mine) == MaxCount(user, above)
    ensures OnlyUser(user, Survivors(bindings, above)) == Survivors(OnlyUser(user, bindings), mine)
  {
    if bindings != [] {
      SurvivorsOfUser(user, bindings[1..], above, mine);
      var owner := bindings[0].masterUserRecord;
      var first := if Count(owner, bindings) > MaxCount(owner, above) then [bindings[0]] else [];
      OnlyUserConcat(user, first, Survivors(bindings[1..], above));
      CountOfUser(user, bindings);
      OnlyUserOfFirst(user, bindings);
      assert OnlyUser(user, []) == [];
    }
  }

  lemma OnlyUserOfFirst(user: string, bindings: seq<SpaceBinding>)
    requires bindings != []
    ensures var own, rest := OnlyUser(user, bindings), OnlyUser(user, bindings[1..]);
            if bindings[0].masterUserRecord == user then own != [] && own[0] == bindings[0] && own[1..] == rest
            else own == rest
    ensures OnlyUser(user, [bindings[0]]) == if bindings[0].masterUserRecord == user then [bindings[0]] else []
  {
    assert [bindings[0]][1..] == [];
  }

  /** More look-ups succeed in the one lister than in the other, with the same answers. */
  ghost predicate AnswersMore(less: Lister, more: Lister) {
    && (forall name :: less.listSpaceBindings(name).Success? ==> more.listSpaceBindings(name) == less.listSpaceBindings(name))
    && (forall name :: less.getSpace(name).Success? ==> more.getSpace(name) == less.getSpace(name))
  }

  /** A walk cut short by a failure lists a prefix of what is listed when more look-ups succeed. */
  lemma FailedListIsPrefix(less: Lister, more: Lister, space: Space, found: seq<SpaceBinding>, depth: nat, depth': nat)
    requires AnswersMore(less, more) && EndsWithin(less, space, depth) && EndsWithin(more, space, depth')
    ensures Listed(less, space, found, depth) <= Listed(more, space, found, depth')
  {
    WalkGoesOn(less, more, space, depth, depth');
    var short, long := Levels(less, space, found, depth), Levels(more, space, found, depth');
    assert long == short + long[|short|..];
    FartherLevelsOnlyAppend(short, long[|short|..], 0);
  }

  lemma {:induction false} WalkGoesOn(less: Lister, more: Lister, space: Space, depth: nat, depth': nat)
    requires AnswersMore(less, more) && EndsWithin(less, space, depth) && EndsWithin(more, space, depth')
    ensures WalkUp(less, space, depth).levels <= WalkUp(more, space, depth').levels
    decreases depth
  {
    if less.listSpaceBindings(space.name).Success? && Inherits(space) && less.getSpace(space.parentSpace).Success? {
      WalkGoesOn(less, more, less.getSpace(space.parentSpace).value, depth - 1, depth' - 1);
    }
  }

  /** Going further up only appends. */
  lemma {:induction false} FartherLevelsOnlyAppend(levels: seq<seq<SpaceBinding>>, more: seq<seq<SpaceBinding>>, k: nat)
    requires k <= |levels|
    ensures Layered(levels, k) + Layered(levels + more, |levels|) == Layered(levels + more, k)
    decreases |levels| - k
  {
    if k < |levels| {
      FartherLevelsOnlyAppend(levels, more, k + 1);
      assert (levels + more)[..k] == levels[..k] && (levels + more)[k] == levels[k];
      var here, x, y := Survivors(levels[k], levels[..k]), Layered(levels, k + 1), Layered(levels + more, |levels|);
      assert (here + x) + y == here + (x + y);
    }
  }
}
