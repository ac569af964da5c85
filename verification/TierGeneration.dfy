/** Initialising the tiers and ensuring their resources, in whatever order the maps are iterated
    (pkg/template/nstemplatetiers/nstemplatetier_generator.go). */
module TierGeneration {
  import opened Sequences
  import opened Strings
  import opened Wrappers
  import opened TierFiles
  import opened TierTemplates
  import opened TierCases

  const PROVIDER_LABEL_KEY := "toolchain.dev.openshift.com/provider"
  const PROVIDER_LABEL_VALUE := "codeready-toolchain"

  /** A loaded tier with what the passes over the map have added to it. */
  datatype TierData = TierData(tier: Tier, tierTemplates: seq<TierTemplate>, objects: seq<TierObject>)

  type TierMap = map<string, TierData>

  function Loads(m: TierMap): Tiers {
    map t | t in m :: m[t].tier
  }

  // ----- what the initialising passes leave -----

  /** The generator goes over the tiers once for their TierTemplates and once for their NSTemplateTiers, both
      when it makes the objects and when it ensures them. */
  datatype Pass = TemplatePass | TierPass

  /** What a pass makes of one tier: its templates, or the objects that refer to them. */
  ghost function Filled(lib: Library, namespace: string, pass: Pass, m: TierMap, t: string): Option<TierData>
    requires BasesLoaded(Loads(m)) && t in m
  {
    match pass
    case TemplatePass =>
      (match TemplatesOf(lib, namespace, Loads(m), t)
       case None => None
       case Some(made) => Some(m[t].(tierTemplates := made)))
    case TierPass =>
      match ObjectsOf(lib, namespace, Loads(m), t, m[t].tierTemplates)
      case None => None
      case Some(made) => Some(m[t].(objects := made))
  }

  type Filling = string -> Option<TierData>

  ghost function Fill(lib: Library, namespace: string, pass: Pass, m: TierMap): Filling
    requires BasesLoaded(Loads(m))
  {
    (t: string) => if t in m then Filled(lib, namespace, pass, m, t) else None
  }

  /** Every tier filled: None when one of them cannot be. */
  ghost function AllFilled(m: TierMap, fill: Filling): Option<TierMap> {
    if forall t :: t in m ==> fill(t).Some? then Some(map t | t in m :: fill(t).value) else None
  }

  ghost predicate KeepsTiers(m: TierMap, fill: Filling) {
    forall t :: t in m && fill(t).Some? ==> fill(t).value.tier == m[t].tier
  }

  lemma FillKeepsTiers(lib: Library, namespace: string, pass: Pass, m: TierMap)
    requires BasesLoaded(Loads(m))
    ensures KeepsTiers(m, Fill(lib, namespace, pass, m))
  {
  }

  lemma AllFilledKeepsLoads(m: TierMap, fill: Filling)
    requires KeepsTiers(m, fill) && AllFilled(m, fill).Some?
    ensures Loads(AllFilled(m, fill).value) == Loads(m)
  {
  }

  /** Both passes. */
  ghost function Initialised(lib: Library, namespace: string, m: TierMap): Option<TierMap>
    requires BasesLoaded(Loads(m))
  {
    FillKeepsTiers(lib, namespace, TemplatePass, m);
    match AllFilled(m, Fill(lib, namespace, TemplatePass, m))
    case None => None
    case Some(filled) =>
      AllFilledKeepsLoads(m, Fill(lib, namespace, TemplatePass, m));
      AllFilled(filled, Fill(lib, namespace, TierPass, filled))
  }

  /** An initialised tier has the templates its files say, and objects that refer to those templates only. */
  lemma InitialisedTier(lib: Library, namespace: string, m: TierMap, t: string)
    requires BasesLoaded(Loads(m)) && Initialised(lib, namespace, m).Some? && t in m
    ensures var made := Initialised(lib, namespace, m).value;
            && made.Keys == m.Keys && made[t].tier == m[t].tier
            && Some(made[t].tierTemplates) == TemplatesOf(lib, namespace, Loads(m), t)
            && Some(made[t].objects) == ObjectsOf(lib, namespace, Loads(m), t, made[t].tierTemplates)
  {
    var first := Fill(lib, namespace, TemplatePass, m);
    FillKeepsTiers(lib, namespace, TemplatePass, m);
    AllFilledKeepsLoads(m, first);
    var filled := AllFilled(m, first).value;
    assert first(t) == Some(filled[t]);
    var second := Fill(lib, namespace, TierPass, filled);
    assert second(t) == Some(Initialised(lib, namespace, m).value[t]);
  }

  /** The templates of a tier can be made, and objects that refer to them. */
  ghost predicate CanBeMade(lib: Library, namespace: string, tiers: Tiers, t: string)
    requires BasesLoaded(tiers) && t in tiers
  {
    var templates := TemplatesOf(lib, namespace, tiers, t);
    templates.Some? && ObjectsOf(lib, namespace, tiers, t, templates.value).Some?
  }

  /** Initialising succeeds exactly if that is so for every tier. */
  lemma InitialisedExactly(lib: Library, namespace: string, m: TierMap)
    requires BasesLoaded(Loads(m))
    ensures Initialised(lib, namespace, m).Some? <==> forall t :: t in m ==> CanBeMade(lib, namespace, Loads(m), t)
  {
    var first := Fill(lib, namespace, TemplatePass, m);
    FillKeepsTiers(lib, namespace, TemplatePass, m);
    match AllFilled(m, first)
    case None =>
      FirstFills(lib, namespace, m);
    case Some(filled) =>
      AllFilledKeepsLoads(m, first);
      SecondFills(lib, namespace, m, filled);
  }

  lemma FirstFills(lib: Library, namespace: string, m: TierMap)
    requires BasesLoaded(Loads(m))
    ensures (forall t :: t in m ==> CanBeMade(lib, namespace, Loads(m), t)) ==>
            AllFilled(m, Fill(lib, namespace, TemplatePass, m)).Some?
  {
    if forall t :: t in m ==> CanBeMade(lib, namespace, Loads(m), t) {
      forall t | t in m ensures Fill(lib, namespace, TemplatePass, m)(t).Some? {
        FirstFill(lib, namespace, m, t);
      }
    }
  }

  lemma FirstFill(lib: Library, namespace: string, m: TierMap, t: string)
    requires BasesLoaded(Loads(m)) && t in m
    ensures CanBeMade(lib, namespace, Loads(m), t) ==> Fill(lib, namespace, TemplatePass, m)(t).Some?
  {
  }

  lemma SecondFills(lib: Library, namespace: string, m: TierMap, filled: TierMap)
    requires BasesLoaded(Loads(m)) && Loads(filled) == Loads(m) && filled.Keys == m.Keys
    requires AllFilled(m, Fill(lib, namespace, TemplatePass, m)) == Some(filled)
    ensures AllFilled(filled, Fill(lib, namespace, TierPass, filled)).Some? <==>
            forall t :: t in m ==> CanBeMade(lib, namespace, Loads(m), t)
  {
    FilledEach(m, Fill(lib, namespace, TemplatePass, m), filled);
    forall t | t in m ensures Fill(lib, namespace, TierPass, filled)(t).Some? <==> CanBeMade(lib, namespace, Loads(m), t) {
      SecondFill(lib, namespace, m, filled, t);
    }
  }

  lemma FilledEach(m: TierMap, fill: Filling, filled: TierMap)
    requires AllFilled(m, fill) == Some(filled)
    ensures forall t :: t in m ==> t in filled && fill(t) == Some(filled[t])
  {
  }

  lemma SecondFill(lib: Library, namespace: string, m: TierMap, filled: TierMap, t: string)
    requires BasesLoaded(Loads(m)) && Loads(filled) == Loads(m) && t in m && t in filled
    requires Fill(lib, namespace, TemplatePass, m)(t) == Some(filled[t])
    ensures Fill(lib, namespace, TierPass, filled)(t).Some? <==> CanBeMade(lib, namespace, Loads(m), t)
  {
  }

  // ----- writing into the map while iterating it -----

  /** A pass has written the tiers done so far and no others. */
  ghost predicate PartlyFilled(was: TierMap, fill: Filling, now: TierMap, done: set<string>) {
    && now.Keys == was.Keys && done <= was.Keys
    && (forall t :: t in done ==> fill(t) == Some(now[t]))
    && (forall t :: t in was && t !in done ==> now[t] == was[t])
  }

  /** What is left to do is what it was at the start, as if nothing had been written yet. */
  lemma PartlyFilledKeepsLoads(was: TierMap, fill: Filling, now: TierMap, done: set<string>)
    requires KeepsTiers(was, fill) && PartlyFilled(was, fill, now, done)
    ensures Loads(now) == Loads(was)
  {
  }

  lemma OneMoreFilled(was: TierMap, fill: Filling, now: TierMap, done: set<string>, t: string)
    requires PartlyFilled(was, fill, now, done) && t in was && fill(t).Some?
    ensures PartlyFilled(was, fill, now[t := fill(t).value], done + {t})
  {
  }

  /** A pass fills every tier, or there is one it cannot fill. */
  ghost predicate FilledIf(was: TierMap, fill: Filling, now: TierMap, ok: bool) {
    if ok then PartlyFilled(was, fill, now, was.Keys) else exists t :: t in was && fill(t).None?
  }

  lemma CompletelyFilledIf(was: TierMap, fill: Filling, now: TierMap, ok: bool)
    requires FilledIf(was, fill, now, ok)
    ensures ok == AllFilled(was, fill).Some? && (ok ==> AllFilled(was, fill) == Some(now))
  {
    if ok {
      CompletelyFilled(was, fill, now, was.Keys);
    }
  }

  lemma CompletelyFilled(was: TierMap, fill: Filling, now: TierMap, done: set<string>)
    requires PartlyFilled(was, fill, now, done) && done == was.Keys
    ensures AllFilled(was, fill) == Some(now)
  {
    assert forall t :: t in was ==> t in done && fill(t) == Some(now[t]);
    assert (map t | t in was :: fill(t).value) == now;
  }

  // ----- the ensure calls -----

  datatype Event =
    | EnsureTemplate(template: TierTemplate, tier: string)
    | EnsureTier(nsTemplateTier: NSTemplateTier, tier: string)

  /** A step of the two ensuring passes: a call, or an error before one. */
  type EnsureStep = Option<Event>

  datatype Ensured = Ensured(trace: seq<Event>, ok: bool)

  /** Steps are taken in turn up to the first error, that of a failing call included. */
  function Taken(steps: seq<EnsureStep>, fails: Event -> bool): Ensured {
    if steps == [] then Ensured([], true)
    else if steps[0].None? then Ensured([], false)
    else if fails(steps[0].value) then Ensured([steps[0].value], false)
    else
      var rest := Taken(steps[1..], fails);
      Ensured([steps[0].value] + rest.trace, rest.ok)
  }

  function TemplateStepsOf(data: TierData, t: string): (r: seq<EnsureStep>)
    ensures |r| == |data.tierTemplates|
    ensures forall i :: 0 <= i < |r| ==> r[i] == Some(EnsureTemplate(data.tierTemplates[i], t))
  {
    seq(|data.tierTemplates|, i requires 0 <= i < |data.tierTemplates| => Some(EnsureTemplate(data.tierTemplates[i], t)))
  }

  /** The label the generator means every tier to carry goes into the label map of the object, if it has
      one; a label map made for the purpose is dropped. */
  function Labelled(tier: NSTemplateTier): NSTemplateTier {
    if tier.labels.Some? then tier.(labels := Some(tier.labels.value[PROVIDER_LABEL_KEY := PROVIDER_LABEL_VALUE])) else tier
  }

  function TierStepOf(lib: Library, data: TierData, t: string): EnsureStep {
    if |data.objects| != 1 || !data.objects[0].unstructured then None
    else
      match lib.convert(data.objects[0])
      case None => None
      case Some(tier) => Some(EnsureTier(Labelled(tier), t))
  }

  /** There is no call for a tier without exactly one object, or with one that is not unstructured or does not
      convert. */
  lemma NoTierStep(lib: Library, data: TierData, t: string)
    ensures TierStepOf(lib, data, t) == None <==>
            |data.objects| != 1 || !data.objects[0].unstructured || lib.convert(data.objects[0]) == None
  {
  }

  /** The steps a pass takes for one tier, and for the tiers in an order. */
  function StepsOf(lib: Library, pass: Pass, m: TierMap, t: string): seq<EnsureStep>
    requires t in m
  {
    if pass.TemplatePass? then TemplateStepsOf(m[t], t) else [TierStepOf(lib, m[t], t)]
  }

  function Steps(lib: Library, pass: Pass, m: TierMap, order: seq<string>): seq<EnsureStep>
    requires forall t :: t in order ==> t in m
  {
    StepsFrom(StepsOn(lib, pass, m), order)
  }

  function StepsOn(lib: Library, pass: Pass, m: TierMap): string -> seq<EnsureStep> {
    (t: string) => if t in m then StepsOf(lib, pass, m, t) else []
  }

  function StepsFrom(of: string -> seq<EnsureStep>, order: seq<string>): seq<EnsureStep> {
    if order == [] then [] else of(order[0]) + StepsFrom(of, order[1..])
  }

  lemma {:induction false} StepsFromConcat(of: string -> seq<EnsureStep>, a: seq<string>, b: seq<string>)
    ensures StepsFrom(of, a + b) == StepsFrom(of, a) + StepsFrom(of, b)
  {
    if a == [] {
      assert a + b == b;
    } else {
      StepsFromConcat(of, a[1..], b);
      assert (a + b)[0] == a[0] && (a + b)[1..] == a[1..] + b;
      Regrouped(of(a[0]), StepsFrom(of, a[1..]), StepsFrom(of, b));
    }
  }

  lemma {:induction false} TakenConcat(a: seq<EnsureStep>, b: seq<EnsureStep>, fails: Event -> bool)
    ensures var x, y := Taken(a, fails), Taken(b, fails);
            Taken(a + b, fails) == if x.ok then Ensured(x.trace + y.trace, y.ok) else x
  {
    if a == [] {
      assert a + b == b;
    } else {
      TakenConcat(a[1..], b, fails);
      assert (a + b)[0] == a[0] && (a + b)[1..] == a[1..] + b;
      if a[0].Some? {
        Regrouped([a[0].value], Taken(a[1..], fails).trace, Taken(b, fails).trace);
      }
    }
  }

  lemma StepsOfOne(lib: Library, pass: Pass, m: TierMap, t: string)
    requires t in m
    ensures Steps(lib, pass, m, [t]) == StepsOf(lib, pass, m, t)
  {
    var of := StepsOn(lib, pass, m);
    assert [t][1..] == [];
    assert StepsFrom(of, [t]) == of(t) + [];
  }

  lemma StepsConcat(lib: Library, pass: Pass, m: TierMap, a: seq<string>, b: seq<string>)
    requires forall t :: t in a || t in b ==> t in m
    ensures Steps(lib, pass, m, a + b) == Steps(lib, pass, m, a) + Steps(lib, pass, m, b)
  {
    StepsFromConcat(StepsOn(lib, pass, m), a, b);
  }

  /** What a pass has done after one more tier. */
  lemma OneMoreTier(lib: Library, pass: Pass, m: TierMap, order: seq<string>, t: string, fails: Event -> bool)
    requires (forall x :: x in order ==> x in m) && t in m
    requires Taken(Steps(lib, pass, m, order), fails).ok
    ensures var before, now := Taken(Steps(lib, pass, m, order), fails), Taken(StepsOf(lib, pass, m, t), fails);
            Taken(Steps(lib, pass, m, order + [t]), fails) == Ensured(before.trace + now.trace, now.ok)
  {
    StepsConcat(lib, pass, m, order, [t]);
    StepsOfOne(lib, pass, m, t);
    TakenConcat(Steps(lib, pass, m, order), StepsOf(lib, pass, m, t), fails);
  }

  /** An error ends a pass, whatever the order would have been from there on. */
  lemma ErrorEndsThePass(lib: Library, pass: Pass, m: TierMap, order: seq<string>, rest: seq<string>, fails: Event -> bool)
    requires forall t :: t in order || t in rest ==> t in m
    requires !Taken(Steps(lib, pass, m, order), fails).ok
    ensures Taken(Steps(lib, pass, m, order + rest), fails) == Taken(Steps(lib, pass, m, order), fails)
  {
    StepsConcat(lib, pass, m, order, rest);
    TakenConcat(Steps(lib, pass, m, order), Steps(lib, pass, m, rest), fails);
  }

  // ----- the generator -----

  class TierGenerator {
    const lib: Library
    const namespace: string
    const fails: Event -> bool
    var templatesByTier: TierMap
    var trace: seq<Event>

    constructor (lib: Library, namespace: string, fails: Event -> bool, tiers: Tiers)
      ensures this.lib == lib && this.namespace == namespace && this.fails == fails && trace == []
      ensures templatesByTier == Entered(tiers)
    {
      this.lib, this.namespace, this.fails := lib, namespace, fails;
      templatesByTier := Entered(tiers);
      trace := [];
    }

    method TierTemplatesOf(tier: string) returns (made: Option<seq<TierTemplate>>)
      requires BasesLoaded(Loads(templatesByTier)) && tier in templatesByTier
      ensures made == TemplatesOf(lib, namespace, Loads(templatesByTier), tier)
    {
      var tierData := templatesByTier[tier].tier;
      var basedOnTierFileRevision := "";
      var parameters: seq<Parameter> := [];
      var source := tierData;
      assert tierData == Loads(templatesByTier)[tier];
      if tierData.basedOn.Some? {
        parameters := tierData.basedOn.value.parameters;
        basedOnTierFileRevision := if tierData.raw.basedOnTier.Some? then tierData.raw.basedOnTier.value.revision else "";
        source := templatesByTier[tierData.basedOn.value.from].tier;
      }
      made := NewTierTemplates(lib, Target(namespace, basedOnTierFileRevision, tier, parameters), source.raw);
    }

    method InitTemplatesOfTier(tier: string, ghost was: TierMap, ghost done: set<string>) returns (ok: bool)
      requires BasesLoaded(Loads(was)) && tier in was && tier !in done
      requires PartlyFilled(was, Fill(lib, namespace, TemplatePass, was), templatesByTier, done)
      modifies this`templatesByTier
      ensures ok == Fill(lib, namespace, TemplatePass, was)(tier).Some?
      ensures ok ==> PartlyFilled(was, Fill(lib, namespace, TemplatePass, was), templatesByTier, done + {tier})
    {
      ghost var fill := Fill(lib, namespace, TemplatePass, was);
      FillKeepsTiers(lib, namespace, TemplatePass, was);
      PartlyFilledKeepsLoads(was, fill, templatesByTier, done);
      var made := TierTemplatesOf(tier);
      if made.None? {
        return false;
      }
      OneMoreFilled(was, fill, templatesByTier, done, tier);
      templatesByTier := templatesByTier[tier := templatesByTier[tier].(tierTemplates := made.value)];
      return true;
    }

    /** initTierTemplates: the tiers in alphabetical order, each written back into the map. */
    method InitTierTemplates() returns (ok: bool)
      requires BasesLoaded(Loads(templatesByTier))
      modifies this`templatesByTier
      ensures var filled := AllFilled(old(templatesByTier), Fill(lib, namespace, TemplatePass, old(templatesByTier)));
              ok == filled.Some? && (ok ==> templatesByTier == filled.value)
    {
      ghost var was := templatesByTier;
      var order := SortedKeys(templatesByTier.Keys);
      SortedMembers(order, was.Keys);
      ok := InitTemplatesInOrder(order);
      CompletelyFilledIf(was, Fill(lib, namespace, TemplatePass, was), templatesByTier, ok);
    }

    method InitTemplatesInOrder(order: seq<string>) returns (ok: bool)
      requires BasesLoaded(Loads(templatesByTier))
      requires Increasing(order) && Members(order) == templatesByTier.Keys
      modifies this`templatesByTier
      ensures FilledIf(old(templatesByTier), Fill(lib, namespace, TemplatePass, old(templatesByTier)), templatesByTier, ok)
    {
      ghost var was := templatesByTier;
      var i := 0;
      while i < |order|
        invariant 0 <= i <= |order|
        invariant PartlyFilled(was, Fill(lib, namespace, TemplatePass, was), templatesByTier, Members(order[..i]))
      {
        NotYet(order, i);
        ok := InitTemplatesOfTier(order[i], was, Members(order[..i]));
        if !ok {
          return;
        }
        i := i + 1;
      }
      assert order[..i] == order;
      ok := true;
    }

    method NSTemplateTierObjectsOf(tierName: string) returns (made: Option<seq<TierObject>>)
      requires BasesLoaded(Loads(templatesByTier)) && tierName in templatesByTier
      ensures made == ObjectsOf(lib, namespace, Loads(templatesByTier), tierName, templatesByTier[tierName].tierTemplates)
    {
      var tierData := templatesByTier[tierName];
      var nsTemplateTier := tierData.tier.raw.nsTemplateTier;
      var sourceTierName := tierName;
      var parameters: seq<Parameter> := [];
      assert tierData.tier == Loads(templatesByTier)[tierName];
      if tierData.tier.basedOn.Some? {
        parameters := tierData.tier.basedOn.value.parameters;
        var fromData := templatesByTier[tierData.tier.basedOn.value.from].tier;
        nsTemplateTier := fromData.raw.nsTemplateTier;
        sourceTierName := fromData.name;
      }
      made := NewNSTemplateTier(lib, namespace, sourceTierName, tierName, nsTemplateTier, tierData.tierTemplates, parameters);
    }

    method InitObjectsOfTier(tierName: string, ghost was: TierMap, ghost done: set<string>) returns (ok: bool)
      requires BasesLoaded(Loads(was)) && tierName in was && tierName !in done
      requires PartlyFilled(was, Fill(lib, namespace, TierPass, was), templatesByTier, done)
      modifies this`templatesByTier
      ensures ok == Fill(lib, namespace, TierPass, was)(tierName).Some?
      ensures ok ==> PartlyFilled(was, Fill(lib, namespace, TierPass, was), templatesByTier, done + {tierName})
    {
      ghost var fill := Fill(lib, namespace, TierPass, was);
      FillKeepsTiers(lib, namespace, TierPass, was);
      PartlyFilledKeepsLoads(was, fill, templatesByTier, done);
      var made := NSTemplateTierObjectsOf(tierName);
      if made.None? {
        return false;
      }
      OneMoreFilled(was, fill, templatesByTier, done, tierName);
      templatesByTier := templatesByTier[tierName := templatesByTier[tierName].(objects := made.value)];
      return true;
    }

    /** initNSTemplateTiers: the map is iterated in an arbitrary order while its values are written. */
    method InitNSTemplateTiers() returns (ok: bool)
      requires BasesLoaded(Loads(templatesByTier))
      modifies this`templatesByTier
      ensures var filled := AllFilled(old(templatesByTier), Fill(lib, namespace, TierPass, old(templatesByTier)));
              ok == filled.Some? && (ok ==> templatesByTier == filled.value)
    {
      ghost var was := templatesByTier;
      ghost var fill := Fill(lib, namespace, TierPass, was);
      ghost var done: set<string> := {};
      var left := templatesByTier.Keys;
      while left != {}
        invariant left <= was.Keys && done == was.Keys - left
        invariant PartlyFilled(was, fill, templatesByTier, done)
        decreases left
      {
        var tierName :| tierName in left;
        ok := InitObjectsOfTier(tierName, was, done);
        if !ok {
          return;
        }
        done := done + {tierName};
        left := left - {tierName};
      }
      CompletelyFilled(was, fill, templatesByTier, done);
      return true;
    }

    method EnsureObject(event: Event) returns (ok: bool)
      modifies this`trace
      ensures trace == old(trace) + [event] && ok == !fails(event)
    {
      trace := trace + [event];
      return !fails(event);
    }

    method EnsureTemplates(tierName: string) returns (ok: bool)
      requires tierName in templatesByTier
      modifies this`trace
      ensures var taken := Taken(StepsOf(lib, TemplatePass, templatesByTier, tierName), fails);
              trace == old(trace) + taken.trace && ok == taken.ok
    {
      var tierTmpls := templatesByTier[tierName].tierTemplates;
      ghost var steps := StepsOf(lib, TemplatePass, templatesByTier, tierName);
      for i := 0 to |tierTmpls|
        invariant Taken(steps[..i], fails).ok && trace == old(trace) + Taken(steps[..i], fails).trace
      {
        OneMoreTaken(steps, i, fails);
        var ensured := EnsureObject(EnsureTemplate(tierTmpls[i], tierName));
        if !ensured {
          assert steps == steps[..i + 1] + steps[i + 1..];
          TakenConcat(steps[..i + 1], steps[i + 1..], fails);
          return false;
        }
      }
      assert steps[..|tierTmpls|] == steps;
      return true;
    }

    method EnsureNSTemplateTier(tierName: string) returns (ok: bool)
      requires tierName in templatesByTier
      modifies this`trace
      ensures var taken := Taken(StepsOf(lib, TierPass, templatesByTier, tierName), fails);
              trace == old(trace) + taken.trace && ok == taken.ok
    {
      OneTaken(TierStepOf(lib, templatesByTier[tierName], tierName), fails);
      var tierData := templatesByTier[tierName];
      if |tierData.objects| != 1 {
        return false;
      }
      if !tierData.objects[0].unstructured {
        return false;
      }
      var converted := lib.convert(tierData.objects[0]);
      if converted.None? {
        return false;
      }
      var tier := converted.value;
      if tier.labels.Some? {
        tier := tier.(labels := Some(tier.labels.value[PROVIDER_LABEL_KEY := PROVIDER_LABEL_VALUE]));
      }
      ok := EnsureObject(EnsureTier(tier, tierName));
    }

    method EnsureTierOf(pass: Pass, tierName: string) returns (ok: bool)
      requires tierName in templatesByTier
      modifies this`trace
      ensures var taken := Taken(StepsOf(lib, pass, templatesByTier, tierName), fails);
              trace == old(trace) + taken.trace && ok == taken.ok
    {
      match pass
      case TemplatePass => ok := EnsureTemplates(tierName);
      case TierPass => ok := EnsureNSTemplateTier(tierName);
    }

    /** One turn of a pass: from what the tiers so far have added to a trace to what one more adds. */
    method EnsureNext(pass: Pass, tierName: string, ghost order: seq<string>, ghost start: seq<Event>) returns (ok: bool)
      requires (forall t :: t in order ==> t in templatesByTier) && tierName in templatesByTier
      requires Taken(Steps(lib, pass, templatesByTier, order), fails).ok
      requires trace == start + Taken(Steps(lib, pass, templatesByTier, order), fails).trace
      modifies this`trace
      ensures var taken := Taken(Steps(lib, pass, templatesByTier, order + [tierName]), fails);
              trace == start + taken.trace && ok == taken.ok
    {
      OneMoreTier(lib, pass, templatesByTier, order, tierName, fails);
      Regrouped(start, Taken(Steps(lib, pass, templatesByTier, order), fails).trace,
                Taken(StepsOf(lib, pass, templatesByTier, tierName), fails).trace);
      ok := EnsureTierOf(pass, tierName);
    }

    /** createTierTemplates and createNSTemplateTiers: a pass over the tiers in an arbitrary order, up to the
        first error. */
    method Create(pass: Pass) returns (ok: bool, ghost order: seq<string>)
      modifies this`trace
      ensures IsOrder(order, templatesByTier.Keys)
      ensures var taken := Taken(Steps(lib, pass, templatesByTier, order), fails);
              trace == old(trace) + taken.trace && ok == taken.ok
    {
      ok, order := true, [];
      var left := templatesByTier.Keys;
      while ok && left != {}
        invariant left <= templatesByTier.Keys && IsOrder(order, templatesByTier.Keys - left)
        invariant ok == Taken(Steps(lib, pass, templatesByTier, order), fails).ok
        invariant trace == old(trace) + Taken(Steps(lib, pass, templatesByTier, order), fails).trace
        decreases left
      {
        var tierName :| tierName in left;
        OneMoreInOrder(order, left, templatesByTier.Keys, tierName);
        ok := EnsureNext(pass, tierName, order, old(trace));
        left, order := left - {tierName}, order + [tierName];
      }
      if !ok {
        order := FailedOrder(lib, pass, templatesByTier, order, left, fails);
      }
    }

    /** The part of newNSTemplateTierGenerator after loading. */
    method Init() returns (ok: bool)
      requires BasesLoaded(Loads(templatesByTier))
      modifies this`templatesByTier
      ensures var generated := Initialised(lib, namespace, old(templatesByTier));
              ok == generated.Some? && (ok ==> templatesByTier == generated.value)
    {
      ghost var was := templatesByTier;
      ok := InitTierTemplates();
      if ok {
        FillKeepsTiers(lib, namespace, TemplatePass, was);
        AllFilledKeepsLoads(was, Fill(lib, namespace, TemplatePass, was));
        ok := InitNSTemplateTiers();
      }
    }

    /** Ensures all templates, then all tiers. */
    method CreateAll() returns (ok: bool, ghost first: seq<string>, ghost second: seq<string>)
      requires trace == []
      modifies this`trace
      ensures IsOrder(first, templatesByTier.Keys) && IsOrder(second, templatesByTier.Keys)
      ensures Ensured(trace, ok) == Taken(AllSteps(lib, templatesByTier, first, second), fails)
    {
      ghost var m := templatesByTier;
      ok, first := Create(TemplatePass);
      assert trace == Taken(Steps(lib, TemplatePass, m, first), fails).trace;
      second := AnyOrder(templatesByTier.Keys);
      if ok {
        ok, second := Create(TierPass);
      }
      TakenInBothPasses(lib, m, first, second, fails);
    }
  }

  /** GenerateTiers: load, initialise, then ensure all templates and all tiers. The order in which the files
      map was iterated, and those of the two ensuring passes over the tier map, are part of the result. */
  method GenerateTiers(lib: Library, namespace: string, fails: Event -> bool, input: Input)
    returns (ok: bool, trace: seq<Event>, ghost files: seq<string>, ghost first: seq<string>, ghost second: seq<string>)
    requires forall order :: IsOrder(order, input.files.Keys) && Loaded(input, order).Some? ==>
               BasesLoaded(Loaded(input, order).value)
    ensures IsOrder(files, input.files.Keys)
    ensures var generated := Generated(lib, namespace, input, files);
            if generated.None? then !ok && trace == []
            else IsOrder(first, generated.value.Keys) && IsOrder(second, generated.value.Keys)
                 && Ensured(trace, ok) == Taken(AllSteps(lib, generated.value, first, second), fails)
    ensures forall i :: 0 <= i < |trace| - 1 ==> !fails(trace[i])
    ensures ok ==> forall e :: e in trace ==> !fails(e)
  {
    first, second := [], [];
    var loaded;
    loaded, files := LoadTemplatesByTiers(input);
    if loaded.None? {
      return false, [], files, first, second;
    }
    var generator := new TierGenerator(lib, namespace, fails, loaded.value);
    LoadsEntered(loaded.value);
    ok := generator.Init();
    if !ok {
      return false, [], files, first, second;
    }
    ok, first, second := generator.CreateAll();
    trace := generator.trace;
    OnlyTheLastFails(AllSteps(lib, generator.templatesByTier, first, second), fails);
  }

  lemma OnlyTheLastFails(steps: seq<EnsureStep>, fails: Event -> bool)
    ensures var taken := Taken(steps, fails);
            && (forall i :: 0 <= i < |taken.trace| - 1 ==> !fails(taken.trace[i]))
            && (taken.ok ==> forall e :: e in taken.trace ==> !fails(e))
  {
    TraceOfSteps(steps, fails);
  }

  function Entered(tiers: Tiers): TierMap {
    map t | t in tiers :: TierData(tiers[t], [], [])
  }

  lemma LoadsEntered(tiers: Tiers)
    ensures Loads(Entered(tiers)) == tiers
  {
  }

  /** What loading and initialising make of the files. */
  ghost function Generated(lib: Library, namespace: string, input: Input, files: seq<string>): Option<TierMap>
    requires Loaded(input, files).Some? ==> BasesLoaded(Loaded(input, files).value)
  {
    match Loaded(input, files)
    case None => None
    case Some(tiers) =>
      LoadsEntered(tiers);
      Initialised(lib, namespace, Entered(tiers))
  }

  function AllSteps(lib: Library, m: TierMap, first: seq<string>, second: seq<string>): seq<EnsureStep>
    requires forall t :: t in first || t in second ==> t in m
  {
    Steps(lib, TemplatePass, m, first) + Steps(lib, TierPass, m, second)
  }

  lemma TakenInBothPasses(lib: Library, m: TierMap, first: seq<string>, second: seq<string>, fails: Event -> bool)
    requires forall t :: t in first || t in second ==> t in m
    ensures var x, y := Taken(Steps(lib, TemplatePass, m, first), fails), Taken(Steps(lib, TierPass, m, second), fails);
            Taken(AllSteps(lib, m, first, second), fails) == if x.ok then Ensured(x.trace + y.trace, y.ok) else x
  {
    TakenConcat(Steps(lib, TemplatePass, m, first), Steps(lib, TierPass, m, second), fails);
  }

  ghost function Members(order: seq<string>): set<string> {
    set t | t in order
  }

  lemma SortedMembers(order: seq<string>, keys: set<string>)
    requires IsSorted(order, keys)
    ensures Members(order) == keys
  {
  }

  lemma NotYet(order: seq<string>, i: nat)
    requires Increasing(order) && i < |order|
    ensures order[i] !in Members(order[..i]) && order[i] in Members(order)
    ensures Members(order[..i + 1]) == Members(order[..i]) + {order[i]}
  {
    LessIsTotal(order[i], order[i]);
    assert order[..i + 1] == order[..i] + [order[i]];
  }

  /** An order that begins with the tiers met before the error. */
  lemma FailedOrder(lib: Library, pass: Pass, m: TierMap, met: seq<string>, left: set<string>, fails: Event -> bool)
    returns (order: seq<string>)
    requires left <= m.Keys && IsOrder(met, m.Keys - left)
    requires !Taken(Steps(lib, pass, m, met), fails).ok
    ensures IsOrder(order, m.Keys)
    ensures Taken(Steps(lib, pass, m, order), fails) == Taken(Steps(lib, pass, m, met), fails)
  {
    order := CompleteOrder(met, left, m.Keys);
    var rest := order[|met|..];
    assert order == met + rest;
    assert forall t :: t in rest ==> t in order;
    ErrorEndsThePass(lib, pass, m, met, rest, fails);
  }

  lemma OneTaken(step: EnsureStep, fails: Event -> bool)
    ensures Taken([step], fails) ==
            if step.None? then Ensured([], false) else Ensured([step.value], !fails(step.value))
  {
  }

  lemma OneMoreTaken(steps: seq<EnsureStep>, i: nat, fails: Event -> bool)
    requires i < |steps| && steps[i].Some? && Taken(steps[..i], fails).ok
    ensures Taken(steps[..i + 1], fails) == Ensured(Taken(steps[..i], fails).trace + [steps[i].value], !fails(steps[i].value))
  {
    assert steps[..i + 1] == steps[..i] + [steps[i]];
    TakenConcat(steps[..i], [steps[i]], fails);
    OneTaken(steps[i], fails);
  }

  // ----- laws of the trace -----

  /** The calls made are the steps taken: a prefix of them, complete exactly on success, in which at most the
      last call failed. */
  lemma {:induction false} TraceOfSteps(steps: seq<EnsureStep>, fails: Event -> bool)
    ensures var taken := Taken(steps, fails);
            && |taken.trace| <= |steps|
            && (forall i :: 0 <= i < |taken.trace| ==> steps[i] == Some(taken.trace[i]))
            && (forall i :: 0 <= i < |taken.trace| - 1 ==> !fails(taken.trace[i]))
            && (taken.ok ==> |taken.trace| == |steps| && forall e :: e in taken.trace ==> !fails(e))
            && (!taken.ok ==> if taken.trace != [] && fails(taken.trace[|taken.trace| - 1]) then true
                              else |taken.trace| < |steps| && steps[|taken.trace|] == None)
  {
    if steps != [] && steps[0].Some? && !fails(steps[0].value) {
      TraceOfSteps(steps[1..], fails);
    }
  }

  lemma {:induction false} TemplateStepsAreAll(lib: Library, m: TierMap, order: seq<string>)
    requires forall t :: t in order ==> t in m
    ensures forall s :: s in Steps(lib, TemplatePass, m, order) ==> s.Some? && s.value.EnsureTemplate?
    ensures forall t, x :: t in order && x in m[t].tierTemplates ==>
              Some(EnsureTemplate(x, t)) in Steps(lib, TemplatePass, m, order)
  {
    if order != [] {
      TemplateStepsAreAll(lib, m, order[1..]);
      var here := TemplateStepsOf(m[order[0]], order[0]);
      forall t, x | t in order && x in m[t].tierTemplates
        ensures Some(EnsureTemplate(x, t)) in Steps(lib, TemplatePass, m, order)
      {
        if t == order[0] {
          var i :| 0 <= i < |m[t].tierTemplates| && m[t].tierTemplates[i] == x;
          assert here[i] == Some(EnsureTemplate(x, t));
        } else {
          assert t in order[1..];
        }
      }
    }
  }

  lemma {:induction false} TierStepsAreTiers(lib: Library, m: TierMap, order: seq<string>)
    requires forall t :: t in order ==> t in m
    ensures |Steps(lib, TierPass, m, order)| == |order|
    ensures forall i :: 0 <= i < |order| ==> Steps(lib, TierPass, m, order)[i] == TierStepOf(lib, m[order[i]], order[i])
  {
    if order != [] {
      TierStepsAreTiers(lib, m, order[1..]);
    }
  }

  /** In every trace, failed ones included: when an NSTemplateTier is ensured, every template of every tier
      has been ensured before, each successfully. */
  lemma TemplatesComeFirst(lib: Library, m: TierMap, first: seq<string>, second: seq<string>, fails: Event -> bool, k: nat)
    requires IsOrder(first, m.Keys) && IsOrder(second, m.Keys)
    requires k < |Taken(AllSteps(lib, m, first, second), fails).trace|
    requires Taken(AllSteps(lib, m, first, second), fails).trace[k].EnsureTier?
    ensures var before := Taken(AllSteps(lib, m, first, second), fails).trace[..k];
            && (forall e :: e in before ==> !fails(e))
            && forall t, x :: t in m && x in m[t].tierTemplates ==> EnsureTemplate(x, t) in before
  {
    var steps := AllSteps(lib, m, first, second);
    var templates := Steps(lib, TemplatePass, m, first);
    var trace := Taken(steps, fails).trace;
    TraceOfSteps(steps, fails);
    TemplateStepsAreAll(lib, m, first);
    var place := PlaceInSecond(templates, Steps(lib, TierPass, m, second), k);
    StepsAreTaken(templates, Steps(lib, TierPass, m, second), fails, k);
    forall t, x | t in m && x in m[t].tierTemplates ensures EnsureTemplate(x, t) in trace[..k] {
      assert Some(EnsureTemplate(x, t)) in templates;
    }
  }

  /** All steps of a first part are in the trace once it is longer than that part. */
  lemma StepsAreTaken(a: seq<EnsureStep>, b: seq<EnsureStep>, fails: Event -> bool, k: nat)
    requires |a| <= k < |Taken(a + b, fails).trace|
    ensures forall s :: s in a ==> s.Some? && s.value in Taken(a + b, fails).trace[..k]
  {
    var trace := Taken(a + b, fails).trace;
    TraceOfSteps(a + b, fails);
    forall i | 0 <= i < |a| ensures a[i].Some? && a[i].value in trace[..k] {
      assert (a + b)[i] == Some(trace[i]) && trace[..k][i] == trace[i];
    }
  }

  lemma PlaceInSecond(a: seq<EnsureStep>, b: seq<EnsureStep>, k: nat) returns (i: nat)
    requires k < |a + b| && (a + b)[k].Some? && (a + b)[k].value.EnsureTier?
    requires forall s :: s in a ==> s.Some? && s.value.EnsureTemplate?
    ensures i < |b| && i + |a| == k && b[i] == (a + b)[k]
  {
    assert forall j :: 0 <= j < |a| ==> (a + b)[j] == a[j] && a[j] in a;
    i := k - |a|;
  }

  /** Every ensured tier is the conversion of the one object of its tier, with the label. */
  lemma EnsuredTierIsTheObject(lib: Library, m: TierMap, first: seq<string>, second: seq<string>, fails: Event -> bool, k: nat)
    requires IsOrder(first, m.Keys) && IsOrder(second, m.Keys)
    requires k < |Taken(AllSteps(lib, m, first, second), fails).trace|
    requires Taken(AllSteps(lib, m, first, second), fails).trace[k].EnsureTier?
    ensures var event := Taken(AllSteps(lib, m, first, second), fails).trace[k];
            event.tier in m && TierStepOf(lib, m[event.tier], event.tier) == Some(event)
  {
    var templates, tiers := Steps(lib, TemplatePass, m, first), Steps(lib, TierPass, m, second);
    TraceOfSteps(templates + tiers, fails);
    TemplateStepsAreAll(lib, m, first);
    var i := PlaceInSecond(templates, tiers, k);
    TierStepsAreTiers(lib, m, second);
    assert second[i] in second;
  }

  /** The template references a tier object was processed with. */
  ghost function RefsOf(lib: Library, namespace: string, data: TierData): map<string, string> {
    References(lib, namespace, data.tierTemplates)
  }

  /** A reference names a template of the tier that is already ensured when the event at k is. */
  ghost predicate RefersToEnsured(lib: Library, trace: seq<Event>, k: nat, t: string, key: string, name: string)
    requires k < |trace|
  {
    exists x: TierTemplate :: EnsureTemplate(x, t) in trace[..k] && x.tierName == t && x.name == name && Under(lib, x.kind, key)
  }

  /** Reference integrity of every run, failed ones included: when an NSTemplateTier is ensured, it is made
      from an object processed with the references of its tier, and each of them names a TierTemplate of that
      same tier which has been ensured before, cluster resources under `CLUSTER_TEMPL_REF` and all others under
      their upper-cased kind. Every template is reachable by a key of its own exactly when the
      files the tier is made from yield distinct keys. */
  lemma ReferencesAreEnsuredFirst(
    lib: Library, namespace: string, tiers: Tiers, first: seq<string>, second: seq<string>, fails: Event -> bool, k: nat)
    requires BasesLoaded(Loads(Entered(tiers))) && Initialised(lib, namespace, Entered(tiers)).Some?
    requires var m := Initialised(lib, namespace, Entered(tiers)).value;
             && IsOrder(first, m.Keys) && IsOrder(second, m.Keys)
             && k < |Taken(AllSteps(lib, m, first, second), fails).trace|
             && Taken(AllSteps(lib, m, first, second), fails).trace[k].EnsureTier?
    ensures var m := Initialised(lib, namespace, Entered(tiers)).value;
            var trace := Taken(AllSteps(lib, m, first, second), fails).trace;
            var t := trace[k].tier;
            && t in tiers && TierStepOf(lib, m[t], t) == Some(trace[k])
            && Some(m[t].objects) == ObjectsOf(lib, namespace, Loads(Entered(tiers)), t, m[t].tierTemplates)
            && (forall key :: key in RefsOf(lib, namespace, m[t]) && key != "NAMESPACE" ==>
                  RefersToEnsured(lib, trace, k, t, key, RefsOf(lib, namespace, m[t])[key]))
            && RefersExactly(lib, namespace, m[t].tierTemplates, RefsOf(lib, namespace, m[t]))
            && ((exists x :: x in m[t].tierTemplates && x.kind == "clusterresources") ==>
                  "CLUSTER_TEMPL_REF" in RefsOf(lib, namespace, m[t]))
            && (AllHaveOwnKeys(lib, RefsOf(lib, namespace, m[t]), m[t].tierTemplates) <==>
                DistinctKeys(lib, SourcesOf(Entered(tiers), t)))
  {
    var m := Initialised(lib, namespace, Entered(tiers)).value;
    var trace := Taken(AllSteps(lib, m, first, second), fails).trace;
    var t := trace[k].tier;
    EnsuredTierIsTheObject(lib, m, first, second, fails, k);
    TemplatesComeFirst(lib, m, first, second, fails, k);
    OwnReferencesEnsured(lib, namespace, Entered(tiers), m, t, trace, k);
    OwnReferencesExactly(lib, namespace, m[t]);
  }

  lemma OwnReferencesExactly(lib: Library, namespace: string, data: TierData)
    ensures RefersExactly(lib, namespace, data.tierTemplates, RefsOf(lib, namespace, data))
    ensures (exists x :: x in data.tierTemplates && x.kind == "clusterresources") ==>
              "CLUSTER_TEMPL_REF" in RefsOf(lib, namespace, data)
  {
    ReferencesExactly(lib, namespace, data.tierTemplates);
    if x :| x in data.tierTemplates && x.kind == "clusterresources" {
      var i :| 0 <= i < |data.tierTemplates| && data.tierTemplates[i] == x;
      ClusterResourcesAreReferenced(lib, namespace, data.tierTemplates, i, RefsOf(lib, namespace, data));
    }
  }

  lemma OwnReferencesEnsured(lib: Library, namespace: string, entered: TierMap, m: TierMap, t: string, trace: seq<Event>, k: nat)
    requires BasesLoaded(Loads(entered)) && Initialised(lib, namespace, entered) == Some(m) && t in m && k < |trace|
    requires forall x :: x in m[t].tierTemplates ==> EnsureTemplate(x, t) in trace[..k]
    ensures t in entered && Some(m[t].objects) == ObjectsOf(lib, namespace, Loads(entered), t, m[t].tierTemplates)
    ensures forall key :: key in RefsOf(lib, namespace, m[t]) && key != "NAMESPACE" ==>
              RefersToEnsured(lib, trace, k, t, key, RefsOf(lib, namespace, m[t])[key])
    ensures AllHaveOwnKeys(lib, RefsOf(lib, namespace, m[t]), m[t].tierTemplates) <==>
            DistinctKeys(lib, SourcesOf(entered, t))
  {
    InitialisedKeys(lib, namespace, entered);
    InitialisedTier(lib, namespace, entered, t);
    TemplatesCarryTheirTier(lib, namespace, Loads(entered), t);
    ReferenceIntegrity(lib, namespace, m[t].tierTemplates);
    forall x: TierTemplate, key ensures Under(lib, x.kind, key) <==> RefKey(lib, x.kind) == key {
      UnderOneKey(lib, x.kind, key);
    }
    OwnKeysExactly(lib, TargetOf(namespace, Loads(entered)[t], t), SourcesOf(entered, t));
  }

  /** The files a tier is made from, in order. */
  ghost function SourcesOf(m: TierMap, t: string): seq<Source>
    requires BasesLoaded(Loads(m)) && t in m
  {
    Sources(SourceTier(Loads(m), t).raw)
  }

  lemma InitialisedKeys(lib: Library, namespace: string, m: TierMap)
    requires BasesLoaded(Loads(m)) && Initialised(lib, namespace, m).Some?
    ensures Initialised(lib, namespace, m).value.Keys == m.Keys
  {
  }

  /** Files that do not compete for a slot, in particular files ending in `.yaml`, give the same tiers, or the
      same failure, in whatever order they are met. */
  lemma GenerationIsConfluent(lib: Library, namespace: string, input: Input, a: seq<string>, b: seq<string>)
    requires ConflictFree(input) || forall n :: n in input.files ==> EndsWith(n, ".yaml")
    requires IsOrder(a, input.files.Keys) && IsOrder(b, input.files.Keys)
    requires Loaded(input, a).Some? ==> BasesLoaded(Loaded(input, a).value)
    ensures Loaded(input, b) == Loaded(input, a)
    ensures Generated(lib, namespace, input, b) == Generated(lib, namespace, input, a)
  {
    if !ConflictFree(input) {
      YamlFilesDoNotCompete(input);
    }
    ConflictFreeIsConfluent(input);
  }

  lemma SuccessTakesEveryStep(steps: seq<EnsureStep>, fails: Event -> bool)
    requires Taken(steps, fails).ok
    ensures forall s :: s in steps ==> s.Some? && s.value in Taken(steps, fails).trace
  {
  }

  /** On success every template and the one object of every tier has been ensured. */
  lemma SuccessEnsuresEverything(lib: Library, m: TierMap, first: seq<string>, second: seq<string>, fails: Event -> bool)
    requires IsOrder(first, m.Keys) && IsOrder(second, m.Keys)
    requires Taken(AllSteps(lib, m, first, second), fails).ok
    ensures var trace := Taken(AllSteps(lib, m, first, second), fails).trace;
            && (forall t, x :: t in m && x in m[t].tierTemplates ==> EnsureTemplate(x, t) in trace)
            && (forall t :: t in m ==>
                  TierStepOf(lib, m[t], t).Some? && TierStepOf(lib, m[t], t).value in trace)
  {
    var steps := AllSteps(lib, m, first, second);
    var trace := Taken(steps, fails).trace;
    SuccessTakesEveryStep(steps, fails);
    forall t, x | t in m && x in m[t].tierTemplates ensures EnsureTemplate(x, t) in trace {
      TemplateStepsAreAll(lib, m, first);
      assert Some(EnsureTemplate(x, t)) in steps;
    }
    forall t | t in m ensures TierStepOf(lib, m[t], t).Some? && TierStepOf(lib, m[t], t).value in trace {
      TierStepTaken(lib, m, second, t);
      assert TierStepOf(lib, m[t], t) in steps;
    }
  }

  lemma TierStepTaken(lib: Library, m: TierMap, order: seq<string>, t: string)
    requires t in order && forall x :: x in order ==> x in m
    ensures TierStepOf(lib, m[t], t) in Steps(lib, TierPass, m, order)
  {
    TierStepsAreTiers(lib, m, order);
    var i :| 0 <= i < |order| && order[i] == t;
    assert Steps(lib, TierPass, m, order)[i] == TierStepOf(lib, m[t], t);
  }

  // ----- names in the trace -----

  lemma TemplatesAreNamed(lib: Library, namespace: string, m: TierMap, t: string)
    requires BasesLoaded(Loads(m)) && Initialised(lib, namespace, m).Some? && t in m
    ensures t in Initialised(lib, namespace, m).value
    ensures forall x :: x in Initialised(lib, namespace, m).value[t].tierTemplates ==>
              x.tierName == t && x.name == lib.toLower(t + "-" + x.kind + "-" + x.revision)
  {
    InitialisedKeys(lib, namespace, m);
    InitialisedTier(lib, namespace, m, t);
    NamedAsMade(lib, TargetOf(namespace, Loads(m)[t], t), SourcesOf(m, t));
  }

  lemma NamedAsMade(lib: Library, target: Target, sources: seq<Source>)
    requires AllMade(lib, target, sources).Some?
    ensures forall x :: x in AllMade(lib, target, sources).value ==>
              x.tierName == target.tier && x.name == lib.toLower(target.tier + "-" + x.kind + "-" + x.revision)
  {
    MadeOneForOne(lib, target, sources);
  }

  /** The templates of the made tiers, by tier and position, have distinct names: ensuring one never overwrites
      another. */
  ghost predicate NamesDistinct(made: TierMap) {
    forall t, i: nat, t', i': nat ::
      t in made && i < |made[t].tierTemplates| && t' in made && i' < |made[t'].tierTemplates| && (t != t' || i != i') ==>
        made[t].tierTemplates[i].name != made[t'].tierTemplates[i'].name
  }

  /** Tier names and kinds have no hyphens, and the lower-casing has nothing to do. */
  ghost predicate PlainNames(lib: Library, made: TierMap) {
    forall t, i: nat :: t in made && i < |made[t].tierTemplates| ==>
      var x := made[t].tierTemplates[i];
      '-' !in t && '-' !in x.kind && lib.toLower(FullName(x)) == FullName(x)
  }

  /** Template i of a tier stands for file i the tier is made from. */
  lemma MadeFromFiles(lib: Library, namespace: string, m: TierMap, t: string)
    requires BasesLoaded(Loads(m)) && Initialised(lib, namespace, m).Some? && t in m
    ensures t in Initialised(lib, namespace, m).value
    ensures var xs, sources := Initialised(lib, namespace, m).value[t].tierTemplates, SourcesOf(m, t);
            && |xs| == |sources|
            && forall i :: 0 <= i < |xs| ==>
                 && xs[i].kind == sources[i].0
                 && xs[i].revision == Revision(TargetOf(namespace, Loads(m)[t], t).basedOnRevision, sources[i].1)
  {
    InitialisedKeys(lib, namespace, m);
    InitialisedTier(lib, namespace, m, t);
    PartsOfMade(lib, TargetOf(namespace, Loads(m)[t], t), SourcesOf(m, t));
  }

  lemma PartsOfMade(lib: Library, target: Target, sources: seq<Source>)
    requires AllMade(lib, target, sources).Some?
    ensures var xs := AllMade(lib, target, sources).value;
            && |xs| == |sources|
            && forall i :: 0 <= i < |xs| ==>
                 xs[i].kind == sources[i].0 && xs[i].revision == Revision(target.basedOnRevision, sources[i].1)
  {
    MadeOneForOne(lib, target, sources);
  }

  lemma TwinsExactly(lib: Library, namespace: string, m: TierMap, t: string, i: nat, j: nat)
    requires BasesLoaded(Loads(m)) && Initialised(lib, namespace, m).Some? && t in m
    requires t in Initialised(lib, namespace, m).value
    requires i < |Initialised(lib, namespace, m).value[t].tierTemplates| == |SourcesOf(m, t)|
    requires j < |Initialised(lib, namespace, m).value[t].tierTemplates|
    ensures var xs := Initialised(lib, namespace, m).value[t].tierTemplates;
            && (xs[i].kind == xs[j].kind && xs[i].revision == xs[j].revision <==> Twins(SourcesOf(m, t)[i], SourcesOf(m, t)[j]))
            && (Twins(SourcesOf(m, t)[i], SourcesOf(m, t)[j]) ==> xs[i].name == xs[j].name)
  {
    MadeFromFiles(lib, namespace, m, t);
    TemplatesAreNamed(lib, namespace, m, t);
    var sources := SourcesOf(m, t);
    RevisionsTellApart(TargetOf(namespace, Loads(m)[t], t).basedOnRevision, sources[i].1, sources[j].1);
    var xs := Initialised(lib, namespace, m).value[t].tierTemplates;
    assert xs[i] in xs && xs[j] in xs;
  }

  /** With plain names, no ensured template overwrites another if and only if no tier is made from two files of
      one kind and revision. */
  lemma EnsuredNamesAreUnique(lib: Library, namespace: string, m: TierMap)
    requires BasesLoaded(Loads(m)) && Initialised(lib, namespace, m).Some?
    requires PlainNames(lib, Initialised(lib, namespace, m).value)
    ensures NamesDistinct(Initialised(lib, namespace, m).value) <==> forall t :: t in m ==> NoTwins(SourcesOf(m, t))
  {
    var made := Initialised(lib, namespace, m).value;
    InitialisedKeys(lib, namespace, m);
    if NamesDistinct(made) {
      forall t | t in m ensures NoTwins(SourcesOf(m, t)) {
        DistinctNamesNoTwins(lib, namespace, m, t);
      }
    }
    if forall t :: t in m ==> NoTwins(SourcesOf(m, t)) {
      forall t, i: nat, t', i': nat | t in made && i < |made[t].tierTemplates| && t' in made
                                      && i' < |made[t'].tierTemplates| && (t != t' || i != i')
        ensures made[t].tierTemplates[i].name != made[t'].tierTemplates[i'].name
      {
        NoTwinsDistinctNames(lib, namespace, m, t, i, t', i');
      }
    }
  }

  lemma DistinctNamesNoTwins(lib: Library, namespace: string, m: TierMap, t: string)
    requires BasesLoaded(Loads(m)) && Initialised(lib, namespace, m).Some? && t in m
    requires NamesDistinct(Initialised(lib, namespace, m).value)
    ensures NoTwins(SourcesOf(m, t))
  {
    MadeFromFiles(lib, namespace, m, t);
    forall i, j | 0 <= i < j < |SourcesOf(m, t)| ensures !Twins(SourcesOf(m, t)[i], SourcesOf(m, t)[j]) {
      TwinsExactly(lib, namespace, m, t, i, j);
    }
  }

  lemma NoTwinsDistinctNames(lib: Library, namespace: string, m: TierMap, t: string, i: nat, t': string, i': nat)
    requires BasesLoaded(Loads(m)) && Initialised(lib, namespace, m).Some? && t in m && t' in m
    requires PlainNames(lib, Initialised(lib, namespace, m).value) && NoTwins(SourcesOf(m, t))
    requires t in Initialised(lib, namespace, m).value && t' in Initialised(lib, namespace, m).value
    requires i < |Initialised(lib, namespace, m).value[t].tierTemplates|
    requires i' < |Initialised(lib, namespace, m).value[t'].tierTemplates| && (t != t' || i != i')
    ensures Initialised(lib, namespace, m).value[t].tierTemplates[i].name !=
            Initialised(lib, namespace, m).value[t'].tierTemplates[i'].name
  {
    var made := Initialised(lib, namespace, m).value;
    var x, x' := made[t].tierTemplates[i], made[t'].tierTemplates[i'];
    TemplatesAreNamed(lib, namespace, m, t);
    TemplatesAreNamed(lib, namespace, m, t');
    assert x in made[t].tierTemplates && x' in made[t'].tierTemplates;
    PlainNamesAreUnique(lib, x, x');
    if t == t' {
      MadeFromFiles(lib, namespace, m, t);
      TwinsExactly(lib, namespace, m, t, if i < i' then i else i', if i < i' then i' else i);
    }
  }

  /** In general two ensured templates share a name exactly when their tiers and the rests of their names meet. */
  lemma EnsuredNamesMeetExactly(
    lib: Library, namespace: string, m: TierMap, t: string, x: TierTemplate, t': string, x': TierTemplate)
    requires BasesLoaded(Loads(m)) && Initialised(lib, namespace, m).Some? && t in m && t' in m
    requires var made := Initialised(lib, namespace, m).value;
             t in made && t' in made && x in made[t].tierTemplates && x' in made[t'].tierTemplates
    requires lib.toLower(FullName(x)) == FullName(x) && lib.toLower(FullName(x')) == FullName(x')
    ensures x.name == x'.name <==> Meets(t, Joined(x.kind, x.revision), t', Joined(x'.kind, x'.revision))
  {
    TemplatesAreNamed(lib, namespace, m, t);
    TemplatesAreNamed(lib, namespace, m, t');
    NamesMeetExactly(lib, x, x');
  }

  /** The files of a tier are those of one namespace and one space role of one kind and revision, such as
      `ns_admin.yaml` and `spacerole_admin.yaml` without revisions in the metadata. */
  ghost predicate TwinFiles(input: Input, t: string, kind: string) {
    var n, m := FileName(Slot(t, NamespaceFile(kind))), FileName(Slot(t, SpaceRoleFile(kind)));
    && '/' !in t && '/' !in PartFileName(NamespaceFile(kind)) && '/' !in PartFileName(SpaceRoleFile(kind))
    && input.files.Keys == {n, m} && n in input.files && m in input.files
    && TemplateOf(input, n).revision == TemplateOf(input, m).revision
  }

  /** What the two files load as. */
  function TwinTier(t: string, kind: string, n: Template, m: Template): Tier {
    Tier(t, NO_TEMPLATES.(namespaceTemplates := map[kind := n], spaceroleTemplates := map[kind := m]), None)
  }

  lemma LoadedTwins(input: Input, t: string, kind: string, n: string, m: string)
    requires input.files.Keys == {n, m} && n in input.files && m in input.files
    requires SlotOf(n) == Some(Slot(t, NamespaceFile(kind))) && SlotOf(m) == Some(Slot(t, SpaceRoleFile(kind)))
    ensures IsOrder([n, m], input.files.Keys)
    ensures Loaded(input, [n, m]) == Some(map[t := TwinTier(t, kind, TemplateOf(input, n), TemplateOf(input, m))])
  {
    TwoDispatched(input, n, m);
    TwoSlots(t, kind, TemplateOf(input, n), TemplateOf(input, m), input.parse(input.files[n]), input.parse(input.files[m]));
  }

  lemma TwoSlots(t: string, kind: string, n: Template, m: Template, parsed: Option<BasedOn>, parsed': Option<BasedOn>)
    ensures WithSlot(WithSlot(map[], Slot(t, NamespaceFile(kind)), n, parsed), Slot(t, SpaceRoleFile(kind)), m, parsed') ==
            map[t := TwinTier(t, kind, n, m)]
    ensures !AnyMixed(map[t := TwinTier(t, kind, n, m)])
  {
  }

  /** So a hyphen-free tier can lose a template: such files yield two templates of one name, with the contents of
      the one file and of the other. */
  lemma TwinFilesShareAName(lib: Library, namespace: string, input: Input, t: string, kind: string) returns (tiers: Tiers)
    requires TwinFiles(input, t, kind) && forall n :: n in input.files ==> lib.decode(input.files[n]).Some?
    ensures Loaded(input, [FileName(Slot(t, NamespaceFile(kind))), FileName(Slot(t, SpaceRoleFile(kind)))]) == Some(tiers)
    ensures t in tiers && BasesLoaded(tiers)
    ensures var made := TemplatesOf(lib, namespace, tiers, t);
            && made.Some? && |made.value| == 2 && made.value[0].name == made.value[1].name
            && Some(made.value[0].template) == lib.decode(input.files[FileName(Slot(t, NamespaceFile(kind)))])
            && Some(made.value[1].template) == lib.decode(input.files[FileName(Slot(t, SpaceRoleFile(kind)))])
  {
    var n, m := FileName(Slot(t, NamespaceFile(kind))), FileName(Slot(t, SpaceRoleFile(kind)));
    SlotOfFileName(Slot(t, NamespaceFile(kind)));
    SlotOfFileName(Slot(t, SpaceRoleFile(kind)));
    LoadedTwins(input, t, kind, n, m);
    var tier := TwinTier(t, kind, TemplateOf(input, n), TemplateOf(input, m));
    tiers := map[t := tier];
    MadeOfTwins(lib, namespace, tier, t, kind, TemplateOf(input, n), TemplateOf(input, m));
  }

  lemma MadeOfTwins(lib: Library, namespace: string, tier: Tier, t: string, kind: string, n: Template, m: Template)
    requires tier == TwinTier(t, kind, n, m) && n.revision == m.revision
    requires lib.decode(n.content).Some? && lib.decode(m.content).Some?
    ensures var made := AllMade(lib, TargetOf(namespace, tier, t), Sources(tier.raw));
            && made.Some? && |made.value| == 2 && made.value[0].name == made.value[1].name
            && Some(made.value[0].template) == lib.decode(n.content) && Some(made.value[1].template) == lib.decode(m.content)
  {
    TwinSources(tier.raw, kind);
    MadeOneForOne(lib, TargetOf(namespace, tier, t), Sources(tier.raw));
    WithNoParams(lib.decode(n.content).value);
    WithNoParams(lib.decode(m.content).value);
  }

  lemma TwinSources(raw: RawTemplates, kind: string)
    requires raw.namespaceTemplates.Keys == {kind} == raw.spaceroleTemplates.Keys && raw.clusterTemplate == None
    ensures Sources(raw) == [(kind, raw.namespaceTemplates[kind]), (kind, raw.spaceroleTemplates[kind])]
  {
    SortedIsUnique(Sorted({kind}), [kind], {kind});
  }

  // ----- the provider label -----

  predicate HasProviderLabel(tier: NSTemplateTier) {
    && tier.labels.Some? && "toolchain.dev.openshift.com/provider" in tier.labels.value
    && tier.labels.value["toolchain.dev.openshift.com/provider"] == "codeready-toolchain"
  }

  /** In every trace, an ensured tier carries the provider label exactly when the object of its tier converts
      to one with a label map; nothing else distinguishes the two. */
  lemma ProviderLabelExactly(lib: Library, m: TierMap, first: seq<string>, second: seq<string>, fails: Event -> bool, k: nat)
    requires IsOrder(first, m.Keys) && IsOrder(second, m.Keys)
    requires k < |Taken(AllSteps(lib, m, first, second), fails).trace|
    requires Taken(AllSteps(lib, m, first, second), fails).trace[k].EnsureTier?
    ensures var event := Taken(AllSteps(lib, m, first, second), fails).trace[k];
            && event.tier in m && |m[event.tier].objects| == 1
            && var converted := lib.convert(m[event.tier].objects[0]);
               && converted.Some?
               && (HasProviderLabel(event.nsTemplateTier) <==> converted.value.labels.Some?)
               && event.nsTemplateTier.(labels := None) == converted.value.(labels := None)
               && (converted.value.labels.Some? ==>
                     event.nsTemplateTier.labels ==
                     Some(converted.value.labels.value["toolchain.dev.openshift.com/provider" := "codeready-toolchain"]))
  {
    EnsuredTierIsTheObject(lib, m, first, second, fails, k);
  }

  /** A tier whose files are a tier.yaml alone. */
  ghost predicate OnlyTierFile(input: Input, t: string) {
    '/' !in t && input.files.Keys == {t + "/" + "tier.yaml"}
  }

  lemma LoadedTierFile(input: Input, t: string)
    requires OnlyTierFile(input, t)
    ensures var name := t + "/" + "tier.yaml";
            && IsOrder([name], input.files.Keys)
            && Loaded(input, [name]) ==
               Some(map[t := Tier(t, NO_TEMPLATES.(nsTemplateTier := Some(TemplateOf(input, name))), None)])
  {
    var name := t + "/" + "tier.yaml";
    assert name in input.files;
    assert PartOf("tier.yaml") == Some(TierFile);
    SlotInTier(t, "tier.yaml");
    assert Dispatched(input, []) == map[];
    OneMoreDispatched(input, [], name);
    assert [] + [name] == [name];
  }

  function RenamedAs(o: TierObject, t: string): TierObject {
    o.(name := ReplaceFirst(o.name, t, t))
  }

  /** A library that makes of a tier file one object, which converts to the given tier. */
  ghost predicate MakesTier(lib: Library, namespace: string, content: string, t: string, made: TierObject, tier: NSTemplateTier) {
    && lib.decode(content).Some? && lib.process(lib.decode(content).value, map["NAMESPACE" := namespace]) == Some([made])
    && made.unstructured && lib.convert(RenamedAs(made, t)) == Some(tier)
  }

  /** So a run can succeed and ensure a tier without the label: for instance one with a single tier.yaml whose
      object comes without labels. */
  lemma UnlabelledTiersAreEnsured(
    lib: Library, namespace: string, input: Input, t: string, made: TierObject, tier: NSTemplateTier)
    returns (m: TierMap)
    requires OnlyTierFile(input, t) && tier.labels == None
    requires MakesTier(lib, namespace, input.files[t + "/" + "tier.yaml"], t, made, tier)
    ensures var name := t + "/" + "tier.yaml";
            && Loaded(input, [name]).Some? && BasesLoaded(Loaded(input, [name]).value)
            && Generated(lib, namespace, input, [name]) == Some(m) && IsOrder([t], m.Keys)
    ensures Taken(AllSteps(lib, m, [t], [t]), (e: Event) => false) == Ensured([EnsureTier(tier, t)], true)
    ensures !HasProviderLabel(tier)
  {
    var data := GeneratedTierFile(lib, namespace, input, t, made);
    m := map[t := data];
    UnlabelledStep(lib, data, t, tier);
    StepsOfTierFile(lib, m, t, tier);
  }

  lemma UnlabelledStep(lib: Library, data: TierData, t: string, tier: NSTemplateTier)
    requires |data.objects| == 1 && data.objects[0].unstructured
    requires lib.convert(data.objects[0]) == Some(tier) && tier.labels == None
    ensures TierStepOf(lib, data, t) == Some(EnsureTier(tier, t))
  {
  }

  lemma GeneratedTierFile(lib: Library, namespace: string, input: Input, t: string, made: TierObject) returns (data: TierData)
    requires OnlyTierFile(input, t)
    requires var content := input.files[t + "/" + "tier.yaml"];
             lib.decode(content).Some? && lib.process(lib.decode(content).value, map["NAMESPACE" := namespace]) == Some([made])
    ensures data.tierTemplates == [] && data.objects == [RenamedAs(made, t)]
    ensures var name := t + "/" + "tier.yaml";
            && Loaded(input, [name]).Some? && BasesLoaded(Loaded(input, [name]).value)
            && Generated(lib, namespace, input, [name]) == Some(map[t := data])
  {
    LoadedTierFile(input, t);
    var tiers := Loaded(input, [t + "/" + "tier.yaml"]).value;
    InitialisedTierFile(lib, namespace, tiers, t, made);
    data := TierData(tiers[t], [], [RenamedAs(made, t)]);
  }

  /** The tier is loaded from a tier.yaml alone. */
  ghost predicate IsTierFile(tiers: Tiers, t: string) {
    && tiers.Keys == {t} && tiers[t].basedOn == None && tiers[t].raw.nsTemplateTier.Some?
    && tiers[t].raw == NO_TEMPLATES.(nsTemplateTier := tiers[t].raw.nsTemplateTier)
  }

  lemma InitialisedTierFile(lib: Library, namespace: string, tiers: Tiers, t: string, made: TierObject)
    requires IsTierFile(tiers, t)
    requires var content := tiers[t].raw.nsTemplateTier.value.content;
             lib.decode(content).Some? && lib.process(lib.decode(content).value, map["NAMESPACE" := namespace]) == Some([made])
    ensures Loads(Entered(tiers)) == tiers && BasesLoaded(tiers)
    ensures Initialised(lib, namespace, Entered(tiers)) == Some(map[t := TierData(tiers[t], [], [RenamedAs(made, t)])])
  {
    LoadsEntered(tiers);
    var m := Entered(tiers);
    FilledTemplates(lib, namespace, m, t);
    FilledObjects(lib, namespace, m, t, made);
    AllFilledOne(m, Fill(lib, namespace, TierPass, m), t, m[t].(objects := [RenamedAs(made, t)]));
  }

  lemma FilledTemplates(lib: Library, namespace: string, m: TierMap, t: string)
    requires IsTierFile(Loads(m), t) && m.Keys == {t} && BasesLoaded(Loads(m)) && m[t].tierTemplates == []
    ensures AllFilled(m, Fill(lib, namespace, TemplatePass, m)) == Some(m)
  {
    NoSources(m[t].tier.raw);
    assert Loads(m)[t] == m[t].tier;
    assert TemplatesOf(lib, namespace, Loads(m), t) == Some([]);
    AllFilledOne(m, Fill(lib, namespace, TemplatePass, m), t, m[t]);
    assert map[t := m[t]] == m;
  }

  lemma FilledObjects(lib: Library, namespace: string, m: TierMap, t: string, made: TierObject)
    requires IsTierFile(Loads(m), t) && t in m && BasesLoaded(Loads(m)) && m[t].tierTemplates == []
    requires Loads(m)[t] == m[t].tier
    requires var content := m[t].tier.raw.nsTemplateTier.value.content;
             lib.decode(content).Some? && lib.process(lib.decode(content).value, map["NAMESPACE" := namespace]) == Some([made])
    ensures Fill(lib, namespace, TierPass, m)(t) == Some(m[t].(objects := [RenamedAs(made, t)]))
  {
    WithNoParams(lib.decode(m[t].tier.raw.nsTemplateTier.value.content).value);
    assert Renamed([made], t, t) == [RenamedAs(made, t)];
    assert ObjectsOf(lib, namespace, Loads(m), t, []) == Some([RenamedAs(made, t)]);
  }

  lemma WithNoParams(decoded: TemplateObject)
    ensures WithParamsSet(decoded, []) == decoded
  {
    assert WithParams(decoded.parameters, []) == decoded.parameters;
  }

  lemma NoSources(raw: RawTemplates)
    requires raw.clusterTemplate == None && raw.namespaceTemplates == map[] && raw.spaceroleTemplates == map[]
    ensures Sources(raw) == []
  {
    EmptySorted(Sorted({}), {});
    assert raw.namespaceTemplates.Keys == {} && raw.spaceroleTemplates.Keys == {};
  }

  lemma AllFilledOne(m: TierMap, fill: Filling, t: string, data: TierData)
    requires m.Keys == {t} && fill(t) == Some(data)
    ensures AllFilled(m, fill) == Some(map[t := data])
  {
    assert (map x | x in m :: fill(x).value) == map[t := data];
  }

  lemma StepsOfTierFile(lib: Library, m: TierMap, t: string, tier: NSTemplateTier)
    requires m.Keys == {t} && m[t].tierTemplates == [] && TierStepOf(lib, m[t], t) == Some(EnsureTier(tier, t))
    ensures Taken(AllSteps(lib, m, [t], [t]), (e: Event) => false) == Ensured([EnsureTier(tier, t)], true)
  {
    StepsOfOne(lib, TemplatePass, m, t);
    StepsOfOne(lib, TierPass, m, t);
    OneTaken(Some(EnsureTier(tier, t)), (e: Event) => false);
    assert AllSteps(lib, m, [t], [t]) == [Some(EnsureTier(tier, t))];
  }
}
