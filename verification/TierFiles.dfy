/** Dispatching template files by tier (pkg/template/nstemplatetiers/nstemplatetier_generator.go,
    loadTemplatesByTiers). */
module TierFiles {
  import opened Strings
  import opened Wrappers

  datatype Template = Template(revision: string, content: string)

  datatype Parameter = Parameter(name: string, value: string)

  /** The parsed `based_on_tier.yaml`. */
  datatype BasedOn = BasedOn(from: string, parameters: seq<Parameter>)

  datatype RawTemplates = RawTemplates(
    nsTemplateTier: Option<Template>,
    clusterTemplate: Option<Template>,
    namespaceTemplates: map<string, Template>,
    spaceroleTemplates: map<string, Template>,
    basedOnTier: Option<Template>)

  datatype Tier = Tier(name: string, raw: RawTemplates, basedOn: Option<BasedOn>)

  type Tiers = map<string, Tier>

  /** The given revisions and contents, and the YAML parser for based-on files. */
  datatype Input = Input(metadata: map<string, string>, files: map<string, string>, parse: string -> Option<BasedOn>)

  // ----- where a file goes -----

  datatype Part = TierFile | ClusterFile | NamespaceFile(kind: string) | SpaceRoleFile(role: string) | BasedOnFile

  datatype Slot = Slot(tier: string, part: Part)

  function PartOf(filename: string): Option<Part> {
    if filename == "tier.yaml" then Some(TierFile)
    else if filename == "cluster.yaml" then Some(ClusterFile)
    else if "ns_" <= filename then Some(NamespaceFile(TrimSuffix(filename[3..], ".yaml")))
    else if "spacerole_" <= filename then Some(SpaceRoleFile(TrimSuffix(filename[10..], ".yaml")))
    else if filename == "based_on_tier.yaml" then Some(BasedOnFile)
    else None
  }

  /** A name of exactly two parts, the second of them known. */
  function SlotOf(name: string): Option<Slot> {
    var i := IndexOfSlash(name);
    if i == |name| || '/' in name[i + 1..] then None
    else
      match PartOf(name[i + 1..])
      case None => None
      case Some(part) => Some(Slot(name[..i], part))
  }

  function TemplateOf(input: Input, name: string): Template
    requires name in input.files
  {
    var key := TrimSuffix(name, ".yaml");
    Template(if key in input.metadata then input.metadata[key] else "", input.files[name])
  }

  /** The file can be dispatched at all. */
  predicate Accepted(input: Input, name: string)
    requires name in input.files
  {
    var slot := SlotOf(name);
    slot.Some? && (slot.value.part.BasedOnFile? ==> input.parse(input.files[name]).Some?)
  }

  // ----- dispatching -----

  const NO_TEMPLATES := RawTemplates(None, None, map[], map[], None)

  function WithPart(tier: Tier, part: Part, template: Template, parsed: Option<BasedOn>): Tier {
    match part
    case TierFile => tier.(raw := tier.raw.(nsTemplateTier := Some(template)))
    case ClusterFile => tier.(raw := tier.raw.(clusterTemplate := Some(template)))
    case NamespaceFile(kind) =>
      tier.(raw := tier.raw.(namespaceTemplates := tier.raw.namespaceTemplates[kind := template]))
    case SpaceRoleFile(role) =>
      tier.(raw := tier.raw.(spaceroleTemplates := tier.raw.spaceroleTemplates[role := template]))
    case BasedOnFile => tier.(raw := tier.raw.(basedOnTier := Some(template)), basedOn := parsed)
  }

  /** The tier is entered when it is met for the first time. */
  function WithSlot(tiers: Tiers, slot: Slot, template: Template, parsed: Option<BasedOn>): Tiers {
    var tier := if slot.tier in tiers then tiers[slot.tier] else Tier(slot.tier, NO_TEMPLATES, None);
    tiers[slot.tier := WithPart(tier, slot.part, template, parsed)]
  }

  function WithFile(input: Input, tiers: Tiers, name: string): Tiers
    requires name in input.files && Accepted(input, name)
  {
    WithSlot(tiers, SlotOf(name).value, TemplateOf(input, name), input.parse(input.files[name]))
  }

  ghost predicate AllAccepted(input: Input, names: seq<string>) {
    forall n :: n in names ==> n in input.files && Accepted(input, n)
  }

  ghost function Dispatched(input: Input, names: seq<string>): Tiers
    requires AllAccepted(input, names)
  {
    if names == [] then map[]
    else WithFile(input, Dispatched(input, names[..|names| - 1]), names[|names| - 1])
  }

  /** A tier with a based-on file and another template file, space roles aside. */
  predicate Mixed(tier: Tier) {
    && tier.raw.basedOnTier.Some?
    && (tier.raw.clusterTemplate.Some? || |tier.raw.namespaceTemplates| > 0 || tier.raw.nsTemplateTier.Some?)
  }

  predicate AnyMixed(tiers: Tiers) {
    exists t :: t in tiers && Mixed(tiers[t])
  }

  /** An order in which the files map may be iterated. */
  ghost predicate IsOrder(names: seq<string>, keys: set<string>) {
    && (forall n :: n in names <==> n in keys)
    && forall i, j :: 0 <= i < j < |names| ==> names[i] != names[j]
  }

  /** What loading yields when the files are met in the given order. */
  ghost function Loaded(input: Input, names: seq<string>): Option<Tiers> {
    if !AllAccepted(input, names) || AnyMixed(Dispatched(input, names)) then None else Some(Dispatched(input, names))
  }

  /** loadTemplatesByTiers, iterating both maps in arbitrary orders. */
  method LoadTemplatesByTiers(input: Input) returns (result: Option<Tiers>, ghost order: seq<string>)
    ensures IsOrder(order, input.files.Keys)
    ensures result == Loaded(input, order)
    ensures SameInEveryOrder(input, result)
  {
    var dispatched;
    dispatched, order := DispatchFiles(input);
    LoadedInEveryOrder(input, order);
    if dispatched.None? {
      return None, order;
    }
    var mixed := HasMixed(dispatched.value);
    result := if mixed then None else dispatched;
  }

  /** The loop over the files, up to the first that cannot be dispatched. */
  method DispatchFiles(input: Input) returns (results: Option<Tiers>, ghost order: seq<string>)
    ensures IsOrder(order, input.files.Keys)
    ensures results == if AllAccepted(input, order) then Some(Dispatched(input, order)) else None
  {
    var tiers: Tiers := map[];
    order := [];
    var left := input.files.Keys;
    while left != {}
      invariant left <= input.files.Keys && IsOrder(order, input.files.Keys - left)
      invariant AllAccepted(input, order) && tiers == Dispatched(input, order)
      decreases left
    {
      var name :| name in left;
      if !Accepted(input, name) {
        order := CompleteOrder(order, left, input.files.Keys);
        assert name in order;
        return None, order;
      }
      OneMoreInOrder(order, left, input.files.Keys, name);
      OneMoreDispatched(input, order, name);
      tiers := WithFile(input, tiers, name);
      order, left := order + [name], left - {name};
    }
    return Some(tiers), order;
  }

  /** The loop that looks for a tier with a mix of files. */
  method HasMixed(tiers: Tiers) returns (mixed: bool)
    ensures mixed <==> AnyMixed(tiers)
  {
    var left := tiers.Keys;
    while left != {}
      invariant left <= tiers.Keys && forall t :: t in tiers && t !in left ==> !Mixed(tiers[t])
      decreases left
    {
      var tier :| tier in left;
      if Mixed(tiers[tier]) {
        return true;
      }
      left := left - {tier};
    }
    return false;
  }

  lemma OneMoreDispatched(input: Input, names: seq<string>, next: string)
    requires AllAccepted(input, names) && next in input.files && Accepted(input, next)
    ensures AllAccepted(input, names + [next])
    ensures Dispatched(input, names + [next]) == WithFile(input, Dispatched(input, names), next)
  {
    assert (names + [next])[..|names|] == names;
  }

  lemma OneMoreInOrder(names: seq<string>, left: set<string>, keys: set<string>, next: string)
    requires left <= keys && IsOrder(names, keys - left) && next in left
    ensures IsOrder(names + [next], keys - (left - {next}))
  {
  }

  lemma AnyOrder(keys: set<string>) returns (order: seq<string>)
    ensures IsOrder(order, keys)
  {
    order := CompleteOrder([], keys, keys);
  }

  lemma {:induction false} CompleteOrder(names: seq<string>, left: set<string>, keys: set<string>) returns (order: seq<string>)
    requires left <= keys && IsOrder(names, keys - left)
    ensures IsOrder(order, keys) && names <= order
    decreases left
  {
    if left == {} {
      order := names;
    } else {
      var n :| n in left;
      OneMoreInOrder(names, left, keys, n);
      order := CompleteOrder(names + [n], left - {n}, keys);
    }
  }

  // ----- what a slot holds -----

  /** The template a slot of the loaded tiers holds. */
  function Get(tiers: Tiers, slot: Slot): Option<Template> {
    if slot.tier !in tiers then None
    else
      var raw := tiers[slot.tier].raw;
      match slot.part
      case TierFile => raw.nsTemplateTier
      case ClusterFile => raw.clusterTemplate
      case NamespaceFile(kind) => if kind in raw.namespaceTemplates then Some(raw.namespaceTemplates[kind]) else None
      case SpaceRoleFile(role) => if role in raw.spaceroleTemplates then Some(raw.spaceroleTemplates[role]) else None
      case BasedOnFile => raw.basedOnTier
  }

  /** The template of the last file that goes into a slot. */
  ghost function LastInto(input: Input, names: seq<string>, slot: Slot): Option<Template>
    requires AllAccepted(input, names)
  {
    if names == [] then None
    else
      var n := |names| - 1;
      if SlotOf(names[n]) == Some(slot) then Some(TemplateOf(input, names[n])) else LastInto(input, names[..n], slot)
  }

  /** Nothing but the slots makes up the loaded tiers: each slot holds the template of the last file that
      goes there, tiers are those of the files, named as such, and a based-on file is kept parsed. */
  ghost predicate HeldBySlots(input: Input, names: seq<string>, tiers: Tiers)
    requires AllAccepted(input, names)
  {
    && (forall slot :: Get(tiers, slot) == LastInto(input, names, slot))
    && (forall t :: t in tiers <==> exists n :: n in names && SlotOf(n).value.tier == t)
    && (forall t :: t in tiers ==> tiers[t].name == t && tiers[t].basedOn == ParsedOf(input, tiers[t].raw.basedOnTier))
  }

  function ParsedOf(input: Input, template: Option<Template>): Option<BasedOn> {
    if template.Some? then input.parse(template.value.content) else None
  }

  lemma WithSlotBySlot(tiers: Tiers, slot: Slot, template: Template, parsed: Option<BasedOn>, other: Slot)
    ensures Get(WithSlot(tiers, slot, template, parsed), other) ==
            if other == slot then Some(template) else Get(tiers, other)
  {
  }

  lemma WithSlotKeepsParsed(input: Input, tiers: Tiers, slot: Slot, template: Template)
    requires forall t :: t in tiers ==> tiers[t].name == t && tiers[t].basedOn == ParsedOf(input, tiers[t].raw.basedOnTier)
    ensures var after := WithSlot(tiers, slot, template, input.parse(template.content));
            && after.Keys == tiers.Keys + {slot.tier}
            && forall t :: t in after ==>
                 after[t].name == t && after[t].basedOn == ParsedOf(input, after[t].raw.basedOnTier)
  {
  }

  lemma {:induction false} DispatchedBySlots(input: Input, names: seq<string>)
    requires AllAccepted(input, names)
    ensures HeldBySlots(input, names, Dispatched(input, names))
  {
    if names != [] {
      var n := |names| - 1;
      var name := names[n];
      var before := Dispatched(input, names[..n]);
      DispatchedBySlots(input, names[..n]);
      assert name in names;
      var slot, template := SlotOf(name).value, TemplateOf(input, name);
      OneMoreHeld(input, names, slot, template, before);
    }
  }

  lemma OneMoreHeld(input: Input, names: seq<string>, slot: Slot, template: Template, before: Tiers)
    requires names != [] && AllAccepted(input, names)
    requires SlotOf(names[|names| - 1]) == Some(slot) && TemplateOf(input, names[|names| - 1]) == template
    requires HeldBySlots(input, names[..|names| - 1], before)
    ensures HeldBySlots(input, names, WithSlot(before, slot, template, input.parse(template.content)))
  {
    OneMoreInSlots(input, names, slot, template, before);
    WithSlotKeepsParsed(input, before, slot, template);
    forall t ensures t in before || t == slot.tier <==> exists x :: x in names && SlotOf(x).value.tier == t {
      OneMoreTierNamed(input, names, t);
    }
  }

  lemma OneMoreInSlots(input: Input, names: seq<string>, slot: Slot, template: Template, before: Tiers)
    requires names != [] && AllAccepted(input, names)
    requires SlotOf(names[|names| - 1]) == Some(slot) && TemplateOf(input, names[|names| - 1]) == template
    requires forall s :: Get(before, s) == LastInto(input, names[..|names| - 1], s)
    ensures forall s :: Get(WithSlot(before, slot, template, input.parse(template.content)), s) == LastInto(input, names, s)
  {
    forall s ensures Get(WithSlot(before, slot, template, input.parse(template.content)), s) == LastInto(input, names, s) {
      assert Get(before, s) == LastInto(input, names[..|names| - 1], s);
      WithSlotBySlot(before, slot, template, input.parse(template.content), s);
    }
  }

  /** A tier of the names is one of those before the last, or that of the last. */
  lemma OneMoreTierNamed(input: Input, names: seq<string>, t: string)
    requires names != [] && AllAccepted(input, names) && AllAccepted(input, names[..|names| - 1])
    requires SlotOf(names[|names| - 1]).Some?
    ensures (exists x :: x in names && SlotOf(x).value.tier == t) <==>
            (exists x :: x in names[..|names| - 1] && SlotOf(x).value.tier == t) || SlotOf(names[|names| - 1]).value.tier == t
  {
    var n := |names| - 1;
    assert names[n] in names && forall x :: x in names <==> x in names[..n] || x == names[n];
  }

  lemma SlotsDetermineTiers(input: Input, names: seq<string>, a: Tiers, names': seq<string>, b: Tiers)
    requires AllAccepted(input, names) && AllAccepted(input, names')
    requires HeldBySlots(input, names, a) && HeldBySlots(input, names', b)
    requires forall n :: n in names <==> n in names'
    requires forall slot :: LastInto(input, names, slot) == LastInto(input, names', slot)
    ensures a == b
  {
    assert a.Keys == b.Keys by {
      forall t ensures t in a <==> t in b {
      }
    }
    forall t | t in a ensures a[t] == b[t] {
      forall part ensures Get(a, Slot(t, part)) == Get(b, Slot(t, part)) {
        assert LastInto(input, names, Slot(t, part)) == LastInto(input, names', Slot(t, part));
      }
      SamePartsSameTier(a, b, t);
    }
  }

  lemma SamePartsSameTier(a: Tiers, b: Tiers, t: string)
    requires t in a && t in b && forall part :: Get(a, Slot(t, part)) == Get(b, Slot(t, part))
    ensures a[t].raw == b[t].raw
  {
    assert Get(a, Slot(t, TierFile)) == Get(b, Slot(t, TierFile));
    assert Get(a, Slot(t, ClusterFile)) == Get(b, Slot(t, ClusterFile));
    assert Get(a, Slot(t, BasedOnFile)) == Get(b, Slot(t, BasedOnFile));
    var x, y := a[t].raw, b[t].raw;
    forall k ensures k in x.namespaceTemplates <==> k in y.namespaceTemplates
             ensures k in x.namespaceTemplates ==> x.namespaceTemplates[k] == y.namespaceTemplates[k]
    {
      assert Get(a, Slot(t, NamespaceFile(k))) == Get(b, Slot(t, NamespaceFile(k)));
    }
    assert x.namespaceTemplates == y.namespaceTemplates;
    forall k ensures k in x.spaceroleTemplates <==> k in y.spaceroleTemplates
             ensures k in x.spaceroleTemplates ==> x.spaceroleTemplates[k] == y.spaceroleTemplates[k]
    {
      assert Get(a, Slot(t, SpaceRoleFile(k))) == Get(b, Slot(t, SpaceRoleFile(k)));
    }
    assert x.spaceroleTemplates == y.spaceroleTemplates;
  }

  // ----- confluence -----

  /** No two files compete for one slot with different templates. */
  ghost predicate ConflictFree(input: Input) {
    forall m, n :: m in input.files && n in input.files && SlotOf(m).Some? && SlotOf(m) == SlotOf(n) ==>
      TemplateOf(input, m) == TemplateOf(input, n)
  }

  /** Every iteration order of the files gives the same result, be it the tiers or a failure. */
  ghost predicate Confluent(input: Input) {
    forall a, b :: IsOrder(a, input.files.Keys) && IsOrder(b, input.files.Keys) ==> Loaded(input, a) == Loaded(input, b)
  }

  lemma {:induction false} LastIntoIsOne(input: Input, names: seq<string>, slot: Slot)
    requires AllAccepted(input, names)
    ensures match LastInto(input, names, slot)
            case Some(t) => exists n :: n in names && SlotOf(n) == Some(slot) && TemplateOf(input, n) == t
            case None => forall n :: n in names ==> SlotOf(n) != Some(slot)
  {
    if names != [] {
      var n := |names| - 1;
      LastIntoIsOne(input, names[..n], slot);
      assert names[n] in names;
      assert names == names[..n] + [names[n]];
    }
  }

  lemma ConflictFreeIsConfluent(input: Input)
    requires ConflictFree(input)
    ensures Confluent(input)
  {
    forall a, b | IsOrder(a, input.files.Keys) && IsOrder(b, input.files.Keys)
      ensures Loaded(input, a) == Loaded(input, b)
    {
      if AllAccepted(input, a) && AllAccepted(input, b) {
        forall slot ensures LastInto(input, a, slot) == LastInto(input, b, slot) {
          LastIntoIsOne(input, a, slot);
          LastIntoIsOne(input, b, slot);
        }
        DispatchedBySlots(input, a);
        DispatchedBySlots(input, b);
        SlotsDetermineTiers(input, a, Dispatched(input, a), b, Dispatched(input, b));
      }
    }
  }

  /** Any order fails when this result is a failure, and only then; without conflicts it gives this result. */
  ghost predicate SameInEveryOrder(input: Input, result: Option<Tiers>) {
    forall order :: IsOrder(order, input.files.Keys) ==>
      (Loaded(input, order).None? <==> result.None?) && (ConflictFree(input) ==> Loaded(input, order) == result)
  }

  lemma LoadedInEveryOrder(input: Input, order: seq<string>)
    requires IsOrder(order, input.files.Keys)
    ensures SameInEveryOrder(input, Loaded(input, order))
  {
    forall other | IsOrder(other, input.files.Keys)
      ensures Loaded(input, other).None? <==> Loaded(input, order).None?
      ensures ConflictFree(input) ==> Loaded(input, other) == Loaded(input, order)
    {
      FailureIgnoresTheOrder(input, other, order);
      if ConflictFree(input) {
        ConflictFreeIsConfluent(input);
      }
    }
  }

  lemma OrderEndingWith(keys: set<string>, last: string) returns (order: seq<string>)
    requires last in keys
    ensures IsOrder(order, keys) && order != [] && order[|order| - 1] == last
  {
    var others := CompleteOrder([], keys - {last}, keys - {last});
    order := others + [last];
  }

  predicate Regular(part: Part) {
    part.TierFile? || part.ClusterFile? || part.NamespaceFile?
  }

  ghost predicate HasRegular(tiers: Tiers, t: string) {
    exists part :: Regular(part) && Get(tiers, Slot(t, part)).Some?
  }

  lemma MixedBySlots(tiers: Tiers, t: string)
    requires t in tiers
    ensures Mixed(tiers[t]) <==> Get(tiers, Slot(t, BasedOnFile)).Some? && HasRegular(tiers, t)
  {
    var raw := tiers[t].raw;
    assert Get(tiers, Slot(t, TierFile)) == raw.nsTemplateTier;
    assert Get(tiers, Slot(t, ClusterFile)) == raw.clusterTemplate;
    if |raw.namespaceTemplates| > 0 {
      var kind :| kind in raw.namespaceTemplates;
      assert Get(tiers, Slot(t, NamespaceFile(kind))).Some?;
    } else {
      assert forall kind :: Get(tiers, Slot(t, NamespaceFile(kind))).None?;
    }
  }

  /** Whether loading fails does not depend on the order, conflicts or not. */
  lemma FailureIgnoresTheOrder(input: Input, a: seq<string>, b: seq<string>)
    requires IsOrder(a, input.files.Keys) && IsOrder(b, input.files.Keys)
    ensures Loaded(input, a).None? <==> Loaded(input, b).None?
  {
    FailsExactly(input, a);
    FailsExactly(input, b);
  }

  // ----- failure and confluence, told from the files -----

  /** A based-on file and a file of another kind, space roles aside, for one tier. */
  predicate Mixes(m: string, n: string) {
    && SlotOf(m).Some? && SlotOf(n).Some? && SlotOf(m).value.tier == SlotOf(n).value.tier
    && SlotOf(m).value.part.BasedOnFile? && Regular(SlotOf(n).value.part)
  }

  /** The file has no known place, or is a based-on file that cannot be parsed. */
  predicate Misplaced(input: Input, name: string)
    requires name in input.files
  {
    SlotOf(name) == None || (SlotOf(name).value.part == BasedOnFile && input.parse(input.files[name]) == None)
  }

  /** Some file cannot be dispatched, or some tier mixes its files. */
  ghost predicate Refused(input: Input) {
    || (exists n :: n in input.files && Misplaced(input, n))
    || (exists m, n :: m in input.files && n in input.files && Mixes(m, n))
  }

  lemma HeldIfThere(input: Input, names: seq<string>, slot: Slot)
    requires AllAccepted(input, names)
    ensures Get(Dispatched(input, names), slot).Some? <==> exists n :: n in names && SlotOf(n) == Some(slot)
  {
    DispatchedBySlots(input, names);
    LastIntoIsOne(input, names, slot);
  }

  lemma MixedIfThere(input: Input, names: seq<string>)
    requires AllAccepted(input, names)
    ensures AnyMixed(Dispatched(input, names)) <==> exists m, n :: m in names && n in names && Mixes(m, n)
  {
    var tiers := Dispatched(input, names);
    if AnyMixed(tiers) {
      var t :| t in tiers && Mixed(tiers[t]);
      MixedBySlots(tiers, t);
      var part :| Regular(part) && Get(tiers, Slot(t, part)).Some?;
      HeldIfThere(input, names, Slot(t, part));
      HeldIfThere(input, names, Slot(t, BasedOnFile));
      var m :| m in names && SlotOf(m) == Some(Slot(t, BasedOnFile));
      var n :| n in names && SlotOf(n) == Some(Slot(t, part));
      assert Mixes(m, n);
    }
    if m, n :| m in names && n in names && Mixes(m, n) {
      var slot := SlotOf(n).value;
      HeldIfThere(input, names, slot);
      HeldIfThere(input, names, SlotOf(m).value);
      assert Get(tiers, Slot(slot.tier, slot.part)).Some?;
      MixedBySlots(tiers, slot.tier);
    }
  }

  /** In every order, loading fails exactly when some file is of no known place or cannot be parsed, or some
      tier mixes a based-on file with regular ones. */
  lemma FailsExactly(input: Input, order: seq<string>)
    requires IsOrder(order, input.files.Keys)
    ensures Loaded(input, order).None? <==> Refused(input)
  {
    if AllAccepted(input, order) {
      MixedIfThere(input, order);
    } else {
      var n :| n in order && !Accepted(input, n);
      assert n in input.files && Misplaced(input, n);
    }
  }

  /** Loading is confluent exactly when the files are refused, or no two of them compete for one slot with
      different templates. */
  lemma ConfluenceExactly(input: Input)
    ensures Confluent(input) <==> Refused(input) || ConflictFree(input)
  {
    var order := AnyOrder(input.files.Keys);
    FailsExactly(input, order);
    if ConflictFree(input) {
      ConflictFreeIsConfluent(input);
    } else if Refused(input) {
      forall a, b | IsOrder(a, input.files.Keys) && IsOrder(b, input.files.Keys)
        ensures Loaded(input, a) == Loaded(input, b)
      {
        FailsExactly(input, a);
        FailsExactly(input, b);
      }
    } else {
      var m, n :| m in input.files && n in input.files && SlotOf(m).Some? && SlotOf(m) == SlotOf(n)
                  && TemplateOf(input, m) != TemplateOf(input, n);
      var a, b := TwoOrders(input, order, m, n);
      assert Loaded(input, a) != Loaded(input, b);
    }
  }

  lemma NamespaceFilesAreNotRefused(input: Input)
    requires forall n :: n in input.files ==> SlotOf(n).Some? && SlotOf(n).value.part.NamespaceFile?
    ensures !Refused(input)
  {
  }

  /** Two files for one namespace make the tier depend on the iteration order. */
  lemma CompetingFiles(input: Input, m: string, n: string, slot: Slot)
    requires m in input.files && n in input.files && forall x :: x in input.files ==> SlotOf(x) == Some(slot)
    requires slot.part.NamespaceFile? && input.files[m] != input.files[n]
    ensures !ConflictFree(input) && !Confluent(input)
  {
    NamespaceFilesAreNotRefused(input);
    assert TemplateOf(input, m) != TemplateOf(input, n);
    ConfluenceExactly(input);
  }

  lemma SlotInTier(tier: string, filename: string)
    requires '/' !in tier && '/' !in filename && PartOf(filename).Some?
    ensures SlotOf(tier + "/" + filename) == Some(Slot(tier, PartOf(filename).value))
  {
    OneSlash(tier, filename);
  }

  lemma PartOfDev()
    ensures PartOf("ns_dev") == Some(NamespaceFile("dev"))
    ensures PartOf("ns_dev.yaml") == Some(NamespaceFile("dev"))
  {
    assert "ns_dev"[3..] == "dev" && "ns_dev.yaml"[3..] == "dev.yaml";
    assert !EndsWith("dev", ".yaml") && "dev.yaml"[3..] == ".yaml" && "dev.yaml"[..3] == "dev";
  }

  /** Files without the ending do compete: `ns_dev` with `ns_dev.yaml`. */
  lemma NamesWithoutEndingCompete(input: Input, tier: string)
    requires '/' !in tier && input.files.Keys == {tier + "/" + "ns_dev", tier + "/" + "ns_dev.yaml"}
    requires input.files[tier + "/" + "ns_dev"] != input.files[tier + "/" + "ns_dev.yaml"]
    ensures !ConflictFree(input) && !Confluent(input)
  {
    PartOfDev();
    SlotInTier(tier, "ns_dev");
    SlotInTier(tier, "ns_dev.yaml");
    CompetingFiles(input, tier + "/" + "ns_dev", tier + "/" + "ns_dev.yaml", Slot(tier, NamespaceFile("dev")));
  }

  lemma TwoOrders(input: Input, order: seq<string>, m: string, n: string) returns (a: seq<string>, b: seq<string>)
    requires IsOrder(order, input.files.Keys) && Loaded(input, order).Some?
    requires m in input.files && n in input.files && SlotOf(m).Some? && SlotOf(m) == SlotOf(n)
    requires TemplateOf(input, m) != TemplateOf(input, n)
    ensures IsOrder(a, input.files.Keys) && IsOrder(b, input.files.Keys) && Loaded(input, a) != Loaded(input, b)
  {
    a := OrderEndingWith(input.files.Keys, m);
    b := OrderEndingWith(input.files.Keys, n);
    FailureIgnoresTheOrder(input, a, order);
    FailureIgnoresTheOrder(input, b, order);
    DispatchedBySlots(input, a);
    DispatchedBySlots(input, b);
    var slot := SlotOf(m).value;
    assert Get(Dispatched(input, a), slot) == Some(TemplateOf(input, m));
    assert Get(Dispatched(input, b), slot) == Some(TemplateOf(input, n));
  }

  /** Files whose names end in `.yaml` never compete, so loading them is confluent. */
  lemma YamlFilesDoNotCompete(input: Input)
    requires forall n :: n in input.files ==> EndsWith(n, ".yaml")
    ensures ConflictFree(input)
  {
    forall m, n | m in input.files && n in input.files && SlotOf(m).Some? && SlotOf(m) == SlotOf(n)
      ensures m == n
    {
      SlotNamesTheFile(m);
      SlotNamesTheFile(n);
    }
  }

  function FileName(slot: Slot): string {
    slot.tier + "/" + PartFileName(slot.part)
  }

  function PartFileName(part: Part): string {
    match part
    case TierFile => "tier.yaml"
    case ClusterFile => "cluster.yaml"
    case NamespaceFile(kind) => "ns_" + (kind + ".yaml")
    case SpaceRoleFile(role) => "spacerole_" + (role + ".yaml")
    case BasedOnFile => "based_on_tier.yaml"
  }

  /** The file name of a slot is dispatched to that slot. */
  lemma SlotOfFileName(slot: Slot)
    requires '/' !in slot.tier && '/' !in PartFileName(slot.part)
    ensures SlotOf(FileName(slot)) == Some(slot)
  {
    PartOfFileName(slot.part);
    SlotInTier(slot.tier, PartFileName(slot.part));
  }

  lemma PartOfFileName(part: Part)
    ensures PartOf(PartFileName(part)) == Some(part)
  {
    match part
    case NamespaceFile(kind) => PartOfNamespaceFile(kind);
    case SpaceRoleFile(role) => PartOfSpaceRoleFile(role);
    case BasedOnFile => assert PartFileName(part)[0] == 'b' && "ns_"[0] == 'n' && "spacerole_"[0] == 's';
    case _ =>
  }

  lemma PartOfNamespaceFile(kind: string)
    ensures PartOf(PartFileName(NamespaceFile(kind))) == Some(NamespaceFile(kind))
  {
    NameInFront("ns_", kind);
    assert PartFileName(NamespaceFile(kind))[0] == 'n' && "tier.yaml"[0] == 't' && "cluster.yaml"[0] == 'c';
  }

  lemma PartOfSpaceRoleFile(role: string)
    ensures PartOf(PartFileName(SpaceRoleFile(role))) == Some(SpaceRoleFile(role))
  {
    NameInFront("spacerole_", role);
    var name := PartFileName(SpaceRoleFile(role));
    assert name[0] == 's' && "tier.yaml"[0] == 't' && "cluster.yaml"[0] == 'c' && "ns_"[0] == 'n';
  }

  /** File names of one slash have a place exactly if they are one of three or start with one of two prefixes;
      kinds and roles need no ending. */
  lemma PlacesExactly(tier: string, filename: string)
    requires '/' !in tier && '/' !in filename
    ensures SlotOf(tier + "/" + filename) == None <==>
            && filename != "tier.yaml" && filename != "cluster.yaml" && filename != "based_on_tier.yaml"
            && !("ns_" <= filename) && !("spacerole_" <= filename)
    ensures filename == "tier.yaml" ==> SlotOf(tier + "/" + filename) == Some(Slot(tier, TierFile))
    ensures filename == "cluster.yaml" ==> SlotOf(tier + "/" + filename) == Some(Slot(tier, ClusterFile))
    ensures filename == "based_on_tier.yaml" ==> SlotOf(tier + "/" + filename) == Some(Slot(tier, BasedOnFile))
    ensures "ns_" <= filename && !EndsWith(filename[3..], ".yaml") ==>
              SlotOf(tier + "/" + filename) == Some(Slot(tier, NamespaceFile(filename[3..])))
    ensures "spacerole_" <= filename && !EndsWith(filename[10..], ".yaml") ==>
              SlotOf(tier + "/" + filename) == Some(Slot(tier, SpaceRoleFile(filename[10..])))
  {
    OneSlash(tier, filename);
    PartsApart(filename);
  }

  lemma OneSlash(tier: string, filename: string)
    requires '/' !in tier && '/' !in filename
    ensures SlotOf(tier + "/" + filename) ==
            match PartOf(filename) case None => None case Some(part) => Some(Slot(tier, part))
  {
    var name := tier + "/" + filename;
    var i := IndexOfSlash(name);
    assert name[|tier|] == '/' && forall k :: 0 <= k < |tier| ==> name[k] == tier[k] && tier[k] in tier;
    assert i == |tier| && name[..i] == tier && name[i + 1..] == filename;
  }

  lemma PartsApart(filename: string)
    ensures "ns_" <= filename ==> filename != "tier.yaml" && filename != "cluster.yaml" && filename != "based_on_tier.yaml"
    ensures "spacerole_" <= filename ==>
              filename != "tier.yaml" && filename != "cluster.yaml" && filename != "based_on_tier.yaml" && !("ns_" <= filename)
  {
    if "ns_" <= filename {
      assert filename[0] == "ns_"[0] == 'n';
    }
    if "spacerole_" <= filename {
      assert filename[0] == "spacerole_"[0] == 's';
    }
    assert "tier.yaml"[0] == 't' && "cluster.yaml"[0] == 'c' && "based_on_tier.yaml"[0] == 'b';
  }

  /** Names without a slash, or with more than one, have no place. */
  lemma SlashesExactly(name: string)
    requires SlotOf(name).Some?
    ensures exists tier, filename :: name == tier + "/" + filename && '/' !in tier && '/' !in filename
  {
    var i := IndexOfSlash(name);
    assert name == name[..i] + "/" + name[i + 1..] && '/' !in name[..i];
  }

  /** The revision of a file is the one the metadata give for its name without the ending, or empty; its content
      is as given. */
  lemma RevisionOfFile(input: Input, base: string)
    ensures base + ".yaml" in input.files ==>
              TemplateOf(input, base + ".yaml") ==
              Template(if base in input.metadata then input.metadata[base] else "", input.files[base + ".yaml"])
    ensures base in input.files && !EndsWith(base, ".yaml") ==>
              TemplateOf(input, base) == Template(if base in input.metadata then input.metadata[base] else "", input.files[base])
  {
    assert (base + ".yaml")[|base|..] == ".yaml" && (base + ".yaml")[..|base|] == base;
  }

  lemma TwoDispatched(input: Input, n: string, m: string)
    requires n in input.files && m in input.files && Accepted(input, n) && Accepted(input, m)
    ensures AllAccepted(input, [n, m])
    ensures Dispatched(input, [n, m]) == WithFile(input, WithFile(input, map[], n), m)
  {
    assert Dispatched(input, []) == map[];
    OneMoreDispatched(input, [], n);
    assert [] + [n] == [n];
    OneMoreDispatched(input, [n], m);
    assert [n] + [m] == [n, m];
  }

  lemma NameInFront(front: string, name: string)
    ensures front <= front + (name + ".yaml")
    ensures TrimSuffix((front + (name + ".yaml"))[|front|..], ".yaml") == name
  {
    assert (front + (name + ".yaml"))[|front|..] == name + ".yaml";
    assert (name + ".yaml")[|name|..] == ".yaml" && (name + ".yaml")[..|name|] == name;
  }

  lemma SlotNamesTheFile(name: string)
    requires SlotOf(name).Some? && EndsWith(name, ".yaml")
    ensures name == FileName(SlotOf(name).value)
  {
    var i := IndexOfSlash(name);
    var filename := name[i + 1..];
    SplitAtSlash(name, i);
    SuffixOfTail(name[..i + 1], filename);
    PartNamesTheFile(filename);
  }

  lemma SplitAtSlash(name: string, i: nat)
    requires i < |name| && name[i] == '/'
    ensures name == name[..i + 1] + name[i + 1..] && name[..i + 1] == name[..i] + "/"
  {
  }

  lemma PartNamesTheFile(filename: string)
    requires PartOf(filename).Some? && EndsWith(filename, ".yaml")
    ensures filename == PartFileName(PartOf(filename).value)
  {
    match PartOf(filename).value
    case NamespaceFile(_) => BetweenEnds("ns_", filename);
    case SpaceRoleFile(_) => BetweenEnds("spacerole_", filename);
    case _ =>
  }

  lemma BetweenEnds(prefix: string, filename: string)
    requires prefix != "" && prefix[|prefix| - 1] in "/_" && prefix <= filename && EndsWith(filename, ".yaml")
    ensures filename == prefix + (TrimSuffix(filename[|prefix|..], ".yaml") + ".yaml")
  {
  }

  lemma SuffixOfTail(head: string, tail: string)
    requires head != "" && head[|head| - 1] in "/_" && EndsWith(head + tail, ".yaml")
    ensures EndsWith(tail, ".yaml")
  {
    if |tail| < 5 {
      ReachesIntoHead(head, tail);
    }
    assert (head + tail)[|head + tail| - 5..] == tail[|tail| - 5..];
  }

  lemma ReachesIntoHead(head: string, tail: string)
    requires head != "" && EndsWith(head + tail, ".yaml") && |tail| < 5
    ensures head[|head| - 1] !in "/_"
  {
    assert (head + tail)[|head + tail| - 5..][4 - |tail|] == head[|head| - 1];
    assert ".yaml"[4 - |tail|] !in "/_";
  }
}
