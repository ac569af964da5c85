/** TierTemplates and the references to them (pkg/template/nstemplatetiers/nstemplatetier_generator.go). */
module TierTemplates {
  import opened Strings
  import opened Wrappers
  import opened TierFiles

  /** A decoded OpenShift template. */
  datatype TemplateObject = TemplateObject(parameters: seq<Parameter>, body: string)

  datatype TierTemplate = TierTemplate(
    namespace: string, name: string, revision: string, tierName: string, kind: string, template: TemplateObject)

  /** An object a processed template contains, and the NSTemplateTier it converts to. */
  datatype TierObject = TierObject(name: string, unstructured: bool, labels: Option<map<string, string>>, spec: string)

  datatype NSTemplateTier = NSTemplateTier(name: string, labels: Option<map<string, string>>, spec: string)

  /** Decoding, processing and converting may fail; the case conversions are those of the Go library. */
  datatype Library = Library(
    decode: string -> Option<TemplateObject>,
    process: (TemplateObject, map<string, string>) -> Option<seq<TierObject>>,
    convert: TierObject -> Option<NSTemplateTier>,
    toLower: string -> string,
    toUpper: string -> string)

  const CLUSTER_RESOURCES := "clusterresources"

  // ----- parameters -----

  /** The value a list of overrides gives a name last. */
  function LastOverride(overrides: seq<Parameter>, name: string): Option<string> {
    if overrides == [] then None
    else
      var last := overrides[|overrides| - 1];
      if last.name == name then Some(last.value) else LastOverride(overrides[..|overrides| - 1], name)
  }

  predicate FirstOfItsName(parameters: seq<Parameter>, i: nat)
    requires i < |parameters|
  {
    forall j :: 0 <= j < i ==> parameters[j].name != parameters[i].name
  }

  /** Every parameter that is the first of its name has its last override, if there is one; names, number
      and order are as before. */
  function WithParams(parameters: seq<Parameter>, overrides: seq<Parameter>): (r: seq<Parameter>)
    ensures |r| == |parameters|
    ensures forall i :: 0 <= i < |r| ==> r[i].name == parameters[i].name
    ensures forall i :: 0 <= i < |r| ==>
              var value := LastOverride(overrides, parameters[i].name);
              r[i].value == if FirstOfItsName(parameters, i) && value.Some? then value.value else parameters[i].value
  {
    seq(|parameters|, i requires 0 <= i < |parameters| =>
      var value := LastOverride(overrides, parameters[i].name);
      if FirstOfItsName(parameters, i) && value.Some? then parameters[i].(value := value.value) else parameters[i])
  }

  function WithParamsSet(template: TemplateObject, overrides: seq<Parameter>): TemplateObject {
    template.(parameters := WithParams(template.parameters, overrides))
  }

  /** setParams: for each override, the first parameter of its name is set. */
  method SetParams(parametersToSet: seq<Parameter>, template: TemplateObject) returns (r: TemplateObject)
    ensures r == WithParamsSet(template, parametersToSet)
  {
    var parameters := template.parameters;
    assert WithParams(template.parameters, []) == template.parameters;
    for k := 0 to |parametersToSet|
      invariant parameters == WithParams(template.parameters, parametersToSet[..k])
    {
      var paramToSet := parametersToSet[k];
      ghost var before := parameters;
      assert parametersToSet[..k + 1][..k] == parametersToSet[..k];
      var i := 0;
      while i < |parameters|
        invariant i <= |parameters| && parameters == before
        invariant forall j :: 0 <= j < i ==> parameters[j].name != paramToSet.name
      {
        if parameters[i].name == paramToSet.name {
          parameters := parameters[i := parameters[i].(value := paramToSet.value)];
          break;
        }
        i := i + 1;
      }
      assert parameters == WithParams(template.parameters, parametersToSet[..k + 1]);
    }
    assert parametersToSet[..|parametersToSet|] == parametersToSet;
    r := template.(parameters := parameters);
  }

  // ----- one tier's templates -----

  function NewTierTemplateName(lib: Library, tier: string, kind: string, revision: string): string {
    lib.toLower(tier + "-" + kind + "-" + revision)
  }

  function Revision(basedOnRevision: string, template: Template): string {
    (if basedOnRevision == "" then template.revision else basedOnRevision) + "-" + template.revision
  }

  /** Where the templates of a tier come from and go to. */
  datatype Target = Target(namespace: string, basedOnRevision: string, tier: string, overrides: seq<Parameter>)

  type Source = (string, Template)

  function MadeFrom(lib: Library, target: Target, source: Source): Option<TierTemplate> {
    match lib.decode(source.1.content)
    case None => None
    case Some(decoded) =>
      var revision := Revision(target.basedOnRevision, source.1);
      Some(TierTemplate(target.namespace, NewTierTemplateName(lib, target.tier, source.0, revision), revision,
                        target.tier, source.0, WithParamsSet(decoded, target.overrides)))
  }

  function AllMade(lib: Library, target: Target, sources: seq<Source>): Option<seq<TierTemplate>> {
    if sources == [] then Some([])
    else
      var n := |sources| - 1;
      var before, last := AllMade(lib, target, sources[..n]), MadeFrom(lib, target, sources[n]);
      if before.None? || last.None? then None else Some(before.value + [last.value])
  }

  function Pairs(keys: seq<string>, templates: map<string, Template>): (r: seq<Source>)
    requires forall k :: k in keys ==> k in templates
    ensures |r| == |keys| && forall i :: 0 <= i < |r| ==> r[i] == (keys[i], templates[keys[i]])
  {
    seq(|keys|, i requires 0 <= i < |keys| => (keys[i], templates[keys[i]]))
  }

  /** The sources of a tier in their order: namespaces by kind, space roles by role, cluster resources. */
  ghost function Sources(raw: RawTemplates): seq<Source> {
    Pairs(Sorted(raw.namespaceTemplates.Keys), raw.namespaceTemplates)
    + Pairs(Sorted(raw.spaceroleTemplates.Keys), raw.spaceroleTemplates)
    + ClusterSource(raw)
  }

  function ClusterSource(raw: RawTemplates): seq<Source> {
    if raw.clusterTemplate.Some? then [(CLUSTER_RESOURCES, raw.clusterTemplate.value)] else []
  }

  lemma ClusterMade(lib: Library, target: Target, raw: RawTemplates)
    ensures AllMade(lib, target, ClusterSource(raw)) ==
            if raw.clusterTemplate.None? then Some([])
            else match MadeFrom(lib, target, (CLUSTER_RESOURCES, raw.clusterTemplate.value))
              case None => None
              case Some(made) => Some([made])
  {
    if raw.clusterTemplate.Some? {
      assert ClusterSource(raw)[..0] == [];
      var made := MadeFrom(lib, target, ClusterSource(raw)[0]);
      assert made.Some? ==> [] + [made.value] == [made.value];
    }
  }

  function Both(x: Option<seq<TierTemplate>>, y: Option<seq<TierTemplate>>): Option<seq<TierTemplate>> {
    if x.None? || y.None? then None else Some(x.value + y.value)
  }

  lemma {:induction false} MadeOfConcat(lib: Library, target: Target, a: seq<Source>, b: seq<Source>)
    ensures AllMade(lib, target, a + b) == Both(AllMade(lib, target, a), AllMade(lib, target, b))
  {
    var x := AllMade(lib, target, a);
    if b == [] {
      assert a + b == a;
      assert x.Some? ==> x.value + [] == x.value;
    } else {
      var n := |b| - 1;
      MadeOfConcat(lib, target, a, b[..n]);
      assert (a + b)[..|a + b| - 1] == a + b[..n];
      var y, last := AllMade(lib, target, b[..n]), MadeFrom(lib, target, b[n]);
      if x.Some? && y.Some? && last.Some? {
        assert (x.value + y.value) + [last.value] == x.value + (y.value + [last.value]);
      }
    }
  }

  lemma MadeInThreeParts(lib: Library, target: Target, raw: RawTemplates)
    ensures AllMade(lib, target, Sources(raw)) ==
            Both(Both(AllMade(lib, target, Pairs(Sorted(raw.namespaceTemplates.Keys), raw.namespaceTemplates)),
                      AllMade(lib, target, Pairs(Sorted(raw.spaceroleTemplates.Keys), raw.spaceroleTemplates))),
                 AllMade(lib, target, ClusterSource(raw)))
  {
    var a := Pairs(Sorted(raw.namespaceTemplates.Keys), raw.namespaceTemplates);
    var b := Pairs(Sorted(raw.spaceroleTemplates.Keys), raw.spaceroleTemplates);
    MadeOfConcat(lib, target, a, b);
    MadeOfConcat(lib, target, a + b, ClusterSource(raw));
  }

  /** All are made exactly when each is, one for one and in the same order. */
  lemma {:induction false} MadeOneForOne(lib: Library, target: Target, sources: seq<Source>)
    ensures AllMade(lib, target, sources).Some? <==>
            forall i :: 0 <= i < |sources| ==> MadeFrom(lib, target, sources[i]).Some?
    ensures AllMade(lib, target, sources).Some? ==>
              var made := AllMade(lib, target, sources).value;
              |made| == |sources| && forall i :: 0 <= i < |sources| ==> Some(made[i]) == MadeFrom(lib, target, sources[i])
  {
    if sources != [] {
      MadeOneForOne(lib, target, sources[..|sources| - 1]);
    }
  }

  method NewTierTemplate(lib: Library, target: Target, kind: string, template: Template) returns (made: Option<TierTemplate>)
    ensures made == MadeFrom(lib, target, (kind, template))
  {
    var basedOnTierFileRevision := target.basedOnRevision;
    if basedOnTierFileRevision == "" {
      basedOnTierFileRevision := template.revision;
    }
    var revision := basedOnTierFileRevision + "-" + template.revision;
    var name := NewTierTemplateName(lib, target.tier, kind, revision);
    var decoded := lib.decode(template.content);
    if decoded.None? {
      return None;
    }
    var templateObject := SetParams(target.overrides, decoded.value);
    return Some(TierTemplate(target.namespace, name, revision, target.tier, kind, templateObject));
  }

  /** One of the two loops of newTierTemplates. */
  method NewTemplatesInOrder(lib: Library, target: Target, keys: seq<string>, templates: map<string, Template>)
    returns (made: Option<seq<TierTemplate>>)
    requires forall k :: k in keys ==> k in templates
    ensures made == AllMade(lib, target, Pairs(keys, templates))
  {
    var all: seq<TierTemplate> := [];
    ghost var pairs := Pairs(keys, templates);
    for i := 0 to |keys|
      invariant AllMade(lib, target, pairs[..i]) == Some(all)
    {
      assert pairs[..i + 1][..i] == pairs[..i];
      var one := NewTierTemplate(lib, target, keys[i], templates[keys[i]]);
      if one.None? {
        MadeOneForOne(lib, target, pairs);
        return None;
      }
      all := all + [one.value];
    }
    assert pairs[..|keys|] == pairs;
    return Some(all);
  }

  method NewTierTemplates(lib: Library, target: Target, raw: RawTemplates) returns (made: Option<seq<TierTemplate>>)
    ensures made == AllMade(lib, target, Sources(raw))
  {
    var kinds := SortedKeys(raw.namespaceTemplates.Keys);
    var namespaces := NewTemplatesInOrder(lib, target, kinds, raw.namespaceTemplates);
    var roles := SortedKeys(raw.spaceroleTemplates.Keys);
    MadeInThreeParts(lib, target, raw);
    ClusterMade(lib, target, raw);
    if namespaces.None? {
      return None;
    }
    var spaceroles := NewTemplatesInOrder(lib, target, roles, raw.spaceroleTemplates);
    if spaceroles.None? {
      return None;
    }
    made := Some(namespaces.value + spaceroles.value);
    assert made.value + [] == made.value;
    if raw.clusterTemplate.Some? {
      var cluster := NewTierTemplate(lib, target, CLUSTER_RESOURCES, raw.clusterTemplate.value);
      if cluster.None? {
        return None;
      }
      made := Some(made.value + [cluster.value]);
    }
  }

  // ----- tiers based on others -----

  /** Every tier that is based on another names a loaded one. */
  ghost predicate BasesLoaded(tiers: Tiers) {
    forall t :: t in tiers && tiers[t].basedOn.Some? ==> tiers[t].basedOn.value.from in tiers
  }

  function Overrides(tier: Tier): seq<Parameter> {
    if tier.basedOn.Some? then tier.basedOn.value.parameters else []
  }

  function TargetOf(namespace: string, tier: Tier, name: string): Target {
    Target(namespace, if tier.basedOn.Some? && tier.raw.basedOnTier.Some? then tier.raw.basedOnTier.value.revision else "",
           name, Overrides(tier))
  }

  /** The tier whose files a tier is made from. */
  function SourceTier(tiers: Tiers, t: string): Tier
    requires t in tiers && (tiers[t].basedOn.Some? ==> tiers[t].basedOn.value.from in tiers)
  {
    if tiers[t].basedOn.Some? then tiers[tiers[t].basedOn.value.from] else tiers[t]
  }

  ghost function TemplatesOf(lib: Library, namespace: string, tiers: Tiers, t: string): Option<seq<TierTemplate>>
    requires BasesLoaded(tiers) && t in tiers
  {
    AllMade(lib, TargetOf(namespace, tiers[t], t), Sources(SourceTier(tiers, t).raw))
  }

  /** A tier based on a regular tier yields its templates one for one: same order and types, its own name as
      tier name, revision `<based-on>-<base>`, and the base's contents with the overrides set. Both succeed
      or both fail. */
  lemma DerivedTiersCorrespond(lib: Library, namespace: string, tiers: Tiers, t: string)
    requires BasesLoaded(tiers) && t in tiers && tiers[t].basedOn.Some? && tiers[t].raw.basedOnTier.Some?
    requires tiers[tiers[t].basedOn.value.from].basedOn.None?
    ensures var base := tiers[t].basedOn.value.from;
            var mine, theirs := TemplatesOf(lib, namespace, tiers, t), TemplatesOf(lib, namespace, tiers, base);
            && mine.Some? == theirs.Some?
            && (mine.Some? ==>
                  && |mine.value| == |theirs.value|
                  && forall i :: 0 <= i < |mine.value| ==>
                       Corresponds(lib, mine.value[i], theirs.value[i], t, tiers[t].raw.basedOnTier.value.revision,
                                   tiers[t].basedOn.value.parameters))
  {
    var base := tiers[t].basedOn.value.from;
    var sources := Sources(tiers[base].raw);
    var mine, theirs := TargetOf(namespace, tiers[t], t), TargetOf(namespace, tiers[base], base);
    MadeOneForOne(lib, mine, sources);
    MadeOneForOne(lib, theirs, sources);
    forall i | 0 <= i < |sources|
      ensures MadeFrom(lib, mine, sources[i]).Some? == MadeFrom(lib, theirs, sources[i]).Some?
      ensures MadeFrom(lib, mine, sources[i]).Some? ==>
                Corresponds(lib, MadeFrom(lib, mine, sources[i]).value, MadeFrom(lib, theirs, sources[i]).value, t,
                            tiers[t].raw.basedOnTier.value.revision, tiers[t].basedOn.value.parameters)
    {
      var decoded := lib.decode(sources[i].1.content);
      if decoded.Some? {
        assert WithParams(decoded.value.parameters, []) == decoded.value.parameters;
        var revision := sources[i].1.revision;
        assert MadeFrom(lib, theirs, sources[i]).value.revision == revision + "-" + revision;
      }
    }
  }

  /** Template a of the derived tier stands for template b of its base. */
  ghost predicate Corresponds(
    lib: Library, a: TierTemplate, b: TierTemplate, tier: string, basedOnRevision: string, overrides: seq<Parameter>)
  {
    && a.kind == b.kind && a.tierName == tier && a.namespace == b.namespace
    && a.name == NewTierTemplateName(lib, tier, a.kind, a.revision)
    && (exists own: string :: b.revision == own + "-" + own
          && a.revision == (if basedOnRevision == "" then own else basedOnRevision) + "-" + own)
    && a.template.body == b.template.body
    && a.template.parameters == WithParams(b.template.parameters, overrides)
  }

  // ----- the references of a tier to its templates -----

  function RefKey(lib: Library, kind: string): string {
    if kind == CLUSTER_RESOURCES then "CLUSTER_TEMPL_REF" else lib.toUpper(kind) + "_TEMPL_REF"
  }

  function References(lib: Library, namespace: string, templates: seq<TierTemplate>): map<string, string> {
    if templates == [] then map["NAMESPACE" := namespace]
    else
      var last := templates[|templates| - 1];
      References(lib, namespace, templates[..|templates| - 1])[RefKey(lib, last.kind) := last.name]
  }

  lemma {:induction false} ReferencesName(lib: Library, namespace: string, templates: seq<TierTemplate>)
    ensures var refs := References(lib, namespace, templates);
            && (forall key :: key in refs ==>
                  (key == "NAMESPACE" && refs[key] == namespace)
                  || exists t :: t in templates && RefKey(lib, t.kind) == key && refs[key] == t.name)
            && (forall t :: t in templates ==> RefKey(lib, t.kind) in refs)
            && "NAMESPACE" in refs && refs["NAMESPACE"] == namespace
  {
    if templates != [] {
      var n := |templates| - 1;
      ReferencesName(lib, namespace, templates[..n]);
      assert templates == templates[..n] + [templates[n]];
      RefKeyIsNoNamespace(lib, templates[n].kind);
      assert templates[n] in templates;
      assert forall t :: t in templates[..n] ==> t in templates;
    }
  }

  lemma RefKeyIsNoNamespace(lib: Library, kind: string)
    ensures RefKey(lib, kind) != "NAMESPACE"
  {
  }

  /** Reference integrity: every parameter but the namespace names a template of the tier under its own key,
      and every template is reachable by its key exactly when templates that share a key share their name. */
  lemma {:induction false} ReferenceIntegrity(lib: Library, namespace: string, templates: seq<TierTemplate>)
    ensures var refs := References(lib, namespace, templates);
            && (forall key :: key in refs && key != "NAMESPACE" ==>
                  exists t :: t in templates && RefKey(lib, t.kind) == key && refs[key] == t.name)
            && (forall t :: t in templates ==> RefKey(lib, t.kind) in refs)
            && ((forall t :: t in templates ==> refs[RefKey(lib, t.kind)] == t.name) <==>
                (forall s, t :: s in templates && t in templates && RefKey(lib, s.kind) == RefKey(lib, t.kind) ==>
                   s.name == t.name))
  {
    ReferencesName(lib, namespace, templates);
    forall t | t in templates ensures RefKey(lib, t.kind) != "NAMESPACE" {
      RefKeyIsNoNamespace(lib, t.kind);
    }
  }

  /** Template i is named under its key, and the key is that of no other template. */
  ghost predicate HasOwnKey(lib: Library, refs: map<string, string>, templates: seq<TierTemplate>, i: nat)
    requires i < |templates|
  {
    var key := RefKey(lib, templates[i].kind);
    && key in refs && refs[key] == templates[i].name
    && forall j :: 0 <= j < |templates| && j != i ==> RefKey(lib, templates[j].kind) != key
  }

  ghost predicate AllHaveOwnKeys(lib: Library, refs: map<string, string>, templates: seq<TierTemplate>) {
    forall i :: 0 <= i < |templates| ==> HasOwnKey(lib, refs, templates, i)
  }

  /** The upper-cased kinds and roles of the files are distinct, and none clashes with the cluster key. */
  ghost predicate DistinctKeys(lib: Library, sources: seq<Source>) {
    forall i, j :: 0 <= i < j < |sources| ==> RefKey(lib, sources[i].0) != RefKey(lib, sources[j].0)
  }

  lemma OwnKeyIfDistinct(lib: Library, namespace: string, templates: seq<TierTemplate>, i: nat)
    requires i < |templates|
    requires forall j :: 0 <= j < |templates| && j != i ==> RefKey(lib, templates[j].kind) != RefKey(lib, templates[i].kind)
    ensures HasOwnKey(lib, References(lib, namespace, templates), templates, i)
  {
    ReferencesName(lib, namespace, templates);
    RefKeyIsNoNamespace(lib, templates[i].kind);
    assert templates[i] in templates;
  }

  /** Every template made from the files of a tier is reachable by a key of its own if and only if the files
      yield distinct keys. */
  lemma OwnKeysExactly(lib: Library, target: Target, sources: seq<Source>)
    requires AllMade(lib, target, sources).Some?
    ensures var made := AllMade(lib, target, sources).value;
            AllHaveOwnKeys(lib, References(lib, target.namespace, made), made) <==> DistinctKeys(lib, sources)
  {
    var made := AllMade(lib, target, sources).value;
    MadeOneForOne(lib, target, sources);
    assert forall i :: 0 <= i < |made| ==> made[i].kind == sources[i].0;
    var refs := References(lib, target.namespace, made);
    if DistinctKeys(lib, sources) {
      forall i | 0 <= i < |made| ensures HasOwnKey(lib, refs, made, i) {
        OwnKeyIfDistinct(lib, target.namespace, made, i);
      }
    }
    if AllHaveOwnKeys(lib, refs, made) {
      forall i, j | 0 <= i < j < |sources| ensures RefKey(lib, sources[i].0) != RefKey(lib, sources[j].0) {
        assert HasOwnKey(lib, refs, made, i);
      }
    }
  }

  // ----- names of templates across tiers -----

  function Joined(tier: string, rest: string): string {
    tier + "-" + rest
  }

  /** The longer front begins with the shorter one and a hyphen, and the rests make up for it. */
  predicate Overlaps(a: string, b: string, a': string, b': string) {
    |a| < |a'| && a + "-" <= a' && b == a'[|a| + 1..] + "-" + b'
  }

  predicate Meets(a: string, b: string, a': string, b': string) {
    (a == a' && b == b') || Overlaps(a, b, a', b') || Overlaps(a', b', a, b)
  }

  /** Joined strings coincide for the same parts, and otherwise exactly when they overlap. */
  lemma JoinedExactly(a: string, b: string, a': string, b': string)
    ensures Joined(a, b) == Joined(a', b') <==> Meets(a, b, a', b')
  {
    if |a| <= |a'| {
      JoinedToLonger(a, b, a', b');
    } else {
      JoinedToLonger(a', b', a, b);
    }
  }

  lemma JoinedToLonger(a: string, b: string, a': string, b': string)
    requires |a| <= |a'|
    ensures Joined(a, b) == Joined(a', b') <==> (a == a' && b == b') || Overlaps(a, b, a', b')
  {
    var x, y := Joined(a, b), Joined(a', b');
    assert x[..|a|] == a && x[|a| + 1..] == b && y[..|a'|] == a' && y[|a'| + 1..] == b' && x[|a|] == '-' == y[|a'|];
    if |a| < |a'| {
      assert y[..|a|] == a'[..|a|] && y[|a|] == a'[|a|] && y[|a| + 1..] == a'[|a| + 1..] + "-" + b';
      assert x == y <==> x[..|a|] == y[..|a|] && x[|a|] == y[|a|] && x[|a| + 1..] == y[|a| + 1..] by {
        assert x == x[..|a|] + [x[|a|]] + x[|a| + 1..] && y == y[..|a|] + [y[|a|]] + y[|a| + 1..];
      }
      assert a + "-" <= a' <==> a == a'[..|a|] && a'[|a|] == '-';
    }
  }

  /** Strings without hyphens are told apart by what they are joined to. */
  lemma JoinedApart(a: string, b: string, a': string, b': string)
    requires '-' !in a && '-' !in a' && Joined(a, b) == Joined(a', b')
    ensures a == a' && b == b'
  {
    HyphenInside(a, a');
    HyphenInside(a', a);
    JoinedExactly(a, b, a', b');
  }

  lemma HyphenInside(a: string, a': string)
    ensures a + "-" <= a' ==> '-' in a'
  {
    if a + "-" <= a' {
      assert a'[|a|] == (a + "-")[|a|];
    }
  }

  function FullName(x: TierTemplate): string {
    Joined(x.tierName, Joined(x.kind, x.revision))
  }

  /** A template carries the name made of its parts, and nothing is left for the lower-casing to do. */
  ghost predicate Named(lib: Library, x: TierTemplate) {
    x.name == NewTierTemplateName(lib, x.tierName, x.kind, x.revision) && lib.toLower(FullName(x)) == FullName(x)
  }

  ghost predicate PlainlyNamed(lib: Library, x: TierTemplate) {
    Named(lib, x) && '-' !in x.tierName && '-' !in x.kind
  }

  lemma NameIsFullName(lib: Library, x: TierTemplate)
    requires Named(lib, x)
    ensures x.name == FullName(x)
  {
    assert x.tierName + "-" + x.kind + "-" + x.revision == FullName(x);
  }

  /** Plainly named templates share a name exactly when they are of one tier, kind and revision. */
  lemma PlainNamesAreUnique(lib: Library, x: TierTemplate, y: TierTemplate)
    requires PlainlyNamed(lib, x) && PlainlyNamed(lib, y)
    ensures x.name == y.name <==> x.tierName == y.tierName && x.kind == y.kind && x.revision == y.revision
  {
    NameIsFullName(lib, x);
    NameIsFullName(lib, y);
    if x.name == y.name {
      JoinedApart(x.tierName, Joined(x.kind, x.revision), y.tierName, Joined(y.kind, y.revision));
      JoinedApart(x.kind, x.revision, y.kind, y.revision);
    }
  }

  /** Exactly when two templates share a name: their tiers and the rests of their names meet. */
  lemma NamesMeetExactly(lib: Library, x: TierTemplate, y: TierTemplate)
    requires Named(lib, x) && Named(lib, y)
    ensures x.name == y.name <==> Meets(x.tierName, Joined(x.kind, x.revision), y.tierName, Joined(y.kind, y.revision))
    ensures Joined(x.kind, x.revision) == Joined(y.kind, y.revision) <==> Meets(x.kind, x.revision, y.kind, y.revision)
  {
    NameIsFullName(lib, x);
    NameIsFullName(lib, y);
    JoinedExactly(x.tierName, Joined(x.kind, x.revision), y.tierName, Joined(y.kind, y.revision));
    JoinedExactly(x.kind, x.revision, y.kind, y.revision);
  }

  /** Two files of one kind and revision, such as those of a namespace and of a space role. */
  predicate Twins(a: Source, b: Source) {
    a.0 == b.0 && a.1.revision == b.1.revision
  }

  ghost predicate NoTwins(sources: seq<Source>) {
    forall i, j :: 0 <= i < j < |sources| ==> !Twins(sources[i], sources[j])
  }

  lemma RevisionsTellApart(basedOnRevision: string, a: Template, b: Template)
    ensures Revision(basedOnRevision, a) == Revision(basedOnRevision, b) <==> a.revision == b.revision
  {
    var x, y := Revision(basedOnRevision, a), Revision(basedOnRevision, b);
    if x == y {
      assert |a.revision| == |b.revision|;
      assert x[|x| - |a.revision|..] == a.revision && y[|y| - |b.revision|..] == b.revision;
    }
  }

  lemma SourceOfNamespace(raw: RawTemplates, kind: string) returns (i: nat)
    requires kind in raw.namespaceTemplates
    ensures i < |Sorted(raw.namespaceTemplates.Keys)| && i < |Sources(raw)|
    ensures Sources(raw)[i] == (kind, raw.namespaceTemplates[kind])
  {
    var keys := Sorted(raw.namespaceTemplates.Keys);
    assert kind in keys;
    i :| 0 <= i < |keys| && keys[i] == kind;
    assert Sources(raw)[i] == Pairs(keys, raw.namespaceTemplates)[i];
  }

  lemma SourceOfSpaceRole(raw: RawTemplates, role: string) returns (i: nat)
    requires role in raw.spaceroleTemplates
    ensures |Sorted(raw.namespaceTemplates.Keys)| <= i < |Sources(raw)| && Sources(raw)[i] == (role, raw.spaceroleTemplates[role])
  {
    var before, keys := Sorted(raw.namespaceTemplates.Keys), Sorted(raw.spaceroleTemplates.Keys);
    assert role in keys;
    var k :| 0 <= k < |keys| && keys[k] == role;
    i := |before| + k;
    assert Sources(raw)[i] == Pairs(keys, raw.spaceroleTemplates)[k];
  }

  /** With hyphens, templates made for different tiers can share a name: kind `c` of tier `a-b`, and kind `b-c`
      of tier `a`. */
  lemma HyphensMakeNamesMeet(lib: Library, namespace: string, tiers: Tiers, a: string, b: string, c: string)
    requires BasesLoaded(tiers) && a in tiers && Joined(a, b) in tiers
    requires tiers[a].basedOn == None && tiers[Joined(a, b)].basedOn == None
    requires c in tiers[Joined(a, b)].raw.namespaceTemplates && Joined(b, c) in tiers[a].raw.namespaceTemplates
    requires tiers[Joined(a, b)].raw.namespaceTemplates[c].revision ==
             tiers[a].raw.namespaceTemplates[Joined(b, c)].revision
    requires TemplatesOf(lib, namespace, tiers, a).Some? && TemplatesOf(lib, namespace, tiers, Joined(a, b)).Some?
    ensures exists x, y :: x in TemplatesOf(lib, namespace, tiers, Joined(a, b)).value
              && y in TemplatesOf(lib, namespace, tiers, a).value && x.name == y.name && x.tierName != y.tierName
  {
    var x := TemplateOfNamespace(lib, namespace, tiers, Joined(a, b), c);
    var y := TemplateOfNamespace(lib, namespace, tiers, a, Joined(b, c));
    SameJoined(a, b, c, x.revision);
  }

  lemma SameJoined(a: string, b: string, c: string, r: string)
    ensures Joined(a, b) + "-" + c + "-" + r == a + "-" + Joined(b, c) + "-" + r && Joined(a, b) != a
  {
    assert |Joined(a, b)| > |a|;
  }

  lemma TemplateOfNamespace(lib: Library, namespace: string, tiers: Tiers, t: string, kind: string) returns (x: TierTemplate)
    requires BasesLoaded(tiers) && t in tiers && tiers[t].basedOn == None && kind in tiers[t].raw.namespaceTemplates
    requires TemplatesOf(lib, namespace, tiers, t).Some?
    ensures x in TemplatesOf(lib, namespace, tiers, t).value && x.tierName == t
    ensures x.revision == Revision("", tiers[t].raw.namespaceTemplates[kind])
    ensures x.name == NewTierTemplateName(lib, t, kind, x.revision)
  {
    var sources := Sources(tiers[t].raw);
    MadeOneForOne(lib, TargetOf(namespace, tiers[t], t), sources);
    var i := SourceOfNamespace(tiers[t].raw, kind);
    x := TemplatesOf(lib, namespace, tiers, t).value[i];
  }

  /** A namespace and a space role of one kind and revision make two templates of one name, with the contents of
      the one file and of the other. */
  lemma TwinsShareAName(lib: Library, target: Target, raw: RawTemplates, kind: string) returns (i: nat, j: nat)
    requires kind in raw.namespaceTemplates && kind in raw.spaceroleTemplates
    requires raw.namespaceTemplates[kind].revision == raw.spaceroleTemplates[kind].revision
    requires AllMade(lib, target, Sources(raw)).Some?
    ensures var made := AllMade(lib, target, Sources(raw)).value;
            && i < j < |made| && made[i].name == made[j].name
            && Some(made[i]) == MadeFrom(lib, target, (kind, raw.namespaceTemplates[kind]))
            && Some(made[j]) == MadeFrom(lib, target, (kind, raw.spaceroleTemplates[kind]))
  {
    MadeOneForOne(lib, target, Sources(raw));
    i := SourceOfNamespace(raw, kind);
    j := SourceOfSpaceRole(raw, kind);
  }

  /** Templates of one tier all carry its name, so its references stay within the tier. */
  lemma TemplatesCarryTheirTier(lib: Library, namespace: string, tiers: Tiers, t: string)
    requires BasesLoaded(tiers) && t in tiers && TemplatesOf(lib, namespace, tiers, t).Some?
    ensures forall x :: x in TemplatesOf(lib, namespace, tiers, t).value ==> x.tierName == t && x.namespace == namespace
  {
    MadeOneForOne(lib, TargetOf(namespace, tiers[t], t), Sources(SourceTier(tiers, t).raw));
  }

  // ----- the NSTemplateTier object -----

  function Renamed(objects: seq<TierObject>, was: string, becomes: string): (r: seq<TierObject>)
    ensures |r| == |objects|
    ensures forall i :: 0 <= i < |r| ==> r[i] == objects[i].(name := ReplaceFirst(objects[i].name, was, becomes))
  {
    seq(|objects|, i requires 0 <= i < |objects| => objects[i].(name := ReplaceFirst(objects[i].name, was, becomes)))
  }

  function ObjectsOf(lib: Library, namespace: string, tiers: Tiers, t: string, templates: seq<TierTemplate>): Option<seq<TierObject>>
    requires t in tiers && (tiers[t].basedOn.Some? ==> tiers[t].basedOn.value.from in tiers)
  {
    var source := SourceTier(tiers, t);
    if source.raw.nsTemplateTier.None? then None
    else
      match lib.decode(source.raw.nsTemplateTier.value.content)
      case None => None
      case Some(decoded) =>
        match lib.process(WithParamsSet(decoded, Overrides(tiers[t])), References(lib, namespace, templates))
        case None => None
        case Some(objects) => Some(Renamed(objects, if tiers[t].basedOn.Some? then source.name else t, t))
  }

  method NewNSTemplateTier(
    lib: Library, namespace: string, sourceTierName: string, tierName: string, nsTemplateTier: Option<Template>,
    tierTemplates: seq<TierTemplate>, parameters: seq<Parameter>)
    returns (objects: Option<seq<TierObject>>)
    ensures objects ==
            if nsTemplateTier.None? then None
            else match lib.decode(nsTemplateTier.value.content)
              case None => None
              case Some(decoded) =>
                match lib.process(WithParamsSet(decoded, parameters), References(lib, namespace, tierTemplates))
                case None => None
                case Some(made) => Some(Renamed(made, sourceTierName, tierName))
  {
    if nsTemplateTier.None? {
      return None;
    }
    var decoded := lib.decode(nsTemplateTier.value.content);
    if decoded.None? {
      return None;
    }
    var params := map["NAMESPACE" := namespace];
    for i := 0 to |tierTemplates|
      invariant params == References(lib, namespace, tierTemplates[..i])
    {
      assert tierTemplates[..i + 1][..i] == tierTemplates[..i];
      var tierTmpl := tierTemplates[i];
      if tierTmpl.kind == CLUSTER_RESOURCES {
        params := params["CLUSTER_TEMPL_REF" := tierTmpl.name];
      } else {
        var key := lib.toUpper(tierTmpl.kind) + "_TEMPL_REF";
        params := params[key := tierTmpl.name];
      }
    }
    assert tierTemplates[..|tierTemplates|] == tierTemplates;
    var tmplObj := SetParams(parameters, decoded.value);
    var made := lib.process(tmplObj, params);
    if made.None? {
      return None;
    }
    var result := made.value;
    for i := 0 to |result|
      invariant |result| == |made.value|
      invariant forall j :: 0 <= j < i ==>
                  result[j] == made.value[j].(name := ReplaceFirst(made.value[j].name, sourceTierName, tierName))
      invariant forall j :: i <= j < |result| ==> result[j] == made.value[j]
    {
      result := result[i := result[i].(name := ReplaceFirst(result[i].name, sourceTierName, tierName))];
    }
    assert result == Renamed(made.value, sourceTierName, tierName);
    return Some(result);
  }

  /** Basing a tier on one that is itself based on another never works: the middle tier has no tier.yaml of
      its own, being no mix of based-on and regular files. */
  lemma NoChainsOfBases(lib: Library, namespace: string, tiers: Tiers, t: string, templates: seq<TierTemplate>)
    requires BasesLoaded(tiers) && t in tiers && tiers[t].basedOn.Some? && !AnyMixed(tiers)
    requires tiers[tiers[t].basedOn.value.from].raw.basedOnTier.Some?
    ensures ObjectsOf(lib, namespace, tiers, t, templates) == None
  {
  }
}
