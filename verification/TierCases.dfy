/** What templates and tier objects are made of, told from the files and the library
    (pkg/template/nstemplatetiers/nstemplatetier_generator.go). */
module TierCases {
  import opened Strings
  import opened Wrappers
  import opened TierFiles
  import opened TierTemplates

  // ----- overrides -----

  /** The override at a position is the last of its name. */
  ghost predicate LastAt(overrides: seq<Parameter>, name: string, k: nat) {
    k < |overrides| && overrides[k].name == name && forall l :: k < l < |overrides| ==> overrides[l].name != name
  }

  /** The last override of a name, if there is one. */
  lemma LastOverrideExactly(overrides: seq<Parameter>, name: string)
    ensures match LastOverride(overrides, name)
            case None => forall k :: 0 <= k < |overrides| ==> overrides[k].name != name
            case Some(value) => exists k: nat :: LastAt(overrides, name, k) && overrides[k].value == value
  {
    if LastOverride(overrides, name).Some? {
      var k := LastOverrideAt(overrides, name);
    } else {
      NoOverride(overrides, name);
    }
  }

  lemma {:induction false} NoOverride(overrides: seq<Parameter>, name: string)
    requires LastOverride(overrides, name).None?
    ensures forall k :: 0 <= k < |overrides| ==> overrides[k].name != name
  {
    if overrides != [] {
      NoOverride(overrides[..|overrides| - 1], name);
    }
  }

  lemma {:induction false} LastOverrideAt(overrides: seq<Parameter>, name: string) returns (k: nat)
    requires LastOverride(overrides, name).Some?
    ensures LastAt(overrides, name, k) && overrides[k].value == LastOverride(overrides, name).value
  {
    var n := |overrides| - 1;
    if overrides[n].name == name {
      k := n;
    } else {
      k := LastOverrideAt(overrides[..n], name);
      assert forall l :: k <= l < n ==> overrides[l] == overrides[..n][l];
    }
  }

  // ----- one template -----

  /** A template is made exactly if its file decodes; it is in the namespace of the generator, under the
      lower-cased name of tier, kind and revision, with the decoded body and parameters, of which the first of each
      overridden name has its last override. */
  lemma TemplateMadeExactly(lib: Library, target: Target, kind: string, file: Template)
    ensures var made := MadeFrom(lib, target, (kind, file));
            var based := if target.basedOnRevision == "" then file.revision else target.basedOnRevision;
            match lib.decode(file.content)
            case None => made == None
            case Some(decoded) =>
              && made.Some?
              && made.value.(template := decoded) ==
                 TierTemplate(target.namespace, lib.toLower(target.tier + "-" + kind + "-" + (based + "-" + file.revision)),
                              based + "-" + file.revision, target.tier, kind, decoded)
              && made.value.template.body == decoded.body
              && OverriddenBy(made.value.template.parameters, decoded.parameters, target.overrides)
  {
    if lib.decode(file.content).Some? {
      OverridesExactly(lib.decode(file.content).value.parameters, target.overrides);
    }
  }

  /** Names, number and order of the parameters stay; the first of a name has the value of the last override of
      that name, if there is one, and all others have their own. */
  ghost predicate OverriddenBy(now: seq<Parameter>, was: seq<Parameter>, overrides: seq<Parameter>) {
    && |now| == |was|
    && forall i :: 0 <= i < |was| ==>
         && now[i].name == was[i].name
         && (if forall j :: 0 <= j < i ==> was[j].name != was[i].name
             then LastOr(overrides, was[i].name, was[i].value, now[i].value)
             else now[i].value == was[i].value)
  }

  ghost predicate LastOr(overrides: seq<Parameter>, name: string, own: string, value: string) {
    if forall k :: 0 <= k < |overrides| ==> overrides[k].name != name then value == own
    else exists k: nat :: LastAt(overrides, name, k) && overrides[k].value == value
  }

  lemma OverridesExactly(parameters: seq<Parameter>, overrides: seq<Parameter>)
    ensures OverriddenBy(WithParams(parameters, overrides), parameters, overrides)
  {
    forall i | 0 <= i < |parameters|
      ensures var now := WithParams(parameters, overrides)[i];
              && now.name == parameters[i].name
              && (if forall j :: 0 <= j < i ==> parameters[j].name != parameters[i].name
                  then LastOr(overrides, parameters[i].name, parameters[i].value, now.value)
                  else now.value == parameters[i].value)
    {
      LastOverrideExactly(overrides, parameters[i].name);
    }
  }

  // ----- the order of the files -----

  /** A tier is made from its namespaces in the order of their kinds, then its space roles in the order of their
      names, then its cluster resources, each of them once. */
  lemma SourcesInOrder(raw: RawTemplates)
    ensures var sources, n, r := Sources(raw), |raw.namespaceTemplates|, |raw.spaceroleTemplates|;
            && |sources| == n + r + (if raw.clusterTemplate.Some? then 1 else 0)
            && (forall i :: 0 <= i < n ==>
                  sources[i].0 in raw.namespaceTemplates && sources[i].1 == raw.namespaceTemplates[sources[i].0])
            && (forall i, j :: 0 <= i < j < n ==> Less(sources[i].0, sources[j].0))
            && (forall i :: n <= i < n + r ==>
                  sources[i].0 in raw.spaceroleTemplates && sources[i].1 == raw.spaceroleTemplates[sources[i].0])
            && (forall i, j :: n <= i < j < n + r ==> Less(sources[i].0, sources[j].0))
            && (raw.clusterTemplate.Some? ==> sources[n + r] == ("clusterresources", raw.clusterTemplate.value))
  {
    SortedSize(Sorted(raw.namespaceTemplates.Keys), raw.namespaceTemplates.Keys);
    SortedSize(Sorted(raw.spaceroleTemplates.Keys), raw.spaceroleTemplates.Keys);
    PairsInOrder(raw.namespaceTemplates);
    PairsInOrder(raw.spaceroleTemplates);
    var a, b := Pairs(Sorted(raw.namespaceTemplates.Keys), raw.namespaceTemplates),
                Pairs(Sorted(raw.spaceroleTemplates.Keys), raw.spaceroleTemplates);
    assert |raw.namespaceTemplates| == |raw.namespaceTemplates.Keys| && |raw.spaceroleTemplates| == |raw.spaceroleTemplates.Keys|;
    InThreeParts(a, b, ClusterSource(raw));
  }

  lemma PairsInOrder(templates: map<string, Template>)
    ensures var pairs := Pairs(Sorted(templates.Keys), templates);
            && (forall i :: 0 <= i < |pairs| ==> pairs[i].0 in templates && pairs[i].1 == templates[pairs[i].0])
            && (forall i, j :: 0 <= i < j < |pairs| ==> Less(pairs[i].0, pairs[j].0))
  {
    var keys := Sorted(templates.Keys);
    assert forall i :: 0 <= i < |keys| ==> keys[i] in keys;
  }

  lemma InThreeParts(a: seq<Source>, b: seq<Source>, c: seq<Source>)
    ensures var whole := a + b + c;
            && |whole| == |a| + |b| + |c|
            && (forall i :: 0 <= i < |a| ==> whole[i] == a[i])
            && (forall i :: |a| <= i < |a| + |b| ==> whole[i] == b[i - |a|])
            && (forall i :: |a| + |b| <= i < |whole| ==> whole[i] == c[i - |a| - |b|])
  {
  }

  // ----- the references -----

  /** The key under which a template is referenced. */
  predicate Under(lib: Library, kind: string, key: string) {
    || (kind == "clusterresources" && key == "CLUSTER_TEMPL_REF")
    || (kind != "clusterresources" && key == lib.toUpper(kind) + "_TEMPL_REF")
  }

  lemma UnderOneKey(lib: Library, kind: string, key: string)
    ensures Under(lib, kind, key) <==> key == RefKey(lib, kind)
  {
  }

  /** The template at position i is the last of those referenced under the key. */
  ghost predicate LastUnder(lib: Library, templates: seq<TierTemplate>, key: string, i: nat) {
    && i < |templates| && Under(lib, templates[i].kind, key)
    && forall j :: i < j < |templates| ==> !Under(lib, templates[j].kind, key)
  }

  /** The namespace is under its own key, and under every other key the name of the last template referenced under
      it. Cluster resources go under `CLUSTER_TEMPL_REF`, all other templates under their upper-cased kind; there
      are no further keys. */
  ghost predicate RefersExactly(lib: Library, namespace: string, templates: seq<TierTemplate>, refs: map<string, string>) {
    && "NAMESPACE" in refs && refs["NAMESPACE"] == namespace
    && (forall key :: key in refs && key != "NAMESPACE" ==>
          exists i: nat :: LastUnder(lib, templates, key, i) && refs[key] == templates[i].name)
    && (forall key, i: nat :: i < |templates| && Under(lib, templates[i].kind, key) ==> key in refs && key != "NAMESPACE")
  }

  /** The parameters a tier object is processed with. */
  lemma ReferencesExactly(lib: Library, namespace: string, templates: seq<TierTemplate>)
    ensures RefersExactly(lib, namespace, templates, References(lib, namespace, templates))
  {
    ReferencesName(lib, namespace, templates);
    forall key, i: nat | i < |templates| && Under(lib, templates[i].kind, key) ensures key in References(lib, namespace, templates) && key != "NAMESPACE" {
      UnderOneKey(lib, templates[i].kind, key);
      RefKeyIsNoNamespace(lib, templates[i].kind);
      assert templates[i] in templates;
    }
    forall key | key in References(lib, namespace, templates) && key != "NAMESPACE"
      ensures exists i: nat :: LastUnder(lib, templates, key, i) && References(lib, namespace, templates)[key] == templates[i].name
    {
      var i := LastReferenced(lib, namespace, templates, key);
    }
  }

  lemma {:induction false} LastReferenced(lib: Library, namespace: string, templates: seq<TierTemplate>, key: string) returns (i: nat)
    requires key in References(lib, namespace, templates) && key != "NAMESPACE"
    ensures LastUnder(lib, templates, key, i) && References(lib, namespace, templates)[key] == templates[i].name
  {
    var n := |templates| - 1;
    UnderOneKey(lib, templates[n].kind, key);
    if Under(lib, templates[n].kind, key) {
      i := n;
    } else {
      i := LastReferenced(lib, namespace, templates[..n], key);
      assert templates[..n][i] == templates[i];
      assert forall j :: i < j < n ==> templates[..n][j] == templates[j];
    }
  }

  /** The template at position i is the only one of the cluster resources, and no other kind is upper-cased to
      `CLUSTER`. */
  ghost predicate OnlyCluster(lib: Library, templates: seq<TierTemplate>, i: nat) {
    forall j :: 0 <= j < |templates| && j != i ==>
      templates[j].kind != "clusterresources" && lib.toUpper(templates[j].kind) != "CLUSTER"
  }

  /** So cluster resources are always referenced, and their parameter names them unless another kind is upper-cased
      to `CLUSTER`. */
  lemma ClusterResourcesAreReferenced(
    lib: Library, namespace: string, templates: seq<TierTemplate>, i: nat, refs: map<string, string>)
    requires i < |templates| && templates[i].kind == "clusterresources" && RefersExactly(lib, namespace, templates, refs)
    ensures "CLUSTER_TEMPL_REF" in refs
    ensures OnlyCluster(lib, templates, i) ==> refs["CLUSTER_TEMPL_REF"] == templates[i].name
  {
    assert Under(lib, templates[i].kind, "CLUSTER_TEMPL_REF");
    if OnlyCluster(lib, templates, i) {
      var k: nat :| LastUnder(lib, templates, "CLUSTER_TEMPL_REF", k) && refs["CLUSTER_TEMPL_REF"] == templates[k].name;
      NoOtherCluster(lib, templates, i, k);
    }
  }

  lemma NoOtherCluster(lib: Library, templates: seq<TierTemplate>, i: nat, k: nat)
    requires OnlyCluster(lib, templates, i) && k < |templates| && Under(lib, templates[k].kind, "CLUSTER_TEMPL_REF")
    ensures k == i
  {
    UpperCluster(lib.toUpper(templates[k].kind));
  }

  lemma UpperCluster(upper: string)
    ensures upper + "_TEMPL_REF" == "CLUSTER_TEMPL_REF" ==> upper == "CLUSTER"
  {
    SameFront(upper, "CLUSTER", "_TEMPL_REF");
    assert "CLUSTER" + "_TEMPL_REF" == "CLUSTER_TEMPL_REF";
  }

  lemma SameFront(a: string, b: string, end: string)
    ensures a + end == b + end <==> a == b
  {
    if a + end == b + end {
      assert (a + end)[..|a + end| - |end|] == a && (b + end)[..|b + end| - |end|] == b;
    }
  }

  /** And any other template that is the only one of its upper-cased kind is named under that. */
  lemma TemplatesAreReferenced(
    lib: Library, namespace: string, templates: seq<TierTemplate>, i: nat, refs: map<string, string>)
    requires i < |templates| && templates[i].kind != "clusterresources" && RefersExactly(lib, namespace, templates, refs)
    requires forall j :: 0 <= j < |templates| && j != i ==> !Under(lib, templates[j].kind, lib.toUpper(templates[i].kind) + "_TEMPL_REF")
    ensures var key := lib.toUpper(templates[i].kind) + "_TEMPL_REF";
            key in refs && refs[key] == templates[i].name
  {
    var key := lib.toUpper(templates[i].kind) + "_TEMPL_REF";
    assert Under(lib, templates[i].kind, key);
    var k: nat :| LastUnder(lib, templates, key, k) && refs[key] == templates[k].name;
    assert k == i;
  }

  // ----- the tier object -----

  /** The objects of a tier: the tier.yaml of the tier it is based on, or its own, decoded, with the overrides set,
      processed with the references, and with the first occurrence of the source tier's name in each object's name
      replaced by the tier's own; nothing if any of this fails. */
  lemma ObjectsMadeExactly(lib: Library, namespace: string, tiers: Tiers, t: string, templates: seq<TierTemplate>)
    requires BasesLoaded(tiers) && t in tiers
    ensures var based := tiers[t].basedOn;
            var file := if based.Some? then tiers[based.value.from].raw.nsTemplateTier else tiers[t].raw.nsTemplateTier;
            var sourceName := if based.Some? then tiers[based.value.from].name else t;
            var objects := ObjectsOf(lib, namespace, tiers, t, templates);
            match file
            case None => objects == None
            case Some(yaml) =>
              match lib.decode(yaml.content)
              case None => objects == None
              case Some(decoded) =>
                var overridden := decoded.(parameters := WithParams(decoded.parameters, if based.Some? then based.value.parameters else []));
                match lib.process(overridden, References(lib, namespace, templates))
                case None => objects == None
                case Some(made) =>
                  && objects.Some? && |objects.value| == |made|
                  && forall i :: 0 <= i < |made| ==>
                       objects.value[i] == made[i].(name := ReplaceFirst(made[i].name, sourceName, t))
  {
  }

  // ----- which files a tier is made from -----

  /** A regular tier is made from its own files, each with its own revision twice; a tier based on another from
      that tier's files, with the revision of its based-on file in front and its overrides. */
  lemma TemplatesComeFrom(lib: Library, namespace: string, tiers: Tiers, t: string)
    requires BasesLoaded(tiers) && t in tiers && (tiers[t].basedOn.Some? ==> tiers[t].raw.basedOnTier.Some?)
    ensures TemplatesOf(lib, namespace, tiers, t) ==
            match tiers[t].basedOn
            case None => AllMade(lib, Target(namespace, "", t, []), Sources(tiers[t].raw))
            case Some(based) =>
              AllMade(lib, Target(namespace, tiers[t].raw.basedOnTier.value.revision, t, based.parameters),
                      Sources(tiers[based.from].raw))
  {
  }
}
