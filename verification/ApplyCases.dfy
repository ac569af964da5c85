/** What an application does, case by case, told from the fields of the objects and the options
    (pkg/client/client.go). */
module ApplyCases {
  import opened Wrappers
  import opened Apply
  import opened ApplyLaws

  // ----- the saved configuration -----

  /** What is marshalled as the new configuration: a typed object without its old annotation, unstructured
      content with it. */
  function ConfigurationOf(marshal: Marshal, o: Object): string {
    match o.form
    case Unstructured => marshal(o)
    case TypedService => marshal(o.(annotations := o.annotations - {"toolchain.dev.openshift.com/last-applied-configuration"}))
    case TypedOther => marshal(o.(annotations := o.annotations - {"toolchain.dev.openshift.com/last-applied-configuration"}))
  }

  /** The annotations sent: those of the object, and its configuration if that is to be saved. */
  function AnnotationsOf(marshal: Marshal, o: Object, opts: Options): map<string, string> {
    if opts.saveConfiguration
    then o.annotations["toolchain.dev.openshift.com/last-applied-configuration" := ConfigurationOf(marshal, o)]
    else o.annotations
  }

  lemma AnnotationsAreSent(marshal: Marshal, o: Object, opts: Options)
    ensures Annotated(marshal, o, opts) == o.(annotations := AnnotationsOf(marshal, o, opts))
    ensures NewConfiguration(marshal, o) == ConfigurationOf(marshal, o)
  {
  }

  // ----- creation -----

  /** A missing object is created exactly when neither the look-up nor the creation fails and no other
      controller is in the way of the owner; it is then stored as given, with its configuration if that is to be
      saved, with the owner if there is one, and with generation and version 1. */
  lemma CreatedExactly(marshal: Marshal, o: Object, opts: Options, faults: Faults)
    ensures var outcome := Applied(marshal, None, o, opts, faults);
            && (outcome.error == None <==>
                  && !faults.get && !faults.write
                  && (opts.owner.Some? ==> !faults.setOwner && (o.controller == None || o.controller == opts.owner)))
            && (outcome.error == None ==>
                  outcome == Outcome(
                    Some(o.(annotations := AnnotationsOf(marshal, o, opts),
                            controller := if opts.owner.Some? then opts.owner else o.controller,
                            generation := 1, resourceVersion := Some(1))),
                    true, true, None))
  {
    AnnotationsAreSent(marshal, o, opts);
  }

  // ----- writing or skipping -----

  /** An existing object is written, unless that fails, if and only if the application is forced, or saves no
      configuration, or the existing object does not carry the configuration that is to be saved. */
  lemma WritesExactly(marshal: Marshal, existing: Object, o: Object, opts: Options, faults: Faults)
    requires Applied(marshal, Some(existing), o, opts, faults).error == None
    ensures var key := "toolchain.dev.openshift.com/last-applied-configuration";
            Applied(marshal, Some(existing), o, opts, faults).wrote <==>
            || opts.forceUpdate || !opts.saveConfiguration
            || key !in existing.annotations || existing.annotations[key] != ConfigurationOf(marshal, o)
    ensures !Applied(marshal, Some(existing), o, opts, faults).wrote ==>
              Applied(marshal, Some(existing), o, opts, faults) == Outcome(Some(existing), false, false, None)
  {
    AnnotationsAreSent(marshal, o, opts);
  }

  // ----- updates -----

  /** The cluster IP an existing object holds for a form: Services in Go form and unstructured content hold one,
      other Go objects do not. */
  function HeldIP(form: Form, spec: Spec): Option<string> {
    if !form.TypedOther? && spec.Fields? && spec.clusterIP.Text? then Some(spec.clusterIP.ip) else None
  }

  /** What a write leaves of an object that is no service account: the object as given with the annotations
      sent, the existing cluster IP if one is held, the next version, and the same or the next generation. */
  lemma UpdatedExactly(marshal: Marshal, existing: Object, o: Object, opts: Options, faults: Faults)
    requires !IsServiceAccount(o) && Applied(marshal, Some(existing), o, opts, faults).wrote
    ensures var stored := Applied(marshal, Some(existing), o, opts, faults).stored.value;
            && stored.(spec := o.spec, generation := o.generation) ==
               o.(annotations := AnnotationsOf(marshal, o, opts),
                  resourceVersion := Some(if existing.resourceVersion.Some? then existing.resourceVersion.value + 1 else 1))
            && stored.spec ==
               (match HeldIP(o.form, existing.spec)
                case None => o.spec
                case Some(ip) => Fields(Text(ip), if o.spec.Fields? then o.spec.rest else map[]))
            && (stored.generation == existing.generation || stored.generation == existing.generation + 1)
  {
    AnnotationsAreSent(marshal, o, opts);
  }

  /** A service account that is written stays as it is on the server, but for labels and annotations: those
      given override the existing ones. */
  lemma ServiceAccountExactly(marshal: Marshal, existing: Object, o: Object, opts: Options, faults: Faults)
    requires IsServiceAccount(o) && Applied(marshal, Some(existing), o, opts, faults).wrote
    ensures var stored := Applied(marshal, Some(existing), o, opts, faults).stored.value;
            stored == existing.(
              form := o.form, kind := o.kind, key := o.key,
              labels := existing.labels + o.labels, annotations := existing.annotations + AnnotationsOf(marshal, o, opts),
              resourceVersion := Some(if existing.resourceVersion.Some? then existing.resourceVersion.value + 1 else 1))
  {
    AnnotationsAreSent(marshal, o, opts);
    assert Padded(existing.content, existing.content) == existing.content;
  }

  /** So an application that saves no configuration leaves the content it was given, whatever is there, service
      accounts and the cluster IP aside. */
  lemma UnsavedApplicationsWrite(marshal: Marshal, existing: Object, o: Object, opts: Options, faults: Faults)
    requires !opts.saveConfiguration && !IsServiceAccount(o)
    requires Applied(marshal, Some(existing), o, opts, faults).error == None
    ensures var outcome := Applied(marshal, Some(existing), o, opts, faults);
            && outcome.wrote && outcome.stored.value.content == o.content
            && outcome.stored.value.labels == o.labels && outcome.stored.value.annotations == o.annotations
            && (HeldIP(o.form, existing.spec) == None ==> outcome.stored.value.spec == o.spec)
  {
    WritesExactly(marshal, existing, o, opts, faults);
    UpdatedExactly(marshal, existing, o, opts, faults);
  }

  // ----- errors -----

  /** The existing spec cannot be read for a cluster IP, or the new one cannot take the existing one on. */
  predicate NoPlaceForIP(o: Object, existing: Object) {
    o.form.Unstructured? &&
    match existing.spec
    case NoSpec => false
    case NoMap(_) => true
    case Fields(clusterIP, _) => clusterIP.NotText? || (clusterIP.Text? && o.spec.NoMap? && !IsServiceAccount(o))
  }

  /** Which error an application to an existing object ends with, if any: a failed read, else none if it is
      skipped, else a cluster IP that cannot be retained, else a failed write. */
  lemma UpdateErrorsExactly(marshal: Marshal, existing: Object, o: Object, opts: Options, faults: Faults)
    requires FitsForm(o.form, o.spec)
    ensures var key := "toolchain.dev.openshift.com/last-applied-configuration";
            Applied(marshal, Some(existing), o, opts, faults).error ==
            if faults.get || !FitsForm(o.form, existing.spec) then Some(GetFailed)
            else if !opts.forceUpdate && opts.saveConfiguration && key in existing.annotations
                    && existing.annotations[key] == ConfigurationOf(marshal, o) then None
            else if NoPlaceForIP(o, existing) then Some(ClusterIPNotRetained)
            else if faults.write then Some(UpdateFailed)
            else None
  {
    AnnotationsAreSent(marshal, o, opts);
  }

  // ----- kinds -----

  /** Lower case for ASCII letters. */
  function Lowered(s: string): (r: string)
    ensures |r| == |s| && forall i :: 0 <= i < |s| ==> r[i] == if 'A' <= s[i] <= 'Z' then s[i] + 32 as char else s[i]
  {
    seq(|s|, i requires 0 <= i < |s| => if 'A' <= s[i] <= 'Z' then s[i] + 32 as char else s[i])
  }

  /** Among kinds of ASCII characters, service accounts are those that read `serviceaccount` in any case. */
  lemma ServiceAccountsByKind(o: Object)
    requires forall i :: 0 <= i < |o.kind| ==> o.kind[i] < 128 as char
    ensures IsServiceAccount(o) <==> Lowered(o.kind) == "serviceaccount"
  {
    LoweredServiceAccount();
    SameWhenFolded(o.kind, "ServiceAccount");
  }

  lemma LoweredServiceAccount()
    ensures Lowered("ServiceAccount") == "serviceaccount"
  {
  }

  lemma SameWhenFolded(a: string, b: string)
    requires forall i :: 0 <= i < |a| ==> a[i] < 128 as char
    requires forall i :: 0 <= i < |b| ==> b[i] < 128 as char
    ensures EqualFold(a, b) <==> Lowered(a) == Lowered(b)
  {
    if Lowered(a) == Lowered(b) {
      assert forall i :: 0 <= i < |a| ==> Lowered(a)[i] == Lowered(b)[i];
    }
  }

  // ----- lists -----

  /** Every object of a list is written: lists are applied with force. */
  lemma ListsAreForced(marshal: Marshal, onServer: Option<Object>, o: Object, faults: Faults)
    requires Applied(marshal, onServer, o, FORCED, faults).error == None
    ensures Applied(marshal, onServer, o, FORCED, faults).wrote
  {
  }

  /** The new labels go over the object's own, and nothing else of it changes. */
  lemma LabelsExactly(o: Object, newLabels: map<string, string>)
    ensures var labelled := Labelled(o, newLabels);
            && (forall k :: k in labelled.labels <==> k in o.labels || k in newLabels)
            && (forall k :: k in labelled.labels ==> labelled.labels[k] == if k in newLabels then newLabels[k] else o.labels[k])
            && labelled.(labels := o.labels) == o
  {
  }
}
