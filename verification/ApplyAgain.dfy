/** Applying a list a second time, whatever keys it repeats (pkg/client/client.go). */
module ApplyAgain {
  import opened Wrappers
  import opened Apply
  import opened ApplyLaws

  // ----- content up to the cluster IP -----

  /** A spec without the cluster IP, in the forms that retain one. */
  function Bare(form: Form, spec: Spec): Spec {
    if form.TypedOther? || !SpecOrEmpty(spec).Fields? then SpecOrEmpty(spec) else SpecOrEmpty(spec).(clusterIP := NotSet)
  }

  /** Going from the one object to the other changes the content, the cluster IP aside. */
  predicate Alters(form: Form, a: Object, b: Object) {
    Bare(form, a.spec) != Bare(form, b.spec) || Padded(b.content, a.content) != a.content
  }

  predicate SameContent(form: Form, a: Object, b: Object) {
    Bare(form, a.spec) == Bare(form, b.spec) && a.content == b.content
  }

  lemma PaddedByField(updated: map<string, Option<string>>, current: map<string, Option<string>>)
    ensures Padded(updated, current) == current <==>
            && (forall k :: k in updated ==> k in current && current[k] == updated[k])
            && (forall k :: k in current && current[k] != None ==> k in updated)
  {
    if Padded(updated, current) == current {
      assert forall k :: k in updated ==> k in Padded(updated, current) && Padded(updated, current)[k] == updated[k];
      assert forall k :: k in current ==> k in Padded(updated, current);
    }
    if && (forall k :: k in updated ==> k in current && current[k] == updated[k])
       && (forall k :: k in current && current[k] != None ==> k in updated)
    {
      assert forall k :: k in Padded(updated, current) <==> k in current;
    }
  }

  lemma AltersNothingInARow(form: Form, a: Object, b: Object, c: Object)
    requires !Alters(form, a, b) && !Alters(form, b, c)
    ensures !Alters(form, a, c)
  {
    PaddedByField(b.content, a.content);
    PaddedByField(c.content, b.content);
    PaddedByField(c.content, a.content);
  }

  lemma SameAltersNothing(form: Form, a: Object, b: Object)
    requires SameContent(form, a, b)
    ensures !Alters(form, a, b) && !Alters(form, b, a)
  {
    PaddedByField(a.content, b.content);
    PaddedByField(b.content, a.content);
  }

  // ----- one application -----

  /** The cluster IP of the object can be looked up in the form. */
  predicate Readable(s: Object, form: Form) {
    FitsForm(form, s.spec) && FoundIP(form, s.spec).Success?
  }

  /** The applied object takes on the cluster IP that the other one has, and has none if that one has none. */
  predicate Joins(s: Object, o: Object) {
    && WithIPOf(o.form, o.spec, s.spec).Success?
    && (FoundIP(o.form, s.spec) == Success(None) ==> FoundIP(o.form, o.spec) == Success(None))
  }

  /** What a successful application leaves: a cluster IP stays once there is one, a service account stays
      altogether, any other object takes over the content. Only a readable object can be updated. */
  ghost predicate Leaves(onServer: Option<Object>, s: Object, o: Object) {
    && FitsForm(o.form, s.spec)
    && (onServer.Some? ==> Readable(onServer.value, o.form))
    && (onServer.Some? && FoundIP(o.form, onServer.value.spec) != Success(None) ==>
          FoundIP(o.form, s.spec) == FoundIP(o.form, onServer.value.spec))
    && (onServer.Some? && IsServiceAccount(o) ==> s.spec == onServer.value.spec && s.content == onServer.value.content)
    && (!IsServiceAccount(o) ==> SameContent(o.form, s, o) && (Readable(s, o.form) ==> Joins(s, o)))
  }

  lemma SuccessLeaves(marshal: Marshal, onServer: Option<Object>, o: Object, faults: Faults)
    requires FitsForm(o.form, o.spec) && Applied(marshal, onServer, o, FORCED, faults).error == None
    ensures var stored := Applied(marshal, onServer, o, FORCED, faults).stored;
            stored.Some? && Leaves(onServer, stored.value, o)
  {
    if onServer.Some? {
      UpdateLeaves(marshal, onServer.value, o, faults);
    }
  }

  lemma UpdateLeaves(marshal: Marshal, existing: Object, o: Object, faults: Faults)
    requires FitsForm(o.form, o.spec) && Applied(marshal, Some(existing), o, FORCED, faults).error == None
    ensures var stored := Applied(marshal, Some(existing), o, FORCED, faults).stored;
            stored.Some? && Leaves(Some(existing), stored.value, o)
  {
    UpdatedSpec(o.form, if IsServiceAccount(o) then existing.spec else o.spec, existing.spec);
  }

  /** The spec sent is the given one with the existing cluster IP. */
  lemma UpdatedSpec(form: Form, spec: Spec, existing: Spec)
    requires FitsForm(form, spec) && FitsForm(form, existing)
    requires WithIPOf(form, spec, existing).Success?
    ensures var sent := WithIPOf(form, spec, existing).value;
            && FoundIP(form, existing).Success? && FitsForm(form, sent) && Bare(form, sent) == Bare(form, spec)
            && (FoundIP(form, existing) != Success(None) ==> FoundIP(form, sent) == FoundIP(form, existing))
            && (FoundIP(form, existing) == Success(None) ==> sent == spec)
            && (FoundIP(form, sent).Success? ==> WithIPOf(form, spec, sent).Success?)
            && (FoundIP(form, sent) == Success(None) ==> FoundIP(form, spec) == Success(None))
            && (spec == existing ==> sent == spec)
  {
  }

  /** The object on the server is readable, and the applied one joins it. */
  ghost predicate Takes(s: Object, o: Object) {
    Readable(s, o.form) && (!IsServiceAccount(o) ==> Joins(s, o))
  }

  /** Applied to an object that takes it, the content changes exactly as far as the cluster IP is not
      concerned. */
  lemma TakenExactly(marshal: Marshal, s: Object, o: Object)
    requires FitsForm(o.form, o.spec) && Takes(s, o)
    ensures var outcome := Applied(marshal, Some(s), o, FORCED, NO_FAULTS);
            && outcome.error == None
            && (outcome.changed <==> !IsServiceAccount(o) && Alters(o.form, s, o))
            && outcome.stored.Some? && Readable(outcome.stored.value, o.form)
  {
    if IsServiceAccount(o) {
      TakenServiceAccount(marshal, s, o);
    } else {
      TakenObject(marshal, s, o);
    }
  }

  lemma TakenServiceAccount(marshal: Marshal, s: Object, o: Object)
    requires FitsForm(o.form, o.spec) && Readable(s, o.form) && IsServiceAccount(o)
    ensures var outcome := Applied(marshal, Some(s), o, FORCED, NO_FAULTS);
            && outcome.error == None && !outcome.changed
            && outcome.stored.Some? && Readable(outcome.stored.value, o.form)
  {
    UpdatedSpec(o.form, s.spec, s.spec);
    PaddingItself(s);
  }

  lemma TakenObject(marshal: Marshal, s: Object, o: Object)
    requires FitsForm(o.form, o.spec) && Takes(s, o) && !IsServiceAccount(o)
    ensures var outcome := Applied(marshal, Some(s), o, FORCED, NO_FAULTS);
            && outcome.error == None && (outcome.changed <==> Alters(o.form, s, o))
            && outcome.stored.Some? && Readable(outcome.stored.value, o.form)
  {
    UpdatedSpec(o.form, o.spec, s.spec);
    SameBareSpec(o.form, o.spec, s.spec);
  }

  /** With the cluster IP taken on, specs agree exactly when they do without it. */
  lemma SameBareSpec(form: Form, spec: Spec, existing: Spec)
    requires FitsForm(form, spec) && FitsForm(form, existing) && WithIPOf(form, spec, existing).Success?
    requires FoundIP(form, existing) == Success(None) ==> FoundIP(form, spec) == Success(None)
    ensures SpecOrEmpty(WithIPOf(form, spec, existing).value) == SpecOrEmpty(existing) <==> Bare(form, spec) == Bare(form, existing)
  {
  }

  lemma PaddingItself(s: Object)
    ensures Padded(s.content, s.content) == s.content
  {
  }

  lemma StillTaken(onServer: Object, s: Object, o: Object, other: Object)
    requires Leaves(Some(onServer), s, o) && o.form == other.form && Takes(onServer, other) && Readable(s, o.form)
    requires FitsForm(other.form, other.spec)
    ensures Takes(s, other)
  {
  }

  // ----- one turn of the list -----

  lemma OneTurn(marshal: Marshal, before: Batch, o: Object, newLabels: map<string, string>, faults: Faults)
    requires before.error == None && FitsForm(o.form, o.spec) && OneMore(marshal, before, o, newLabels, faults).error == None
    ensures var after := OneMore(marshal, before, o, newLabels, faults).objects;
            && o.key in after && Leaves(OnServer(before.objects, o.key), after[o.key], o)
            && after == before.objects[o.key := after[o.key]]
  {
    SuccessLeaves(marshal, OnServer(before.objects, o.key), Labelled(o, newLabels), faults);
    SameUnderLabels(o, newLabels);
  }

  lemma SameUnderLabels(o: Object, newLabels: map<string, string>)
    ensures var l := Labelled(o, newLabels);
            && l.form == o.form && l.spec == o.spec && l.content == o.content && l.key == o.key
            && IsServiceAccount(l) == IsServiceAccount(o)
  {
  }

  lemma OneTakenTurn(marshal: Marshal, before: Batch, o: Object, newLabels: map<string, string>)
    requires before.error == None && FitsForm(o.form, o.spec) && o.key in before.objects && Takes(before.objects[o.key], o)
    ensures var after := OneMore(marshal, before, o, newLabels, NO_FAULTS);
            && after.error == None && o.key in after.objects && Readable(after.objects[o.key], o.form)
            && (after.changed <==> before.changed || (!IsServiceAccount(o) && Alters(o.form, before.objects[o.key], o)))
  {
    SameUnderLabels(o, newLabels);
    TakenExactly(marshal, before.objects[o.key], Labelled(o, newLabels));
  }

  // ----- the first call -----

  /** Objects of one key are held in one form. */
  ghost predicate OneFormPerKey(os: seq<Object>) {
    forall a, b :: a in os && b in os && a.key == b.key ==> a.form == b.form
  }

  ghost predicate AllFit(os: seq<Object>) {
    forall o :: o in os ==> FitsForm(o.form, o.spec)
  }

  /** What the server has under the keys of the list can be read in the forms of the list. */
  ghost predicate AllReadable(objects: Objects, os: seq<Object>) {
    forall o :: o in os ==> o.key in objects && Readable(objects[o.key], o.form)
  }

  ghost predicate AllTake(objects: Objects, os: seq<Object>) {
    forall o :: o in os ==> o.key in objects && Takes(objects[o.key], o)
  }

  lemma TurnKeepsAllTake(before: Objects, s: Object, o: Object, os: seq<Object>)
    requires AllFit(os) && AllTake(before, os) && Leaves(OnServer(before, o.key), s, o) && Readable(s, o.form)
    requires forall a :: a in os && a.key == o.key ==> a.form == o.form
    ensures AllTake(before[o.key := s], os) && Takes(s, o)
  {
    forall a | a in os && a.key == o.key ensures Takes(s, a) {
      StillTaken(before[o.key], s, o, a);
    }
  }

  /** After a successful call that leaves readable objects, every object of the list is taken by the one on the
      server. */
  lemma {:induction false} AllTakeAfterwards(
    marshal: Marshal, objects: Objects, os: seq<Object>, newLabels: map<string, string>, faults: seq<Faults>)
    requires |faults| == |os| && OneFormPerKey(os) && AllFit(os)
    requires AppliedAll(marshal, objects, os, newLabels, faults).error == None
    requires AllReadable(AppliedAll(marshal, objects, os, newLabels, faults).objects, os)
    ensures AllTake(AppliedAll(marshal, objects, os, newLabels, faults).objects, os)
  {
    if os != [] {
      var n := |os| - 1;
      var before := AppliedAll(marshal, objects, os[..n], newLabels, faults[..n]);
      assert os[n] in os && forall o :: o in os <==> o in os[..n] || o == os[n];
      OneTurn(marshal, before, os[n], newLabels, faults[n]);
      var after := AppliedAll(marshal, objects, os, newLabels, faults).objects;
      AllThere(marshal, objects, os[..n], newLabels, faults[..n]);
      AllTakeAfterwards(marshal, objects, os[..n], newLabels, faults[..n]);
      TurnKeepsAllTake(before.objects, after[os[n].key], os[n], os[..n]);
    }
  }

  /** A successful call leaves an object under every key of the list. */
  lemma {:induction false} AllThere(
    marshal: Marshal, objects: Objects, os: seq<Object>, newLabels: map<string, string>, faults: seq<Faults>)
    requires |faults| == |os| && AllFit(os) && AppliedAll(marshal, objects, os, newLabels, faults).error == None
    ensures forall o :: o in os ==> o.key in AppliedAll(marshal, objects, os, newLabels, faults).objects
  {
    if os != [] {
      var n := |os| - 1;
      assert os[n] in os && forall o :: o in os <==> o in os[..n] || o == os[n];
      AllThere(marshal, objects, os[..n], newLabels, faults[..n]);
      OneTurn(marshal, AppliedAll(marshal, objects, os[..n], newLabels, faults[..n]), os[n], newLabels, faults[n]);
    }
  }

  /** The last object of a key that is no service account. */
  ghost function LastOf(os: seq<Object>, key: Key): Option<Object> {
    if os == [] then None
    else
      var last := os[|os| - 1];
      if last.key == key && !IsServiceAccount(last) then Some(last) else LastOf(os[..|os| - 1], key)
  }

  lemma {:induction false} LastOfIsThere(os: seq<Object>, key: Key)
    ensures match LastOf(os, key)
            case Some(o) => o in os && o.key == key && !IsServiceAccount(o)
            case None => forall o :: o in os && o.key == key ==> IsServiceAccount(o)
  {
    if os != [] {
      var n := |os| - 1;
      LastOfIsThere(os[..n], key);
      assert os[n] in os && forall o :: o in os <==> o in os[..n] || o == os[n];
    }
  }

  ghost predicate EndsAs(objects: Objects, os: seq<Object>, key: Key) {
    var last := LastOf(os, key);
    last.Some? ==> key in objects && SameContent(last.value.form, objects[key], last.value)
  }

  /** A successful call leaves the content of the last object of each key. */
  lemma {:induction false} LastWins(
    marshal: Marshal, objects: Objects, os: seq<Object>, newLabels: map<string, string>, faults: seq<Faults>, key: Key)
    requires |faults| == |os| && OneFormPerKey(os) && AllFit(os)
    requires AppliedAll(marshal, objects, os, newLabels, faults).error == None
    ensures EndsAs(AppliedAll(marshal, objects, os, newLabels, faults).objects, os, key)
  {
    if os != [] {
      var n := |os| - 1;
      var before := AppliedAll(marshal, objects, os[..n], newLabels, faults[..n]);
      assert os[n] in os && forall o :: o in os <==> o in os[..n] || o == os[n];
      LastWins(marshal, objects, os[..n], newLabels, faults[..n], key);
      OneTurn(marshal, before, os[n], newLabels, faults[n]);
      LastOfIsThere(os[..n], key);
    }
  }

  // ----- the second call -----

  lemma OneMoreUnfaulted(marshal: Marshal, objects: Objects, os: seq<Object>, newLabels: map<string, string>)
    requires os != []
    ensures var n := |os| - 1;
            AppliedAll(marshal, objects, os, newLabels, NoFaults(|os|)) ==
            OneMore(marshal, AppliedAll(marshal, objects, os[..n], newLabels, NoFaults(n)), os[n], newLabels, NO_FAULTS)
  {
    assert NoFaults(|os|)[..|os| - 1] == NoFaults(|os| - 1);
  }

  /** On objects that take all of a list, applying part of it succeeds and they still do. */
  lemma {:induction false} SecondCallSucceeds(
    marshal: Marshal, objects: Objects, all: seq<Object>, os: seq<Object>, newLabels: map<string, string>)
    requires OneFormPerKey(all) && AllFit(all) && forall o :: o in os ==> o in all
    requires AllTake(objects, all)
    ensures var second := AppliedAll(marshal, objects, os, newLabels, NoFaults(|os|));
            second.error == None && AllTake(second.objects, all)
  {
    if os != [] {
      var n := |os| - 1;
      var before := AppliedAll(marshal, objects, os[..n], newLabels, NoFaults(n));
      assert os[n] in os && forall o :: o in os[..n] ==> o in os;
      SecondCallSucceeds(marshal, objects, all, os[..n], newLabels);
      OneMoreUnfaulted(marshal, objects, os, newLabels);
      OneTakenTurn(marshal, before, os[n], newLabels);
      OneTurn(marshal, before, os[n], newLabels, NO_FAULTS);
      var after := AppliedAll(marshal, objects, os, newLabels, NoFaults(|os|)).objects;
      TurnKeepsAllTake(before.objects, after[os[n].key], os[n], all);
    }
  }

  /** Objects of one key, service accounts aside, agree in content up to the cluster IP. */
  ghost predicate Agree(os: seq<Object>) {
    forall a, b :: a in os && b in os && a.key == b.key && !IsServiceAccount(a) && !IsServiceAccount(b) ==>
      !Alters(a.form, a, b)
  }

  /** The object on the server has the content of some object of the list with its key. */
  ghost predicate Mirrors(s: Object, os: seq<Object>, key: Key) {
    exists o :: o in os && o.key == key && !IsServiceAccount(o) && SameContent(o.form, s, o)
  }

  ghost predicate AllMirror(objects: Objects, os: seq<Object>) {
    forall o :: o in os && !IsServiceAccount(o) ==> o.key in objects && Mirrors(objects[o.key], os, o.key)
  }

  lemma QuietTurn(s: Object, o: Object, os: seq<Object>)
    requires OneFormPerKey(os) && Agree(os) && o in os && !IsServiceAccount(o) && Mirrors(s, os, o.key)
    ensures !Alters(o.form, s, o)
  {
    var a :| a in os && a.key == o.key && !IsServiceAccount(a) && SameContent(a.form, s, a);
    SameAltersNothing(o.form, s, a);
    AltersNothingInARow(o.form, s, a, o);
  }

  lemma TurnKeepsMirrors(before: Objects, s: Object, o: Object, os: seq<Object>)
    requires OneFormPerKey(os) && AllMirror(before, os) && o in os && o.key in before
    requires Leaves(Some(before[o.key]), s, o)
    ensures AllMirror(before[o.key := s], os)
  {
    var after := before[o.key := s];
    forall a | a in os && !IsServiceAccount(a) ensures a.key in after && Mirrors(after[a.key], os, a.key) {
      if a.key == o.key && IsServiceAccount(o) {
        var b :| b in os && b.key == a.key && !IsServiceAccount(b) && SameContent(b.form, before[a.key], b);
        assert SameContent(b.form, s, b);
      }
    }
  }

  lemma {:induction false} AgreeingListsAreQuiet(
    marshal: Marshal, objects: Objects, all: seq<Object>, os: seq<Object>, newLabels: map<string, string>)
    requires OneFormPerKey(all) && AllFit(all) && forall o :: o in os ==> o in all
    requires AllTake(objects, all) && Agree(all) && AllMirror(objects, all)
    ensures var second := AppliedAll(marshal, objects, os, newLabels, NoFaults(|os|));
            !second.changed && AllMirror(second.objects, all)
  {
    if os != [] {
      var n := |os| - 1;
      var before := AppliedAll(marshal, objects, os[..n], newLabels, NoFaults(n));
      assert os[n] in os && forall o :: o in os[..n] ==> o in os;
      SecondCallSucceeds(marshal, objects, all, os[..n], newLabels);
      AgreeingListsAreQuiet(marshal, objects, all, os[..n], newLabels);
      OneMoreUnfaulted(marshal, objects, os, newLabels);
      OneTakenTurn(marshal, before, os[n], newLabels);
      OneTurn(marshal, before, os[n], newLabels, NO_FAULTS);
      if !IsServiceAccount(os[n]) {
        QuietTurn(before.objects[os[n].key], os[n], all);
      }
      var after := AppliedAll(marshal, objects, os, newLabels, NoFaults(|os|)).objects;
      TurnKeepsMirrors(before.objects, after[os[n].key], os[n], all);
    }
  }

  /** From the start to the object applied, and from there to now, no content changes. */
  ghost predicate Between(start: Object, now: Object, o: Object, applied: bool) {
    && !Alters(o.form, start, now)
    && (applied && !IsServiceAccount(o) ==> !Alters(o.form, start, o) && !Alters(o.form, o, now))
  }

  ghost predicate AllBetween(start: Objects, now: Objects, all: seq<Object>, os: seq<Object>) {
    forall o :: o in all ==> o.key in start && o.key in now && Between(start[o.key], now[o.key], o, o in os)
  }

  lemma BetweenGoesOn(start: Object, now: Object, next: Object, o: Object, applied: bool)
    requires Between(start, now, o, applied) && !Alters(o.form, now, next)
    ensures Between(start, next, o, applied)
  {
    AltersNothingInARow(o.form, start, now, next);
    if applied && !IsServiceAccount(o) {
      AltersNothingInARow(o.form, o, now, next);
    }
  }

  /** One quiet turn: what is on the server, the object applied and what is then there agree. */
  lemma QuietTurnBetween(start: Object, now: Object, next: Object, o: Object)
    requires Leaves(Some(now), next, o) && (!IsServiceAccount(o) ==> !Alters(o.form, now, o))
    requires !Alters(o.form, start, now)
    ensures !Alters(o.form, now, next) && Between(start, next, o, true)
  {
    if IsServiceAccount(o) {
      SameAltersNothing(o.form, now, next);
      AltersNothingInARow(o.form, start, now, next);
    } else {
      SameAltersNothing(o.form, next, o);
      AltersNothingInARow(o.form, start, now, o);
      AltersNothingInARow(o.form, now, o, next);
      AltersNothingInARow(o.form, start, now, next);
    }
  }

  lemma {:induction false} QuietCallsAgree(
    marshal: Marshal, objects: Objects, all: seq<Object>, os: seq<Object>, newLabels: map<string, string>)
    requires OneFormPerKey(all) && AllFit(all) && forall o :: o in os ==> o in all
    requires AllTake(objects, all) && !AppliedAll(marshal, objects, os, newLabels, NoFaults(|os|)).changed
    ensures AllBetween(objects, AppliedAll(marshal, objects, os, newLabels, NoFaults(|os|)).objects, all, os)
  {
    if os == [] {
      forall o | o in all ensures Between(objects[o.key], objects[o.key], o, false) {
        SameAltersNothing(o.form, objects[o.key], objects[o.key]);
      }
    } else {
      var n := |os| - 1;
      var before := AppliedAll(marshal, objects, os[..n], newLabels, NoFaults(n));
      assert os[n] in os && forall o :: o in os <==> o in os[..n] || o == os[n];
      SecondCallSucceeds(marshal, objects, all, os[..n], newLabels);
      OneMoreUnfaulted(marshal, objects, os, newLabels);
      OneTakenTurn(marshal, before, os[n], newLabels);
      OneTurn(marshal, before, os[n], newLabels, NO_FAULTS);
      QuietCallsAgree(marshal, objects, all, os[..n], newLabels);
      var after := AppliedAll(marshal, objects, os, newLabels, NoFaults(|os|)).objects;
      OneMoreBetween(objects, before.objects, after, all, os);
    }
  }

  lemma OneMoreBetween(start: Objects, before: Objects, after: Objects, all: seq<Object>, os: seq<Object>)
    requires os != [] && OneFormPerKey(all) && os[|os| - 1] in all
    requires AllBetween(start, before, all, os[..|os| - 1])
    requires var o := os[|os| - 1];
             && o.key in after && after == before[o.key := after[o.key]]
             && Leaves(Some(before[o.key]), after[o.key], o)
             && (!IsServiceAccount(o) ==> !Alters(o.form, before[o.key], o))
    ensures AllBetween(start, after, all, os)
  {
    var n := |os| - 1;
    var last := os[n];
    QuietTurnBetween(start[last.key], before[last.key], after[last.key], last);
    forall o | o in all ensures Between(start[o.key], after[o.key], o, o in os) {
      assert o in os <==> o in os[..n] || o == last;
      if o.key == last.key && o != last {
        BetweenGoesOn(start[o.key], before[o.key], after[o.key], o, o in os[..n]);
      }
    }
  }

  /** What is between a start and an end of one content agrees. */
  lemma BetweenSameEnds(start: Object, now: Object, a: Object, b: Object, last: Object)
    requires a.form == b.form == last.form && !IsServiceAccount(a) && !IsServiceAccount(b)
    requires Between(start, now, a, true) && Between(start, now, b, true)
    requires SameContent(last.form, start, last) && SameContent(last.form, now, last)
    ensures !Alters(a.form, a, b)
  {
    SameAltersNothing(a.form, now, start);
    AltersNothingInARow(a.form, a, now, start);
    AltersNothingInARow(a.form, a, start, b);
  }

  /** A call succeeds only on objects it can read, if they were there before. */
  lemma {:induction false} OnlyReadableIsUpdated(
    marshal: Marshal, objects: Objects, os: seq<Object>, newLabels: map<string, string>, faults: seq<Faults>)
    requires |faults| == |os| && OneFormPerKey(os) && AllFit(os)
    requires AppliedAll(marshal, objects, os, newLabels, faults).error == None
    ensures forall o :: o in os && o.key in objects ==> Readable(objects[o.key], o.form)
  {
    if os != [] {
      var n := |os| - 1;
      assert os[n] in os && forall o :: o in os <==> o in os[..n] || o == os[n];
      OnlyReadableIsUpdated(marshal, objects, os[..n], newLabels, faults[..n]);
      OneTurn(marshal, AppliedAll(marshal, objects, os[..n], newLabels, faults[..n]), os[n], newLabels, faults[n]);
      MetOrAsBefore(marshal, objects, os[..n], newLabels, faults[..n], os[n].key);
    }
  }

  lemma MetOrAsBefore(
    marshal: Marshal, objects: Objects, os: seq<Object>, newLabels: map<string, string>, faults: seq<Faults>, key: Key)
    requires |faults| == |os|
    ensures || (exists o :: o in os && o.key == key)
            || OnServer(AppliedAll(marshal, objects, os, newLabels, faults).objects, key) == OnServer(objects, key)
  {
    if forall i :: 0 <= i < |os| ==> os[i].key != key {
      OtherKeysStay(marshal, objects, os, newLabels, faults, key);
    } else {
      var i :| 0 <= i < |os| && os[i].key == key;
      assert os[i] in os;
    }
  }

  /** Exactly when applying a list again succeeds, and when it settles: after a successful first call, the second
      succeeds if and only if the first has left readable objects; it then reports a change exactly when two
      objects of one key, neither a service account, differ in content, the cluster IP aside. */
  lemma SettlesExactly(
    marshal: Marshal, objects: Objects, os: seq<Object>, newLabels: map<string, string>, faults: seq<Faults>)
    requires |faults| == |os| && OneFormPerKey(os) && AllFit(os)
    requires AppliedAll(marshal, objects, os, newLabels, faults).error == None
    ensures var first := AppliedAll(marshal, objects, os, newLabels, faults);
            var second := AppliedAll(marshal, first.objects, os, newLabels, NoFaults(|os|));
            && (second.error == None <==> AllReadable(first.objects, os))
            && (second.error == None ==> (!second.changed <==> Agree(os)))
  {
    var first := AppliedAll(marshal, objects, os, newLabels, faults).objects;
    AllThere(marshal, objects, os, newLabels, faults);
    if AllReadable(first, os) {
      ReadableListsSettle(marshal, objects, os, newLabels, faults);
    } else if AppliedAll(marshal, first, os, newLabels, NoFaults(|os|)).error == None {
      OnlyReadableIsUpdated(marshal, first, os, newLabels, NoFaults(|os|));
      assert false;
    }
  }

  lemma ReadableListsSettle(
    marshal: Marshal, objects: Objects, os: seq<Object>, newLabels: map<string, string>, faults: seq<Faults>)
    requires |faults| == |os| && OneFormPerKey(os) && AllFit(os)
    requires AppliedAll(marshal, objects, os, newLabels, faults).error == None
    requires AllReadable(AppliedAll(marshal, objects, os, newLabels, faults).objects, os)
    ensures var first := AppliedAll(marshal, objects, os, newLabels, faults);
            var second := AppliedAll(marshal, first.objects, os, newLabels, NoFaults(|os|));
            second.error == None && (!second.changed <==> Agree(os))
  {
    var first := AppliedAll(marshal, objects, os, newLabels, faults).objects;
    AllTakeAfterwards(marshal, objects, os, newLabels, faults);
    SecondCallSucceeds(marshal, first, os, os, newLabels);
    if Agree(os) {
      forall o | o in os && !IsServiceAccount(o) ensures o.key in first && Mirrors(first[o.key], os, o.key) {
        LastWins(marshal, objects, os, newLabels, faults, o.key);
        LastOfIsThere(os, o.key);
      }
      AgreeingListsAreQuiet(marshal, first, os, os, newLabels);
    }
    if !AppliedAll(marshal, first, os, newLabels, NoFaults(|os|)).changed {
      QuietListsAgree(marshal, objects, os, newLabels, faults);
    }
  }

  /** Where unstructured specs can carry a cluster IP, what is left is readable. */
  lemma {:induction false} ProperListsStayReadable(
    marshal: Marshal, objects: Objects, os: seq<Object>, newLabels: map<string, string>, faults: seq<Faults>)
    requires |faults| == |os| && OneFormPerKey(os) && AllFit(os) && forall o :: o in os ==> Proper(o)
    requires AppliedAll(marshal, objects, os, newLabels, faults).error == None
    ensures AllReadable(AppliedAll(marshal, objects, os, newLabels, faults).objects, os)
  {
    if os != [] {
      var n := |os| - 1;
      var before := AppliedAll(marshal, objects, os[..n], newLabels, faults[..n]);
      assert os[n] in os && forall o :: o in os <==> o in os[..n] || o == os[n];
      ProperListsStayReadable(marshal, objects, os[..n], newLabels, faults[..n]);
      OneTurn(marshal, before, os[n], newLabels, faults[n]);
      ProperStaysReadable(marshal, OnServer(before.objects, os[n].key), Labelled(os[n], newLabels), faults[n]);
    }
  }

  lemma ProperStaysReadable(marshal: Marshal, onServer: Option<Object>, o: Object, faults: Faults)
    requires FitsForm(o.form, o.spec) && Proper(o) && Applied(marshal, onServer, o, FORCED, faults).error == None
    ensures Readable(Applied(marshal, onServer, o, FORCED, faults).stored.value, o.form)
  {
    SuccessLeaves(marshal, onServer, o, faults);
  }

  lemma QuietListsAgree(
    marshal: Marshal, objects: Objects, os: seq<Object>, newLabels: map<string, string>, faults: seq<Faults>)
    requires |faults| == |os| && OneFormPerKey(os) && AllFit(os)
    requires var first := AppliedAll(marshal, objects, os, newLabels, faults);
             && first.error == None && AllTake(first.objects, os)
             && !AppliedAll(marshal, first.objects, os, newLabels, NoFaults(|os|)).changed
    ensures Agree(os)
  {
    var first := AppliedAll(marshal, objects, os, newLabels, faults).objects;
    var second := AppliedAll(marshal, first, os, newLabels, NoFaults(|os|)).objects;
    SecondCallSucceeds(marshal, first, os, os, newLabels);
    QuietCallsAgree(marshal, first, os, os, newLabels);
    forall a, b | a in os && b in os && a.key == b.key && !IsServiceAccount(a) && !IsServiceAccount(b)
      ensures !Alters(a.form, a, b)
    {
      LastWins(marshal, objects, os, newLabels, faults, a.key);
      LastWins(marshal, first, os, newLabels, NoFaults(|os|), a.key);
      LastOfIsThere(os, a.key);
      BetweenSameEnds(first[a.key], second[a.key], a, b, LastOf(os, a.key).value);
    }
  }

  /** For two typed objects of one key, neither a service account nor a Service, this reads: the second call
      changes something exactly when the one would change the other. */
  lemma TwoOfOneKey(marshal: Marshal, objects: Objects, a: Object, b: Object, newLabels: map<string, string>, faults: seq<Faults>)
    requires a.form == b.form == TypedOther && !IsServiceAccount(a) && !IsServiceAccount(b) && a.key == b.key
    requires |faults| == 2 && AppliedAll(marshal, objects, [a, b], newLabels, faults).error == None
    ensures var first := AppliedAll(marshal, objects, [a, b], newLabels, faults);
            var second := AppliedAll(marshal, first.objects, [a, b], newLabels, NoFaults(2));
            second.error == None && (second.changed <==> ContentChanges(a, b) || ContentChanges(b, a))
  {
    AgreeingPair(a, b);
    ProperListsStayReadable(marshal, objects, [a, b], newLabels, faults);
    SettlesExactly(marshal, objects, [a, b], newLabels, faults);
  }

  lemma AgreeingPair(a: Object, b: Object)
    requires a.form == b.form == TypedOther && !IsServiceAccount(a) && !IsServiceAccount(b) && a.key == b.key
    ensures OneFormPerKey([a, b]) && AllFit([a, b]) && forall o :: o in [a, b] ==> Proper(o)
    ensures Agree([a, b]) <==> !ContentChanges(a, b) && !ContentChanges(b, a)
  {
    SameAltersNothing(a.form, a, a);
    SameAltersNothing(b.form, b, b);
    assert a in [a, b] && b in [a, b];
  }
}
