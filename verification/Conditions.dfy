/** Status conditions: lists with one entry per type, updated without touching the caller's list
    (pkg/condition/condition.go). Times are instants read from a clock. */
module Conditions {
  import opened Wrappers

  datatype Condition = Condition(
    kind: string, status: string, reason: string, message: string,
    lastTransitionTime: int, lastUpdatedTime: Option<int>)

  /** The first position holding a type, or the length when no position does. */
  function IndexOf(conditions: seq<Condition>, kind: string): (i: nat)
    ensures i <= |conditions|
    ensures i < |conditions| ==> conditions[i].kind == kind
    ensures forall j :: 0 <= j < i ==> conditions[j].kind != kind
  {
    if conditions == [] || conditions[0].kind == kind then 0 else 1 + IndexOf(conditions[1..], kind)
  }

  function Find(conditions: seq<Condition>, kind: string): Option<Condition> {
    var i := IndexOf(conditions, kind);
    if i < |conditions| then Some(conditions[i]) else None
  }

  method FindConditionByType(conditions: seq<Condition>, kind: string) returns (found: Option<Condition>)
    ensures found == Find(conditions, kind)
  {
    for i := 0 to |conditions|
      invariant forall j :: 0 <= j < i ==> conditions[j].kind != kind
    {
      if conditions[i].kind == kind {
        return Some(conditions[i]);
      }
    }
    return None;
  }

  predicate SaysTheSame(a: Condition, b: Condition) {
    a.status == b.status && a.reason == b.reason && a.message == b.message
  }

  function Stamped(condition: Condition, touch: bool, now: int): Condition {
    condition.(lastTransitionTime := now, lastUpdatedTime := if touch then Some(now) else condition.lastUpdatedTime)
  }

  /** The list and the flag addOrUpdateStatusCondition returns when the clock reads now. */
  function AddOrUpdate(conditions: seq<Condition>, condition: Condition, touch: bool, now: int): (seq<Condition>, bool) {
    var i, stamped := IndexOf(conditions, condition.kind), Stamped(condition, touch, now);
    if i == |conditions| then (conditions + [stamped], true)
    else if !touch && SaysTheSame(conditions[i], condition) then (conditions, false)
    else if conditions[i].status == condition.status then
      (conditions[i := stamped.(lastTransitionTime := conditions[i].lastTransitionTime)], true)
    else (conditions[i := stamped], true)
  }

  /** A look-up finds the first condition of the type. */
  lemma FoundExactly(conditions: seq<Condition>, kind: string)
    ensures match Find(conditions, kind)
            case None => forall i :: 0 <= i < |conditions| ==> conditions[i].kind != kind
            case Some(c) => exists i :: 0 <= i < |conditions| && conditions[i] == c && c.kind == kind
                              && forall j :: 0 <= j < i ==> conditions[j].kind != kind
  {
    var i := IndexOf(conditions, kind);
  }

  /** A new type is added at the end. */
  lemma AddedExactly(conditions: seq<Condition>, condition: Condition, touch: bool, now: int)
    requires forall i :: 0 <= i < |conditions| ==> conditions[i].kind != condition.kind
    ensures AddOrUpdate(conditions, condition, touch, now) ==
            (conditions + [Condition(condition.kind, condition.status, condition.reason, condition.message, now,
                                     if touch then Some(now) else condition.lastUpdatedTime)], true)
  {
  }

  /** The first condition of a known type is replaced in its place, unless it says the same and no last-updated time
      is asked for; the transition time stays as long as the status does. */
  lemma UpdatedExactly(conditions: seq<Condition>, condition: Condition, touch: bool, now: int, i: nat)
    requires i < |conditions| && conditions[i].kind == condition.kind
    requires forall j :: 0 <= j < i ==> conditions[j].kind != condition.kind
    ensures var was := conditions[i];
            AddOrUpdate(conditions, condition, touch, now) ==
            if !touch && was.status == condition.status && was.reason == condition.reason && was.message == condition.message
            then (conditions, false)
            else (conditions[i := Condition(
                    condition.kind, condition.status, condition.reason, condition.message,
                    if was.status == condition.status then was.lastTransitionTime else now,
                    if touch then Some(now) else condition.lastUpdatedTime)], true)
  {
    assert IndexOf(conditions, condition.kind) == i;
  }

  // ----- slices -----

  /** A Go slice: nothing, or the first cells of a backing array with the rest as spare capacity. */
  datatype Slice = Nil | Slice(cells: array<Condition>, length: nat)

  ghost predicate Valid(s: Slice) {
    s.Slice? ==> s.length <= s.cells.Length
  }

  ghost function Backing(s: Slice): set<object> {
    if s.Slice? then {s.cells} else {}
  }

  ghost function Elements(s: Slice): seq<Condition>
    requires Valid(s)
    reads Backing(s)
  {
    if s.Slice? then s.cells[..s.length] else []
  }

  method MakeSlice(elements: seq<Condition>, capacity: nat) returns (s: Slice)
    requires |elements| <= capacity && elements != []
    ensures Valid(s) && s.Slice? && fresh(s.cells) && s.length == |elements| && Elements(s) == elements
  {
    var cells := new Condition[capacity](i => if 0 <= i < |elements| then elements[i] else elements[0]);
    s := Slice(cells, |elements|);
  }

  /** The result lives in a new array, or it is the old slice, possibly longer. */
  twostate predicate FreshOrGrown(s: Slice, new r: Slice) {
    || r == s
    || (r.Slice? && fresh(r.cells))
    || (s.Slice? && r.Slice? && r.cells == s.cells && r.length >= s.length)
  }

  /** Go's append of one element: into the spare capacity when there is some, else to a new array. */
  method Append(s: Slice, condition: Condition) returns (r: Slice)
    requires Valid(s)
    modifies Backing(s)
    ensures Valid(r) && r.Slice? && Elements(r) == old(Elements(s)) + [condition]
    ensures FreshOrGrown(s, r)
    ensures Elements(s) == old(Elements(s))
  {
    if s.Slice? && s.length < s.cells.Length {
      s.cells[s.length] := condition;
      return Slice(s.cells, s.length + 1);
    }
    var elements := if s.Slice? then s.cells[..s.length] else [];
    var capacity: nat :| capacity > |elements|;
    r := MakeSlice(elements + [condition], capacity);
  }

  /** addOrUpdateStatusCondition: the result is the specified list; the elements of the slice passed in
      are never altered, although the result may share its backing array. */
  method AddOrUpdateStatusCondition(conditions: Slice, condition: Condition, touch: bool, now: int)
    returns (result: Slice, updated: bool)
    requires Valid(conditions)
    modifies Backing(conditions)
    ensures Valid(result)
    ensures var specified := AddOrUpdate(old(Elements(conditions)), condition, touch, now);
            Elements(result) == specified.0 && updated == specified.1
    ensures Elements(conditions) == old(Elements(conditions))
    ensures FreshOrGrown(conditions, result)
  {
    var newCondition := condition.(lastTransitionTime := now);
    if touch {
      newCondition := newCondition.(lastUpdatedTime := Some(now));
    }
    if conditions.Nil? {
      result := MakeSlice([newCondition], 1);
      return result, true;
    }
    ghost var all := Elements(conditions);
    for i := 0 to conditions.length
      invariant Elements(conditions) == all == old(Elements(conditions))
      invariant forall j :: 0 <= j < i ==> all[j].kind != condition.kind
    {
      var cond := conditions.cells[i];
      if cond.kind == newCondition.kind {
        assert IndexOf(all, condition.kind) == i;
        if !touch && cond.status == newCondition.status && cond.reason == newCondition.reason
           && cond.message == newCondition.message {
          return conditions, false;
        }
        if newCondition.status == cond.status {
          newCondition := newCondition.(lastTransitionTime := cond.lastTransitionTime);
        }
        result := MakeSlice(conditions.cells[..conditions.length], conditions.length);
        result.cells[i] := newCondition;
        assert Elements(result) == all[i := newCondition];
        return result, true;
      }
    }
    assert IndexOf(all, condition.kind) == |all|;
    result := Append(conditions, newCondition);
    updated := true;
  }

  // ----- batches and runs -----

  /** One update: the condition, whether the last-updated time is asked for, and the clock reading. */
  datatype Event = Event(condition: Condition, touch: bool, now: int)

  function Run(initial: seq<Condition>, events: seq<Event>): seq<Condition> {
    if events == [] then initial
    else
      var last := events[|events| - 1];
      AddOrUpdate(Run(initial, events[..|events| - 1]), last.condition, last.touch, last.now).0
  }

  /** Some update of the run reported a change. */
  function AnyUpdated(initial: seq<Condition>, events: seq<Event>): bool {
    if events == [] then false
    else
      var last := events[|events| - 1];
      var before := events[..|events| - 1];
      AnyUpdated(initial, before) || AddOrUpdate(Run(initial, before), last.condition, last.touch, last.now).1
  }

  /** One turn of the batch: the slice the caller holds keeps its elements too. */
  method UpdateOneMore(ghost held: Slice, conditions: Slice, e: Event) returns (result: Slice, updated: bool)
    requires Valid(held) && Valid(conditions)
    requires held.Slice? && conditions.Slice? && held.cells == conditions.cells ==> held.length <= conditions.length
    modifies Backing(conditions)
    ensures Valid(result)
    ensures (Elements(result), updated) == AddOrUpdate(old(Elements(conditions)), e.condition, e.touch, e.now)
    ensures Elements(held) == old(Elements(held))
    ensures FreshOrGrown(conditions, result)
  {
    result, updated := AddOrUpdateStatusCondition(conditions, e.condition, e.touch, e.now);
    if held.Slice? && conditions.Slice? && held.cells == conditions.cells {
      assert Elements(held) == Elements(conditions)[..held.length];
      assert old(Elements(held)) == old(Elements(conditions))[..held.length];
    }
  }

  /** addOrUpdateStatusConditions: one clock reading per condition. */
  method AddOrUpdateStatusConditions(conditions: Slice, events: seq<Event>) returns (result: Slice, atLeastOneUpdated: bool)
    requires Valid(conditions)
    modifies Backing(conditions)
    ensures Valid(result)
    ensures Elements(result) == Run(old(Elements(conditions)), events)
    ensures atLeastOneUpdated == AnyUpdated(old(Elements(conditions)), events)
    ensures Elements(conditions) == old(Elements(conditions))
  {
    ghost var was := Elements(conditions);
    result, atLeastOneUpdated := conditions, false;
    for i := 0 to |events|
      invariant Valid(result) && Elements(conditions) == was
      invariant Elements(result) == Run(was, events[..i])
      invariant atLeastOneUpdated == AnyUpdated(was, events[..i])
      invariant FreshOrGrown(conditions, result)
    {
      RunOneMore(was, events, i);
      var updated;
      result, updated := UpdateOneMore(conditions, result, events[i]);
      atLeastOneUpdated := atLeastOneUpdated || updated;
    }
    assert events[..|events|] == events;
  }

  lemma RunOneMore(initial: seq<Condition>, events: seq<Event>, i: nat)
    requires i < |events|
    ensures var step := AddOrUpdate(Run(initial, events[..i]), events[i].condition, events[i].touch, events[i].now);
            && Run(initial, events[..i + 1]) == step.0
            && AnyUpdated(initial, events[..i + 1]) == (AnyUpdated(initial, events[..i]) || step.1)
  {
    assert events[..i + 1][..i] == events[..i];
  }

  // ----- what a look-up finds after a run -----

  datatype Said = Said(status: string, reason: string, message: string)

  /** What was last written about a type: by its latest update, else by the initial list. */
  ghost function LastSaid(initial: seq<Condition>, events: seq<Event>, kind: string): Option<Said> {
    if events == [] then
      match Find(initial, kind)
      case Some(c) => Some(Said(c.status, c.reason, c.message))
      case None => None
    else
      var last := events[|events| - 1].condition;
      if last.kind == kind then Some(Said(last.status, last.reason, last.message))
      else LastSaid(initial, events[..|events| - 1], kind)
  }

  ghost predicate ChangesStatus(initial: seq<Condition>, before: seq<Event>, condition: Condition) {
    var said := LastSaid(initial, before, condition.kind);
    said.None? || said.value.status != condition.status
  }

  /** The reading of the clock at the latest update that brought the type in or changed its status,
      else the time the initial list gives. */
  ghost function TransitionTime(initial: seq<Condition>, events: seq<Event>, kind: string): Option<int> {
    if events == [] then
      match Find(initial, kind)
      case Some(c) => Some(c.lastTransitionTime)
      case None => None
    else
      var last, before := events[|events| - 1], events[..|events| - 1];
      if last.condition.kind == kind && ChangesStatus(initial, before, last.condition) then Some(last.now)
      else TransitionTime(initial, before, kind)
  }

  /** What becomes of the entry of a type, if there is one, when the type is updated. */
  function Revised(was: Option<Condition>, condition: Condition, touch: bool, now: int): Condition {
    if was.Some? && !touch && SaysTheSame(was.value, condition) then was.value
    else if was.Some? && was.value.status == condition.status then
      Stamped(condition, touch, now).(lastTransitionTime := was.value.lastTransitionTime)
    else Stamped(condition, touch, now)
  }

  /** An update revises the entry a look-up of its type finds, and no other. */
  lemma FindAfterUpdate(conditions: seq<Condition>, condition: Condition, touch: bool, now: int, kind: string)
    ensures Find(AddOrUpdate(conditions, condition, touch, now).0, kind) ==
            if kind == condition.kind then Some(Revised(Find(conditions, kind), condition, touch, now))
            else Find(conditions, kind)
  {
    var revised := Revised(Find(conditions, condition.kind), condition, touch, now);
    if IndexOf(conditions, condition.kind) == |conditions| {
      FindAppended(conditions, revised, kind);
    } else {
      FindReplaced(conditions, revised, kind);
    }
  }

  lemma FindAppended(conditions: seq<Condition>, c: Condition, kind: string)
    requires IndexOf(conditions, c.kind) == |conditions|
    ensures Find(conditions + [c], kind) == if kind == c.kind then Some(c) else Find(conditions, kind)
  {
    SameKindsSameIndex(conditions, conditions + [c], kind);
    assert (conditions + [c])[|conditions|] == c;
  }

  lemma FindReplaced(conditions: seq<Condition>, c: Condition, kind: string)
    requires IndexOf(conditions, c.kind) < |conditions|
    ensures Find(conditions[IndexOf(conditions, c.kind) := c], kind) == if kind == c.kind then Some(c) else Find(conditions, kind)
  {
    SameKindsSameIndex(conditions, conditions[IndexOf(conditions, c.kind) := c], kind);
  }

  lemma {:induction false} SameKindsSameIndex(a: seq<Condition>, b: seq<Condition>, kind: string)
    requires |a| <= |b| && forall k :: 0 <= k < |a| ==> a[k].kind == b[k].kind
    ensures IndexOf(a, kind) < |a| ==> IndexOf(b, kind) == IndexOf(a, kind)
    ensures IndexOf(a, kind) == |a| ==> IndexOf(b, kind) >= |a|
  {
    if a != [] && a[0].kind != kind {
      SameKindsSameIndex(a[1..], b[1..], kind);
    }
  }

  /** The update repeats, without asking for the last-updated time, what has been said last. */
  ghost predicate Repeats(initial: seq<Condition>, before: seq<Event>, e: Event) {
    !e.touch && LastSaid(initial, before, e.condition.kind) == Some(SaidBy(e.condition))
  }

  function SaidBy(condition: Condition): Said {
    Said(condition.status, condition.reason, condition.message)
  }

  /** The last-updated time: the clock reading or the caller's value at the latest update that is no
      repetition, else the one of the initial list. */
  ghost function LastUpdated(initial: seq<Condition>, events: seq<Event>, kind: string): Option<Option<int>> {
    if events == [] then
      match Find(initial, kind)
      case Some(c) => Some(c.lastUpdatedTime)
      case None => None
    else
      var last, before := events[|events| - 1], events[..|events| - 1];
      if last.condition.kind == kind && !Repeats(initial, before, last) then
        Some(if last.touch then Some(last.now) else last.condition.lastUpdatedTime)
      else LastUpdated(initial, before, kind)
  }

  /** After any run of updates a look-up finds exactly what was last written about the type, with the
      time of its first appearance or of its latest actual change of status, and the last-updated time of its
      latest update that was no repetition. */
  lemma {:induction false} LookupAfterRun(initial: seq<Condition>, events: seq<Event>, kind: string)
    ensures var found, said := Find(Run(initial, events), kind), LastSaid(initial, events, kind);
            && found.Some? == said.Some?
            && (found.Some? ==>
                  && said.value == Said(found.value.status, found.value.reason, found.value.message)
                  && TransitionTime(initial, events, kind) == Some(found.value.lastTransitionTime)
                  && LastUpdated(initial, events, kind) == Some(found.value.lastUpdatedTime))
  {
    if events != [] {
      var last, before := events[|events| - 1], events[..|events| - 1];
      LookupAfterRun(initial, before, kind);
      FindAfterUpdate(Run(initial, before), last.condition, last.touch, last.now, kind);
    }
  }

  ghost predicate MonotoneClock(initial: seq<Condition>, events: seq<Event>) {
    && (forall i, j :: 0 <= i < j < |events| ==> events[i].now <= events[j].now)
    && (forall c, i :: c in initial && 0 <= i < |events| ==> c.lastTransitionTime <= events[i].now)
  }

  /** Under a clock that never goes back, the transition time of a type never goes back either. */
  lemma {:induction false} TransitionTimesNeverGoBack(initial: seq<Condition>, events: seq<Event>, kind: string, k: nat)
    requires MonotoneClock(initial, events) && k <= |events|
    requires Find(Run(initial, events[..k]), kind).Some?
    ensures Find(Run(initial, events), kind).Some?
    ensures Find(Run(initial, events[..k]), kind).value.lastTransitionTime
         <= Find(Run(initial, events), kind).value.lastTransitionTime
    ensures |events| > 0 ==> Find(Run(initial, events), kind).value.lastTransitionTime <= events[|events| - 1].now
  {
    if events != [] {
      NoTimeAhead(initial, events, kind, events[|events| - 1].now);
    }
    if k == |events| {
      assert events[..k] == events;
    } else {
      var last, before := events[|events| - 1], events[..|events| - 1];
      assert before[..k] == events[..k];
      TransitionTimesNeverGoBack(initial, before, kind, k);
      NoTimeAhead(initial, before, kind, last.now);
      TimesMoveForward(Run(initial, before), last, kind);
    }
  }

  lemma TimesMoveForward(conditions: seq<Condition>, e: Event, kind: string)
    requires Find(conditions, kind).Some? && Find(conditions, kind).value.lastTransitionTime <= e.now
    ensures var found := Find(AddOrUpdate(conditions, e.condition, e.touch, e.now).0, kind);
            found.Some? && Find(conditions, kind).value.lastTransitionTime <= found.value.lastTransitionTime
  {
    FindAfterUpdate(conditions, e.condition, e.touch, e.now, kind);
  }

  lemma {:induction false} NoTimeAhead(initial: seq<Condition>, events: seq<Event>, kind: string, now: int)
    requires forall e :: e in events ==> e.now <= now
    requires forall c :: c in initial ==> c.lastTransitionTime <= now
    ensures var found := Find(Run(initial, events), kind); found.Some? ==> found.value.lastTransitionTime <= now
  {
    if events == [] {
      assert Find(initial, kind).Some? ==> Find(initial, kind).value in initial;
    } else {
      var last, before := events[|events| - 1], events[..|events| - 1];
      assert last in events && forall e :: e in before ==> e in events;
      NoTimeAhead(initial, before, kind, now);
      FindAfterUpdate(Run(initial, before), last.condition, last.touch, last.now, kind);
    }
  }

  // ----- types -----

  function Types(conditions: seq<Condition>): (r: seq<string>)
    ensures |r| == |conditions| && forall i :: 0 <= i < |r| ==> r[i] == conditions[i].kind
  {
    seq(|conditions|, i requires 0 <= i < |conditions| => conditions[i].kind)
  }

  ghost predicate Distinct(kinds: seq<string>) {
    forall i, j :: 0 <= i < j < |kinds| ==> kinds[i] != kinds[j]
  }

  /** Event k is the first of its type and the initial list lacks the type. */
  ghost predicate Introduces(initial: seq<Condition>, events: seq<Event>, k: nat)
    requires k < |events|
  {
    && events[k].condition.kind !in Types(initial)
    && forall j :: 0 <= j < k ==> events[j].condition.kind != events[k].condition.kind
  }

  /** The types of a run, each with the index of the event that introduced it. */
  ghost predicate FirstSeenOrder(initial: seq<Condition>, events: seq<Event>, kinds: seq<string>, origin: seq<nat>)
  {
    && |kinds| == |initial| + |origin|
    && kinds[..|initial|] == Types(initial)
    && (forall i :: 0 <= i < |origin| ==>
          origin[i] < |events| && Introduces(initial, events, origin[i])
          && kinds[|initial| + i] == events[origin[i]].condition.kind)
    && (forall i, j :: 0 <= i < j < |origin| ==> origin[i] < origin[j])
    && (forall k :: 0 <= k < |events| && Introduces(initial, events, k) ==> k in origin)
  }

  /** The types of the list after a run are those of the initial list followed by each new type once,
      in the order in which the run first mentioned them. */
  lemma {:induction false} TypesInFirstSeenOrder(initial: seq<Condition>, events: seq<Event>) returns (origin: seq<nat>)
    ensures FirstSeenOrder(initial, events, Types(Run(initial, events)), origin)
  {
    if events == [] {
      return [];
    }
    var before := events[..|events| - 1];
    origin := TypesInFirstSeenOrder(initial, before);
    var kinds := Types(Run(initial, before));
    MentionedTypesAreKnown(initial, before);
    assert forall j :: 0 <= j < |events| - 1 ==> before[j] == events[j];
    TypesAfterUpdate(initial, events);
    if events[|events| - 1].condition.kind in kinds {
      KnownTypeAddsNothing(initial, events, kinds, origin);
    } else {
      NewTypeGoesLast(initial, events, kinds, origin);
      origin := origin + [|events| - 1];
    }
  }

  lemma TypesAfterUpdate(initial: seq<Condition>, events: seq<Event>)
    requires events != []
    ensures var known, kind := Types(Run(initial, events[..|events| - 1])), events[|events| - 1].condition.kind;
            Types(Run(initial, events)) == if kind in known then known else known + [kind]
  {
  }

  lemma MentionedTypesAreKnown(initial: seq<Condition>, events: seq<Event>)
    ensures forall j :: 0 <= j < |events| ==> events[j].condition.kind in Types(Run(initial, events))
  {
    forall j | 0 <= j < |events| ensures events[j].condition.kind in Types(Run(initial, events)) {
      EveryMentionedTypeIsKnown(initial, events, j);
      var list := Run(initial, events);
      assert Types(list)[IndexOf(list, events[j].condition.kind)] == events[j].condition.kind;
    }
  }

  lemma NewTypeGoesLast(initial: seq<Condition>, events: seq<Event>, kinds: seq<string>, origin: seq<nat>)
    requires events != [] && FirstSeenOrder(initial, events[..|events| - 1], kinds, origin)
    requires forall j :: 0 <= j < |events| - 1 ==> events[j].condition.kind in kinds
    requires events[|events| - 1].condition.kind !in kinds
    ensures FirstSeenOrder(initial, events, kinds + [events[|events| - 1].condition.kind], origin + [|events| - 1])
  {
  }

  lemma KnownTypeAddsNothing(initial: seq<Condition>, events: seq<Event>, kinds: seq<string>, origin: seq<nat>)
    requires events != [] && FirstSeenOrder(initial, events[..|events| - 1], kinds, origin)
    requires events[|events| - 1].condition.kind in kinds
    ensures FirstSeenOrder(initial, events, kinds, origin)
  {
    var n := |events| - 1;
    IntroducesInPrefix(initial, events);
    var p :| 0 <= p < |kinds| && kinds[p] == events[n].condition.kind;
    if p < |initial| {
      assert kinds[p] == kinds[..|initial|][p];
    } else {
      assert kinds[|initial| + (p - |initial|)] == events[origin[p - |initial|]].condition.kind;
    }
    assert !Introduces(initial, events, n);
  }

  lemma IntroducesInPrefix(initial: seq<Condition>, events: seq<Event>)
    requires events != []
    ensures forall k :: 0 <= k < |events| - 1 ==>
              (Introduces(initial, events, k) <==> Introduces(initial, events[..|events| - 1], k))
  {
  }

  lemma {:induction false} EveryMentionedTypeIsKnown(initial: seq<Condition>, events: seq<Event>, k: nat)
    requires k < |events|
    ensures IndexOf(Run(initial, events), events[k].condition.kind) < |Run(initial, events)|
  {
    var n := |events| - 1;
    var kind := events[k].condition.kind;
    if k < n {
      EveryMentionedTypeIsKnown(initial, events[..n], k);
    }
    FindAfterUpdate(Run(initial, events[..n]), events[n].condition, events[n].touch, events[n].now, kind);
  }

  lemma FirstSeenIsDistinct(initial: seq<Condition>, events: seq<Event>, kinds: seq<string>, origin: seq<nat>, i: nat, j: nat)
    requires FirstSeenOrder(initial, events, kinds, origin) && Distinct(Types(initial)) && i < j < |kinds|
    ensures kinds[i] != kinds[j]
  {
    var n := |initial|;
    if j < n {
      assert kinds[i] == kinds[..n][i] && kinds[j] == kinds[..n][j];
    } else {
      assert Introduces(initial, events, origin[j - n]) && kinds[n + (j - n)] == events[origin[j - n]].condition.kind;
      if i < n {
        assert kinds[i] == kinds[..n][i] && kinds[i] in Types(initial);
      } else {
        assert kinds[n + (i - n)] == events[origin[i - n]].condition.kind && origin[i - n] < origin[j - n];
      }
    }
  }

  /** Types stay unique over every run from a list with unique types. */
  lemma {:induction false} TypesStayUnique(initial: seq<Condition>, events: seq<Event>)
    requires Distinct(Types(initial))
    ensures Distinct(Types(Run(initial, events)))
  {
    var kinds := Types(Run(initial, events));
    var origin := TypesInFirstSeenOrder(initial, events);
    forall i, j | 0 <= i < j < |kinds| ensures kinds[i] != kinds[j] {
      FirstSeenIsDistinct(initial, events, kinds, origin, i, j);
    }
  }

  // ----- the flag -----

  /** Without the last-updated time asked for, the flag of one update says exactly whether the list
      changed. */
  lemma OneFlagIsExact(conditions: seq<Condition>, condition: Condition, now: int)
    ensures var (result, updated) := AddOrUpdate(conditions, condition, false, now);
            updated <==> result != conditions
  {
  }

  /** The flag of a batch is false exactly when every update repeats, without asking for the
      last-updated time, what the list already says; the list is then returned as it was. */
  lemma {:induction false} BatchFlagIsExact(initial: seq<Condition>, events: seq<Event>)
    ensures !AnyUpdated(initial, events) <==> forall e :: e in events ==> SaysNothingNew(initial, e)
    ensures !AnyUpdated(initial, events) ==> Run(initial, events) == initial
  {
    if events != [] {
      var last, before := events[|events| - 1], events[..|events| - 1];
      BatchFlagIsExact(initial, before);
      FlagOfOne(Run(initial, before), last);
      assert events == before + [last];
      assert forall e :: e in events <==> e in before || e == last;
    }
  }

  /** The update repeats, without asking for the last-updated time, what the list says. */
  predicate SaysNothingNew(conditions: seq<Condition>, e: Event) {
    var found := Find(conditions, e.condition.kind);
    !e.touch && found.Some? && SaysTheSame(found.value, e.condition)
  }

  lemma FlagOfOne(conditions: seq<Condition>, e: Event)
    ensures var (list, updated) := AddOrUpdate(conditions, e.condition, e.touch, e.now);
            (!updated <==> SaysNothingNew(conditions, e)) && (!updated ==> list == conditions)
  {
  }

  // ----- when the flag of a batch and the change of the list agree -----

  /** All that the run says about a type is what the initial list says about it. */
  ghost predicate AsAtTheStart(initial: seq<Condition>, events: seq<Event>, kind: string) {
    match Find(initial, kind)
    case None => false
    case Some(c) =>
      && LastSaid(initial, events, kind) == Some(SaidBy(c))
      && TransitionTime(initial, events, kind) == Some(c.lastTransitionTime)
      && LastUpdated(initial, events, kind) == Some(c.lastUpdatedTime)
  }

  /** When all types of the run are known, only their first entries are touched. */
  lemma {:induction false} OnlyFirstEntriesChange(initial: seq<Condition>, events: seq<Event>)
    requires forall e :: e in events ==> Find(initial, e.condition.kind).Some?
    ensures var list := Run(initial, events);
            && |list| == |initial| && (forall p :: 0 <= p < |list| ==> list[p].kind == initial[p].kind)
            && forall p :: 0 <= p < |list| && p != IndexOf(initial, initial[p].kind) ==> list[p] == initial[p]
  {
    if events != [] {
      var last, before := events[|events| - 1], events[..|events| - 1];
      assert events == before + [last] && last in events;
      OnlyFirstEntriesChange(initial, before);
      SameKindsSameIndex(initial, Run(initial, before), last.condition.kind);
      OneEntryChanges(Run(initial, before), last);
    }
  }

  lemma OneEntryChanges(conditions: seq<Condition>, e: Event)
    requires IndexOf(conditions, e.condition.kind) < |conditions|
    ensures var list := AddOrUpdate(conditions, e.condition, e.touch, e.now).0;
            && |list| == |conditions| && (forall p :: 0 <= p < |list| ==> list[p].kind == conditions[p].kind)
            && forall p :: 0 <= p < |list| && p != IndexOf(conditions, e.condition.kind) ==> list[p] == conditions[p]
  {
  }

  lemma {:induction false} NothingSaid(initial: seq<Condition>, events: seq<Event>, kind: string)
    requires Find(initial, kind).Some? && forall e :: e in events ==> e.condition.kind != kind
    ensures AsAtTheStart(initial, events, kind)
  {
    if events != [] {
      var last, before := events[|events| - 1], events[..|events| - 1];
      assert events == before + [last] && last in events;
      NothingSaid(initial, before, kind);
    }
  }

  /** A run leaves the list as it was if and only if all it says about the types it mentions, times
      included, is what the initial list says. */
  lemma ChangeIsExact(initial: seq<Condition>, events: seq<Event>)
    ensures Run(initial, events) == initial <==>
            forall e :: e in events ==> AsAtTheStart(initial, events, e.condition.kind)
  {
    var list := Run(initial, events);
    if list == initial {
      forall k | 0 <= k < |events| ensures AsAtTheStart(initial, events, events[k].condition.kind) {
        EveryMentionedTypeIsKnown(initial, events, k);
        LookupAfterRun(initial, events, events[k].condition.kind);
      }
    }
    if forall e :: e in events ==> AsAtTheStart(initial, events, e.condition.kind) {
      OnlyFirstEntriesChange(initial, events);
      forall p | 0 <= p < |initial| && p == IndexOf(initial, initial[p].kind) ensures list[p] == initial[p] {
        EntryAsAtTheStart(initial, events, p);
      }
    }
  }

  lemma EntryAsAtTheStart(initial: seq<Condition>, events: seq<Event>, p: nat)
    requires p < |initial| && p == IndexOf(initial, initial[p].kind)
    requires forall e :: e in events ==> AsAtTheStart(initial, events, e.condition.kind)
    requires |Run(initial, events)| == |initial|
    requires forall q :: 0 <= q < |initial| ==> Run(initial, events)[q].kind == initial[q].kind
    ensures Run(initial, events)[p] == initial[p]
  {
    var kind := initial[p].kind;
    if forall e :: e in events ==> e.condition.kind != kind {
      NothingSaid(initial, events, kind);
    }
    LookupAfterRun(initial, events, kind);
    SameKindsSameIndex(initial, Run(initial, events), kind);
  }

  /** The flag of a batch says whether the list changed if and only if every update repeats what the initial
      list says, or some type is new or ends otherwise than it began. */
  lemma FlagAgreesExactly(initial: seq<Condition>, events: seq<Event>)
    ensures (AnyUpdated(initial, events) <==> Run(initial, events) != initial) <==>
            || (forall e :: e in events ==> Repeats(initial, [], e))
            || (exists e :: e in events && !AsAtTheStart(initial, events, e.condition.kind))
  {
    BatchFlagIsExact(initial, events);
    ChangeIsExact(initial, events);
    assert forall e :: e in events ==> (Repeats(initial, [], e) <==> SaysNothingNew(initial, e));
  }

  lemma {:induction false} LastSaidOfTheOnly(initial: seq<Condition>, events: seq<Event>, i: nat)
    requires i < |events|
    requires forall j :: i < j < |events| ==> events[j].condition.kind != events[i].condition.kind
    ensures LastSaid(initial, events, events[i].condition.kind) == Some(SaidBy(events[i].condition))
  {
    if i < |events| - 1 {
      LastSaidOfTheOnly(initial, events[..|events| - 1], i);
    }
  }

  /** In particular it does when the batch mentions each type at most once and asks for no last-updated
      time. */
  lemma FlagIsExactForDistinctTypes(initial: seq<Condition>, events: seq<Event>)
    requires forall e :: e in events ==> !e.touch
    requires forall i, j :: 0 <= i < j < |events| ==> events[i].condition.kind != events[j].condition.kind
    ensures AnyUpdated(initial, events) <==> Run(initial, events) != initial
  {
    FlagAgreesExactly(initial, events);
    forall i | 0 <= i < |events| && AsAtTheStart(initial, events, events[i].condition.kind)
      ensures Repeats(initial, [], events[i])
    {
      LastSaidOfTheOnly(initial, events, i);
    }
  }

  /** The clock is past the times of the initial list, and callers hand in the last-updated time that the
      entry of the type has. */
  ghost predicate LaterUpdates(initial: seq<Condition>, events: seq<Event>) {
    forall e, c :: e in events && Find(initial, e.condition.kind) == Some(c) ==>
      !e.touch && c.lastTransitionTime < e.now && e.condition.lastUpdatedTime == c.lastUpdatedTime
  }

  lemma {:induction false} StatusesStay(initial: seq<Condition>, events: seq<Event>, c: Condition)
    requires LaterUpdates(initial, events) && Find(initial, c.kind) == Some(c)
    ensures var kept := forall e :: e in events && e.condition.kind == c.kind ==> e.condition.status == c.status;
            && (TransitionTime(initial, events, c.kind) == Some(c.lastTransitionTime) <==> kept)
            && LastUpdated(initial, events, c.kind) == Some(c.lastUpdatedTime)
            && LastSaid(initial, events, c.kind).Some?
            && (kept ==> LastSaid(initial, events, c.kind).value.status == c.status)
  {
    if events != [] {
      var last, before := events[|events| - 1], events[..|events| - 1];
      assert events == before + [last] && forall e :: e in events <==> e in before || e == last;
      StatusesStay(initial, before, c);
    }
  }

  /** Under a later clock, a run leaves the list as it was if and only if it mentions known types only, never
      with another status, and says about each of them in the end what the list says. */
  lemma UndoneExactly(initial: seq<Condition>, events: seq<Event>)
    requires LaterUpdates(initial, events)
    ensures Run(initial, events) == initial <==>
            forall e :: e in events ==>
              match Find(initial, e.condition.kind)
              case None => false
              case Some(c) => e.condition.status == c.status && LastSaid(initial, events, c.kind) == Some(SaidBy(c))
  {
    ChangeIsExact(initial, events);
    forall e | e in events && Find(initial, e.condition.kind).Some?
      ensures var c := Find(initial, e.condition.kind).value;
              AsAtTheStart(initial, events, c.kind) <==>
              && LastSaid(initial, events, c.kind) == Some(SaidBy(c))
              && forall other :: other in events && other.condition.kind == c.kind ==> other.condition.status == c.status
    {
      StatusesStay(initial, events, Find(initial, e.condition.kind).value);
    }
  }

  /** Otherwise updates can cancel out, and the flag still reports a change. */
  lemma FlagMayReportAnUndoneChange(now: int)
    ensures var ready := Condition("Ready", "True", "A", "", 0, None);
            var events := [Event(ready.(reason := "B"), false, now), Event(ready, false, now)];
            Run([ready], events) == [ready] && AnyUpdated([ready], events)
  {
    var ready := Condition("Ready", "True", "A", "", 0, None);
    var first := Event(ready.(reason := "B"), false, now);
    var events := [first, Event(ready, false, now)];
    assert events[..1] == [first] && [first][..0] == [];
    assert IndexOf([ready], "Ready") == 0;
    assert Run([ready], [first]) == [ready.(reason := "B")];
    assert first.condition.reason != ready.reason;
    assert AnyUpdated([ready], [first]);
  }
}
