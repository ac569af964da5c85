/** The state list of a UserSignup and its setters (pkg/states/state_manager.go). */
module States {
  import opened Sequences
  import opened Wrappers

  /** The states the setters know, and any other the list may carry. */
  datatype State =
    | Approved | VerificationRequired | Deactivating | Deactivated | Rejected | Other(name: string)

  // ----- lists of states -----

  ghost predicate NoDuplicates(states: seq<State>) {
    forall i, j :: 0 <= i < j < |states| ==> states[i] != states[j]
  }

  /** The states of a set, in list order. */
  function Restrict(states: seq<State>, keep: set<State>): seq<State> {
    if states == [] then []
    else OneKept(states[0], keep) + Restrict(states[1..], keep)
  }

  function OneKept(state: State, keep: set<State>): seq<State> {
    if state in keep then [state] else []
  }

  function Without(states: seq<State>, state: State): seq<State> {
    if states == [] then []
    else if states[0] == state then states[1..]
    else [states[0]] + Without(states[1..], state)
  }

  /** What setState leaves behind. */
  function WithState(states: seq<State>, state: State, val: bool): seq<State> {
    if val && state !in states then states + [state]
    else if !val then Without(states, state)
    else states
  }

  lemma {:induction false} WithoutAt(states: seq<State>, state: State, i: nat)
    requires i < |states| && states[i] == state && state !in states[..i]
    ensures Without(states, state) == states[..i] + states[i + 1..]
  {
    if i > 0 {
      assert states[0] in states[..i];
      assert states[1..][..i - 1] == states[..i][1..];
      WithoutAt(states[1..], state, i - 1);
    }
  }

  lemma {:induction false} WithoutAbsent(states: seq<State>, state: State)
    requires state !in states
    ensures Without(states, state) == states
  {
    if states != [] {
      WithoutAbsent(states[1..], state);
    }
  }

  /** Setting a missing state puts it at the end, clearing a listed one takes its first entry out, and nothing else
      changes the list. */
  lemma WithStateExactly(states: seq<State>, state: State, i: nat)
    ensures WithState(states, state, true) == if state in states then states else states + [state]
    ensures state !in states ==> WithState(states, state, false) == states
    ensures i < |states| && states[i] == state && state !in states[..i] ==>
              WithState(states, state, false) == states[..i] + states[i + 1..]
  {
    if state !in states {
      WithoutAbsent(states, state);
    }
    if i < |states| && states[i] == state && state !in states[..i] {
      WithoutAt(states, state, i);
    }
  }

  /** How often a state is listed. */
  function Times(states: seq<State>, state: State): nat {
    if states == [] then 0 else (if states[0] == state then 1 else 0) + Times(states[1..], state)
  }

  lemma {:induction false} TimesConcat(a: seq<State>, b: seq<State>, state: State)
    ensures Times(a + b, state) == Times(a, state) + Times(b, state)
  {
    if a == [] {
      assert a + b == b;
    } else {
      TimesConcat(a[1..], b, state);
      assert (a + b)[1..] == a[1..] + b;
    }
  }

  lemma {:induction false} TimesZero(states: seq<State>, state: State)
    ensures Times(states, state) == 0 <==> state !in states
  {
    if states != [] {
      TimesZero(states[1..], state);
      assert states == [states[0]] + states[1..];
    }
  }

  lemma {:induction false} ListedAtMostOnce(states: seq<State>, state: State)
    requires NoDuplicates(states)
    ensures Times(states, state) <= 1
  {
    if states != [] {
      ListedAtMostOnce(states[1..], state);
      TimesZero(states[1..], state);
      assert forall k :: 0 <= k < |states[1..]| ==> states[1..][k] == states[k + 1] != states[0];
    }
  }

  lemma {:induction false} ListedTwice(states: seq<State>, i: nat, j: nat)
    requires i < j < |states| && states[i] == states[j]
    ensures Times(states, states[i]) > 1
  {
    var rest := states[1..];
    if i > 0 {
      ListedTwice(rest, i - 1, j - 1);
    } else {
      TimesZero(rest, states[0]);
      assert rest[j - 1] == states[0];
    }
  }

  lemma NoDuplicatesByTimes(states: seq<State>)
    ensures NoDuplicates(states) <==> forall s :: Times(states, s) <= 1
  {
    if NoDuplicates(states) {
      forall s ensures Times(states, s) <= 1 {
        ListedAtMostOnce(states, s);
      }
    } else {
      var i, j :| 0 <= i < j < |states| && states[i] == states[j];
      ListedTwice(states, i, j);
    }
  }

  lemma {:induction false} TimesWithout(states: seq<State>, state: State, s: State)
    ensures var n := Times(states, s);
            Times(Without(states, state), s) == if s == state && n > 0 then n - 1 else n
  {
    if states != [] {
      TimesWithout(states[1..], state, s);
      if states[0] != state {
        var rest := Without(states[1..], state);
        assert ([states[0]] + rest)[1..] == rest;
      }
    }
  }

  /** How often a state is listed after it was written: setting it adds it if it is missing, clearing it
      takes one entry away. */
  function TimesAfter(n: nat, val: bool): nat {
    if val then (if n == 0 then 1 else n) else (if n == 0 then 0 else n - 1)
  }

  /** setState on any list, duplicates included. */
  lemma SetStateTimes(states: seq<State>, state: State, val: bool, s: State)
    ensures Times(WithState(states, state, val), s) ==
            if s == state then TimesAfter(Times(states, s), val) else Times(states, s)
  {
    TimesZero(states, state);
    TimesWithout(states, state, s);
    TimesConcat(states, [state], s);
    assert [state][1..] == [];
  }

  /** setState on a duplicate-free list: the written state is present exactly when it was set, every
      other state is as before. */
  lemma SetStateWrites(states: seq<State>, state: State, val: bool)
    requires NoDuplicates(states)
    ensures NoDuplicates(WithState(states, state, val))
    ensures forall s :: s in WithState(states, state, val) <==> if s == state then val else s in states
  {
    NoDuplicatesByTimes(states);
    forall s ensures Times(WithState(states, state, val), s) <= 1
             ensures s in WithState(states, state, val) <==> if s == state then val else s in states
    {
      SetStateTimes(states, state, val, s);
      TimesZero(states, s);
      TimesZero(WithState(states, state, val), s);
    }
    NoDuplicatesByTimes(WithState(states, state, val));
  }

  lemma {:induction false} RestrictConcat(a: seq<State>, b: seq<State>, keep: set<State>)
    ensures Restrict(a + b, keep) == Restrict(a, keep) + Restrict(b, keep)
  {
    if a == [] {
      assert a + b == b;
    } else {
      RestrictConcat(a[1..], b, keep);
      assert (a + b)[0] == a[0] && (a + b)[1..] == a[1..] + b;
      Regrouped(OneKept(a[0], keep), Restrict(a[1..], keep), Restrict(b, keep));
    }
  }

  /** Writing one state keeps the order and the multiplicity of all others, duplicates or not. */
  lemma {:induction false} SetStateKeepsTheRest(states: seq<State>, state: State, val: bool, keep: set<State>)
    requires state !in keep
    ensures Restrict(WithState(states, state, val), keep) == Restrict(states, keep)
  {
    if val {
      if state !in states {
        RestrictConcat(states, [state], keep);
        assert Restrict([state], keep) == [];
      }
    } else if states != [] && states[0] != state {
      SetStateKeepsTheRest(states[1..], state, false, keep);
      RestrictConcat([states[0]], Without(states[1..], state), keep);
      assert [states[0]][1..] == [];
      assert Restrict([states[0]], keep) == OneKept(states[0], keep);
    }
  }

  // ----- the setters -----

  datatype Setter =
    | SetApprovedManually(val: bool)
    | SetVerificationRequired(val: bool)
    | SetDeactivating(val: bool)
    | SetDeactivated(val: bool)
    | SetRejected(val: bool)

  /** The state writes a setter performs, in order. */
  function Writes(setter: Setter): seq<(State, bool)> {
    match setter
    case SetApprovedManually(v) =>
      [(Approved, v)] + if v then [(VerificationRequired, false), (Deactivating, false), (Deactivated, false)] else []
    case SetVerificationRequired(v) => [(VerificationRequired, v)]
    case SetDeactivating(v) => [(Deactivating, v)] + if v then [(Deactivated, false)] else []
    case SetDeactivated(v) => [(Deactivated, v)] + if v then [(Approved, false), (Deactivating, false)] else []
    case SetRejected(v) => [(Rejected, v)]
  }

  function AfterWrites(states: seq<State>, writes: seq<(State, bool)>): seq<State>
    decreases writes
  {
    if writes == [] then states
    else AfterWrites(WithState(states, writes[0].0, writes[0].1), writes[1..])
  }

  function AfterSetter(states: seq<State>, setter: Setter): seq<State> {
    AfterWrites(states, Writes(setter))
  }

  lemma TwoWritesFirst(states: seq<State>, w: seq<(State, bool)>)
    requires |w| >= 2
    ensures AfterWrites(states, w) ==
            AfterWrites(WithState(WithState(states, w[0].0, w[0].1), w[1].0, w[1].1), w[2..])
  {
  }

  lemma UnfoldWrites(states: seq<State>, w: seq<(State, bool)>)
    requires 1 <= |w| <= 4
    ensures var one := WithState(states, w[0].0, w[0].1);
            AfterWrites(states, w) ==
            if |w| == 1 then one
            else
              var two := WithState(one, w[1].0, w[1].1);
              if |w| == 2 then two
              else
                var three := WithState(two, w[2].0, w[2].1);
                if |w| == 3 then three else WithState(three, w[3].0, w[3].1)
  {
    if |w| == 1 {
      assert w[1..] == [];
    } else {
      TwoWritesFirst(states, w);
      var two, rest := WithState(WithState(states, w[0].0, w[0].1), w[1].0, w[1].1), w[2..];
      if |w| == 3 {
        assert rest[1..] == [];
      } else if |w| == 4 {
        TwoWritesFirst(two, rest);
        assert rest[2..] == [];
      }
    }
  }

  class UserSignup {
    var states: seq<State>

    method Contains(state: State) returns (found: bool)
      ensures found <==> state in states
    {
      for i := 0 to |states|
        invariant state !in states[..i]
      {
        if states[i] == state {
          return true;
        }
      }
      return false;
    }

    method Remove(state: State)
      modifies this
      ensures states == Without(old(states), state)
    {
      for i := 0 to |states|
        invariant states == old(states) && state !in states[..i]
      {
        if states[i] == state {
          WithoutAt(states, state, i);
          states := states[..i] + states[i + 1..];
          return;
        }
      }
      WithoutAbsent(states, state);
    }

    method SetState(state: State, val: bool)
      modifies this
      ensures states == WithState(old(states), state, val)
    {
      var present := Contains(state);
      if val && !present {
        states := states + [state];
      }
      present := Contains(state);
      if !val && present {
        Remove(state);
      } else if !val {
        WithoutAbsent(states, state);
      }
    }

    method ApplySetter(setter: Setter)
      modifies this
      ensures states == AfterSetter(old(states), setter)
    {
      UnfoldWrites(states, Writes(setter));
      match setter
      case SetApprovedManually(approved) =>
        SetState(Approved, approved);
        if approved {
          SetState(VerificationRequired, false);
          SetState(Deactivating, false);
          SetState(Deactivated, false);
        }
      case SetVerificationRequired(val) =>
        SetState(VerificationRequired, val);
      case SetDeactivating(val) =>
        SetState(Deactivating, val);
        if val {
          SetState(Deactivated, false);
        }
      case SetDeactivated(deactivated) =>
        SetState(Deactivated, deactivated);
        if deactivated {
          SetState(Approved, false);
          SetState(Deactivating, false);
        }
      case SetRejected(rejected) =>
        SetState(Rejected, rejected);
    }
  }

  // ----- runs -----

  function Run(states: seq<State>, setters: seq<Setter>): seq<State> {
    if setters == [] then states
    else AfterSetter(Run(states, setters[..|setters| - 1]), setters[|setters| - 1])
  }

  /** What one setter says about a state: the value it wrote, the value a setting of an opposing state
      forced on it, or nothing. */
  function Verdict(setter: Setter, state: State): Option<bool> {
    match state
    case Approved =>
      if setter.SetApprovedManually? then Some(setter.val)
      else if setter == SetDeactivated(true) then Some(false) else None
    case VerificationRequired =>
      if setter.SetVerificationRequired? then Some(setter.val)
      else if setter == SetApprovedManually(true) then Some(false) else None
    case Deactivating =>
      if setter.SetDeactivating? then Some(setter.val)
      else if setter == SetApprovedManually(true) || setter == SetDeactivated(true) then Some(false) else None
    case Deactivated =>
      if setter.SetDeactivated? then Some(setter.val)
      else if setter == SetApprovedManually(true) || setter == SetDeactivating(true) then Some(false) else None
    case Rejected => if setter.SetRejected? then Some(setter.val) else None
    case Other(_) => None
  }

  /** The verdict of the last setter of the run that has one, else whether the state was there. */
  ghost predicate LastVerdict(initial: seq<State>, setters: seq<Setter>, state: State) {
    if setters == [] then state in initial
    else
      match Verdict(setters[|setters| - 1], state)
      case Some(v) => v
      case None => LastVerdict(initial, setters[..|setters| - 1], state)
  }

  ghost predicate Exclusive(states: seq<State>) {
    Deactivated in states ==> Deactivating !in states && Approved !in states
  }

  lemma {:induction false} TimesAfterWrites(states: seq<State>, writes: seq<(State, bool)>, state: State)
    requires forall i, j :: 0 <= i < j < |writes| ==> writes[i].0 != writes[j].0
    ensures forall w :: w in writes && w.0 == state ==>
              Times(AfterWrites(states, writes), state) == TimesAfter(Times(states, state), w.1)
    ensures (forall w :: w in writes ==> w.0 != state) ==>
              Times(AfterWrites(states, writes), state) == Times(states, state)
    decreases writes
  {
    if writes != [] {
      SetStateTimes(states, writes[0].0, writes[0].1, state);
      TimesAfterWrites(WithState(states, writes[0].0, writes[0].1), writes[1..], state);
      assert forall w :: w in writes <==> w == writes[0] || w in writes[1..];
      assert forall w :: w in writes[1..] ==> w.0 != writes[0].0;
    }
  }

  lemma VerdictIsWritten(setter: Setter, state: State)
    ensures match Verdict(setter, state)
            case Some(v) => (state, v) in Writes(setter)
            case None => forall w :: w in Writes(setter) ==> w.0 != state
  {
  }

  lemma DistinctWrites(setter: Setter)
    ensures var writes := Writes(setter); forall i, j :: 0 <= i < j < |writes| ==> writes[i].0 != writes[j].0
  {
  }

  /** A setter lists a state as often as its verdict says, whatever the list. */
  lemma SetterFollowsVerdict(states: seq<State>, setter: Setter, state: State)
    ensures Times(AfterSetter(states, setter), state) ==
            match Verdict(setter, state)
            case Some(v) => TimesAfter(Times(states, state), v)
            case None => Times(states, state)
  {
    var writes := Writes(setter);
    DistinctWrites(setter);
    TimesAfterWrites(states, writes, state);
    VerdictIsWritten(setter, state);
  }

  /** Over every run, a state that is listed at most once at the start stays so, and its getter answers with
      the last verdict on it. */
  lemma {:induction false} GettersAnswerTheLastVerdict(initial: seq<State>, setters: seq<Setter>, state: State)
    requires Times(initial, state) <= 1
    ensures Times(Run(initial, setters), state) <= 1
    ensures state in Run(initial, setters) <==> LastVerdict(initial, setters, state)
  {
    TimesZero(Run(initial, setters), state);
    if setters != [] {
      var last := |setters| - 1;
      GettersAnswerTheLastVerdict(initial, setters[..last], state);
      TimesZero(Run(initial, setters[..last]), state);
      SetterFollowsVerdict(Run(initial, setters[..last]), setters[last], state);
    }
  }

  /** Over every run a duplicate-free list stays duplicate-free. */
  lemma RunsStayDuplicateFree(initial: seq<State>, setters: seq<Setter>)
    requires NoDuplicates(initial)
    ensures NoDuplicates(Run(initial, setters))
  {
    NoDuplicatesByTimes(initial);
    forall s ensures Times(Run(initial, setters), s) <= 1 {
      GettersAnswerTheLastVerdict(initial, setters, s);
    }
    NoDuplicatesByTimes(Run(initial, setters));
  }

  lemma OneSetter(initial: seq<State>, setter: Setter)
    ensures Run(initial, [setter]) == AfterSetter(initial, setter)
  {
    assert [setter][..0] == [];
  }

  function ClearerOf(state: State): (setter: Setter)
    requires !state.Other?
    ensures Verdict(setter, state) == Some(false)
  {
    match state
    case Approved => SetApprovedManually(false)
    case VerificationRequired => SetVerificationRequired(false)
    case Deactivating => SetDeactivating(false)
    case Deactivated => SetDeactivated(false)
    case Rejected => SetRejected(false)
  }

  /** The condition on the start is exact: the getter of a known state answers with the last verdict over
      all runs if and only if the state is listed at most once at the start. */
  lemma GettersExactly(initial: seq<State>, state: State)
    requires !state.Other?
    ensures (forall setters :: state in Run(initial, setters) <==> LastVerdict(initial, setters, state))
            <==> Times(initial, state) <= 1
  {
    if Times(initial, state) <= 1 {
      forall setters ensures state in Run(initial, setters) <==> LastVerdict(initial, setters, state) {
        GettersAnswerTheLastVerdict(initial, setters, state);
      }
    } else {
      var setter := ClearerOf(state);
      OneSetter(initial, setter);
      SetterFollowsVerdict(initial, setter, state);
      TimesZero(Run(initial, [setter]), state);
      assert !LastVerdict(initial, [setter], state);
      assert state in Run(initial, [setter]);
    }
  }

  /** The states of the exclusion are listed at most once each. */
  ghost predicate ListedOnce(states: seq<State>) {
    Times(states, Approved) <= 1 && Times(states, Deactivating) <= 1 && Times(states, Deactivated) <= 1
  }

  ghost predicate ExclusiveByTimes(states: seq<State>) {
    Times(states, Deactivated) > 0 ==> Times(states, Deactivating) == 0 && Times(states, Approved) == 0
  }

  lemma ExclusionByTimes(states: seq<State>)
    ensures Exclusive(states) <==> ExclusiveByTimes(states)
  {
    TimesZero(states, Approved);
    TimesZero(states, Deactivating);
    TimesZero(states, Deactivated);
  }

  lemma SetterKeepsExclusion(states: seq<State>, setter: Setter)
    requires ListedOnce(states) && ExclusiveByTimes(states)
    ensures ListedOnce(AfterSetter(states, setter)) && ExclusiveByTimes(AfterSetter(states, setter))
  {
    SetterFollowsVerdict(states, setter, Approved);
    SetterFollowsVerdict(states, setter, Deactivating);
    SetterFollowsVerdict(states, setter, Deactivated);
  }

  lemma {:induction false} RunsKeepExclusion(initial: seq<State>, setters: seq<Setter>)
    requires ListedOnce(initial) && ExclusiveByTimes(initial)
    ensures ListedOnce(Run(initial, setters)) && ExclusiveByTimes(Run(initial, setters))
  {
    if setters != [] {
      var last := |setters| - 1;
      RunsKeepExclusion(initial, setters[..last]);
      SetterKeepsExclusion(Run(initial, setters[..last]), setters[last]);
    }
  }

  /** A state of the exclusion that is listed twice survives the setter that is to clear it. */
  lemma DuplicatesBreakExclusion(initial: seq<State>)
    requires !ListedOnce(initial)
    ensures !Exclusive(AfterSetter(initial, SetDeactivated(true))) || !Exclusive(AfterSetter(initial, SetDeactivating(true)))
  {
    var setter := if Times(initial, Deactivated) > 1 then SetDeactivating(true) else SetDeactivated(true);
    SetterFollowsVerdict(initial, setter, Approved);
    SetterFollowsVerdict(initial, setter, Deactivating);
    SetterFollowsVerdict(initial, setter, Deactivated);
    ExclusionByTimes(AfterSetter(initial, setter));
  }

  /** A deactivated user is never also deactivating or approved, over all runs, if and only if this holds at
      the start and none of the three states is listed twice there; other duplicates do no harm. */
  lemma OpposingStatesNeverCoexist(initial: seq<State>)
    ensures (forall setters :: Exclusive(Run(initial, setters))) <==> Exclusive(initial) && ListedOnce(initial)
  {
    ExclusionByTimes(initial);
    if Exclusive(initial) && ListedOnce(initial) {
      forall setters ensures Exclusive(Run(initial, setters)) {
        RunsKeepExclusion(initial, setters);
        ExclusionByTimes(Run(initial, setters));
      }
    } else if Exclusive(initial) {
      DuplicatesBreakExclusion(initial);
      OneSetter(initial, SetDeactivated(true));
      OneSetter(initial, SetDeactivating(true));
    } else {
      assert Run(initial, []) == initial;
    }
  }

  /** Clearing a state drops its first entry only, and so two entries defeat the exclusion. */
  lemma ClearingADuplicateLeavesOne(state: State)
    ensures WithState([state, state], state, false) == [state]
    ensures !Exclusive(AfterSetter([Approved, Approved], SetDeactivated(true)))
  {
    var start := [Approved, Approved];
    assert start[1..] == [Approved] && [Approved][1..] == [];
    SetterFollowsVerdict(start, SetDeactivated(true), Approved);
    SetterFollowsVerdict(start, SetDeactivated(true), Deactivated);
    ExclusionByTimes(AfterSetter(start, SetDeactivated(true)));
  }

  // ----- a manual approval -----

  ghost predicate ClearedByApproval(state: State) {
    state == Approved || state == VerificationRequired || state == Deactivating || state == Deactivated
  }

  lemma ListedSomewhere(states: seq<State>)
    ensures states != [] ==> exists s :: Times(states, s) > 0
  {
    if states != [] {
      assert Times(states, states[0]) > 0;
    }
  }

  lemma TheOnlyState(states: seq<State>, state: State)
    requires forall s :: Times(states, s) == if s == state then 1 else 0
    ensures states == [state]
  {
    assert Times(states, state) == 1;
    assert Times(states, states[0]) > 0;
    var rest := states[1..];
    assert forall s :: Times(states, s) == (if states[0] == s then 1 else 0) + Times(rest, s);
    ListedSomewhere(rest);
  }

  lemma TimesAfterApproval(states: seq<State>, s: State)
    ensures Times(AfterSetter(states, SetApprovedManually(true)), s) ==
            if s == Approved then TimesAfter(Times(states, s), true)
            else if ClearedByApproval(s) then TimesAfter(Times(states, s), false)
            else Times(states, s)
    ensures Times(states, s) == 0 <==> s !in states
  {
    SetterFollowsVerdict(states, SetApprovedManually(true), s);
    TimesZero(states, s);
  }

  /** A manual approval leaves `approved` as the single state if and only if the list was duplicate-free and
      held no other states than `approved` and the three that are cleared. */
  lemma ApprovalLeavesOneState(states: seq<State>)
    ensures AfterSetter(states, SetApprovedManually(true)) == [Approved] <==>
            NoDuplicates(states) && forall s :: s in states ==> ClearedByApproval(s)
  {
    var after := AfterSetter(states, SetApprovedManually(true));
    NoDuplicatesByTimes(states);
    if after == [Approved] {
      assert [Approved][1..] == [];
      forall s ensures Times(states, s) <= 1 && (s in states ==> ClearedByApproval(s)) {
        TimesAfterApproval(states, s);
        assert Times(after, s) == if s == Approved then 1 else 0;
      }
    }
    if NoDuplicates(states) && forall s :: s in states ==> ClearedByApproval(s) {
      forall s ensures Times(after, s) == if s == Approved then 1 else 0 {
        TimesAfterApproval(states, s);
        assert Times(states, s) <= 1;
      }
      TheOnlyState(after, Approved);
    }
  }

  /** So a rejected signup keeps its rejection when it is approved. */
  lemma ApprovalKeepsRejection()
    ensures Rejected in AfterSetter([Rejected], SetApprovedManually(true))
    ensures AfterSetter([Rejected], SetApprovedManually(true)) != [Approved]
  {
    var after := AfterSetter([Rejected], SetApprovedManually(true));
    SetterFollowsVerdict([Rejected], SetApprovedManually(true), Rejected);
    TimesZero(after, Rejected);
    assert Times([Rejected], Rejected) == 1;
    assert Rejected !in [Approved];
  }

  /** States no setter of the run has a verdict on keep their order, and their number. */
  lemma {:induction false} UntouchedStatesKeepTheirOrder(initial: seq<State>, setters: seq<Setter>, keep: set<State>)
    requires forall setter, state :: setter in setters && state in keep ==> Verdict(setter, state) == None
    ensures Restrict(Run(initial, setters), keep) == Restrict(initial, keep)
  {
    if setters != [] {
      var last := |setters| - 1;
      UntouchedStatesKeepTheirOrder(initial, setters[..last], keep);
      forall w | w in Writes(setters[last]) ensures w.0 !in keep {
        VerdictIsWritten(setters[last], w.0);
      }
      WritesKeepTheRest(Run(initial, setters[..last]), Writes(setters[last]), keep);
    }
  }

  lemma {:induction false} WritesKeepTheRest(states: seq<State>, writes: seq<(State, bool)>, keep: set<State>)
    requires forall w :: w in writes ==> w.0 !in keep
    ensures Restrict(AfterWrites(states, writes), keep) == Restrict(states, keep)
    decreases writes
  {
    if writes != [] {
      WritesKeepTheRest(WithState(states, writes[0].0, writes[0].1), writes[1..], keep);
      SetStateKeepsTheRest(states, writes[0].0, writes[0].1, keep);
    }
  }
}
