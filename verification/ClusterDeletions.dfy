/** What becomes of a deleted cluster while other threads are at work (pkg/cluster/service.go): a refresh that is
    past its list call can put it back. */
module ClusterDeletions {
  import opened Wrappers
  import opened Clusters
  import opened ClusterInterleavings

  // ----- who can still put a name into the map -----

  predicate Names(items: seq<ToolchainCluster>, name: string) {
    exists i :: 0 <= i < |items| && items[i].name == name
  }

  function Rest(items: seq<ToolchainCluster>): seq<ToolchainCluster> {
    if items == [] then [] else items[1..]
  }

  predicate Puts(write: Write, name: string) {
    write.Put? && write.entry.config.name == name
  }

  predicate Pending(th: Thread, config: Config, name: string) {
    (config.name == name && config.operatorNamespace != "") || Names(Rest(th.todo), name)
  }

  /** The thread has been told of a resource of the name and has not dealt with it yet. */
  predicate Carries(th: Thread, name: string) {
    && !th.task.DeleteOne?
    && match th.pc
       case Start => th.task.AddOne? && th.task.cluster.name == name
       case NextItem => Names(th.todo, name)
       case WantPeek(config) => Pending(th, config, name)
       case Peeking(config) => Pending(th, config, name)
       case Peeked(config, _) => Pending(th, config, name)
       case Deciding(config, _) => Pending(th, config, name)
       case WantWrite(write) => Puts(write, name) || Names(Rest(th.todo), name)
       case Announced(write) => Puts(write, name) || Names(Rest(th.todo), name)
       case Writing(write) => Puts(write, name) || Names(Rest(th.todo), name)
       case Written => Names(Rest(th.todo), name)
       case _ => false
  }

  predicate NobodyCarries(s: State, name: string) {
    forall t :: 0 <= t < |s.threads| ==> !Carries(s.threads[t], name)
  }

  /** A list call that does not yield the name. */
  predicate Quiet(answer: Answer, name: string) {
    answer.Resources? ==> !Names(answer.items, name)
  }

  // ----- deleting threads only delete -----

  predicate OnlyDeletes(th: Thread) {
    th.task.DeleteOne? ==>
      || th.pc.Start? || th.pc.Written? || th.pc.Done?
      || ((th.pc.WantWrite? || th.pc.Announced? || th.pc.Writing?) && th.pc.write == Remove(th.task.name))
  }

  ghost predicate Sound(s: State) {
    Inv(s) && forall t :: 0 <= t < |s.threads| ==> OnlyDeletes(s.threads[t])
  }

  lemma StepKeepsOnlyDeletes(w: World, th: Thread, clusters: Cache, answer: Answer)
    requires OnlyDeletes(th) && Local(w, th, clusters, answer).Some?
    ensures OnlyDeletes(Local(w, th, clusters, answer).value.thread)
  {
    if !th.task.DeleteOne? {
      TaskStays(w, th, clusters, answer);
    }
  }

  lemma StepKeepsSound(w: World, s: State, t: Tid, answer: Answer)
    requires t < |s.threads| && Sound(s) && Step(w, s, t, answer).Some?
    ensures Sound(Step(w, s, t, answer).value)
  {
    StepKeepsLock(w, s, t, answer);
    StepKeepsFit(w, s.threads[t], s.clusters, answer);
    StepKeepsOnlyDeletes(w, s.threads[t], s.clusters, answer);
  }

  lemma {:induction false} SoundOverEveryRun(w: World, states: seq<State>, moves: seq<Move>, i: nat)
    requires IsRun(w, states, moves) && i < |states|
    ensures Sound(states[i])
  {
    if i > 0 {
      SoundOverEveryRun(w, states, moves, i - 1);
      RunStep(w, states, moves, i - 1);
      StepKeepsSound(w, states[i - 1], moves[i - 1].tid, moves[i - 1].answer);
    } else {
      InvariantOverEveryRun(w, states, moves, 0);
    }
  }

  // ----- one step brings in no name that its thread does not carry -----

  lemma CarriesOn(w: World, th: Thread, clusters: Cache, answer: Answer, name: string)
    requires ThreadInv(th) && OnlyDeletes(th) && Quiet(answer, name) && Local(w, th, clusters, answer).Some?
    ensures var o := Local(w, th, clusters, answer).value;
            && (Carries(o.thread, name) ==> Carries(th, name))
            && (name in o.clusters && name !in clusters ==> Carries(th, name))
  {
    TaskStays(w, th, clusters, answer);
    if AddsItems(th.pc) {
      ItemCarriesOn(w, th, clusters, answer, name);
    } else if Writes(th.pc) {
      WriteCarriesOn(th, clusters, name);
    } else {
      CallCarriesOn(w, th, clusters, name);
    }
  }

  lemma CallCarriesOn(w: World, th: Thread, clusters: Cache, name: string)
    requires OnlyDeletes(th) && CallStep(w, th, clusters).Some?
    ensures var o := CallStep(w, th, clusters).value;
            (Carries(o.thread, name) ==> Carries(th, name)) && o.clusters == clusters
  {
  }

  lemma RestNames(items: seq<ToolchainCluster>, name: string)
    requires items != []
    ensures Names(items, name) <==> items[0].name == name || Names(items[1..], name)
  {
    if Names(items, name) {
      var i :| 0 <= i < |items| && items[i].name == name;
      assert i > 0 ==> items[1..][i - 1].name == name;
    }
    if Names(items[1..], name) {
      var i :| 0 <= i < |items[1..]| && items[1..][i].name == name;
      assert items[i + 1].name == name;
    }
  }

  lemma ItemCarriesOn(w: World, th: Thread, clusters: Cache, answer: Answer, name: string)
    requires ThreadInv(th) && OnlyDeletes(th) && Quiet(answer, name) && ItemStep(w, th, clusters, answer).Some?
    ensures var o := ItemStep(w, th, clusters, answer).value;
            (Carries(o.thread, name) ==> Carries(th, name)) && o.clusters == clusters
  {
    if th.todo != [] {
      RestNames(th.todo, name);
    }
    if th.pc.Deciding? {
      DecidingCarriesOn(w, th, clusters, answer, name);
    }
  }

  lemma DecidingCarriesOn(w: World, th: Thread, clusters: Cache, answer: Answer, name: string)
    requires OnlyDeletes(th) && th.pc.Deciding? && ItemStep(w, th, clusters, answer).Some?
    ensures Carries(ItemStep(w, th, clusters, answer).value.thread, name) ==> Carries(th, name)
  {
  }

  lemma WriteCarriesOn(th: Thread, clusters: Cache, name: string)
    requires OnlyDeletes(th) && WriteStep(th, clusters).Some?
    ensures var o := WriteStep(th, clusters).value;
            && (Carries(o.thread, name) ==> Carries(th, name))
            && (name in o.clusters && name !in clusters ==> Carries(th, name))
  {
  }

  /** A sequence of steps from any state, in which no list call yields the name. */
  ghost predicate IsPath(w: World, states: seq<State>, moves: seq<Move>, name: string) {
    && |states| == |moves| + 1
    && forall i :: 0 <= i < |moves| ==>
         && moves[i].tid < |states[i].threads| && Quiet(moves[i].answer, name)
         && Step(w, states[i], moves[i].tid, moves[i].answer) == Some(states[i + 1])
  }

  lemma PathStep(w: World, states: seq<State>, moves: seq<Move>, name: string, i: nat)
    requires IsPath(w, states, moves, name) && i < |moves|
    ensures moves[i].tid < |states[i].threads| && Quiet(moves[i].answer, name)
    ensures Step(w, states[i], moves[i].tid, moves[i].answer) == Some(states[i + 1])
  {
  }

  /** What nobody carries stays absent. */
  lemma {:induction false} StaysAbsent(w: World, states: seq<State>, moves: seq<Move>, name: string, i: nat)
    requires IsPath(w, states, moves, name) && i < |states|
    requires Sound(states[0]) && name !in states[0].clusters && NobodyCarries(states[0], name)
    ensures Sound(states[i]) && name !in states[i].clusters && NobodyCarries(states[i], name)
  {
    if i > 0 {
      StaysAbsent(w, states, moves, name, i - 1);
      PathStep(w, states, moves, name, i - 1);
      var s, m := states[i - 1], moves[i - 1];
      StepKeepsSound(w, s, m.tid, m.answer);
      CarriesOn(w, s.threads[m.tid], s.clusters, m.answer, name);
    }
  }

  // ----- a thread that carries a name can put it back -----

  /** Answers under which the thread gets on with the name: its config loads, its client can be built, and
      other resources fail. */
  function Helpful(th: Thread, name: string): Answer {
    match th.pc
    case NextItem =>
      if th.todo != [] && th.todo[0].name == name
      then Loaded(Success(Config(name, "", RestConfig("", "", 0), "operator", "", map[])))
      else Loaded(Failure(""))
    case Deciding(config, _) =>
      if config.name == name then Built(Success(Client(config.restConfig, 0))) else Built(Failure(""))
    case _ => Nothing
  }

  lemma GetsOn(w: World, th: Thread, clusters: Cache, name: string)
    requires ThreadInv(th) && Carries(th, name)
    ensures var o := Local(w, th, clusters, Helpful(th, name));
            o.Some? && (Carries(o.value.thread, name) || name in o.value.clusters)
  {
    if th.pc.NextItem? {
      FetchGetsOn(w, th, clusters, name);
    } else if th.pc.Deciding? {
      DecidingGetsOn(w, th, clusters, name);
    } else if AddsItems(th.pc) {
      PeekGetsOn(w, th, clusters, name);
    } else if Writes(th.pc) {
      WriteGetsOn(th, clusters, name);
    } else {
      assert [th.task.cluster][0].name == name;
    }
  }

  lemma PeekGetsOn(w: World, th: Thread, clusters: Cache, name: string)
    requires Carries(th, name) && (th.pc.WantPeek? || th.pc.Peeking? || th.pc.Peeked?)
    ensures var o := ItemStep(w, th, clusters, Helpful(th, name)); o.Some? && Carries(o.value.thread, name)
  {
  }

  lemma WriteGetsOn(th: Thread, clusters: Cache, name: string)
    requires Carries(th, name) && Writes(th.pc)
    ensures var o := WriteStep(th, clusters); o.Some? && (Carries(o.value.thread, name) || name in o.value.clusters)
  {
  }

  lemma FetchGetsOn(w: World, th: Thread, clusters: Cache, name: string)
    requires Carries(th, name) && th.pc.NextItem?
    ensures var o := ItemStep(w, th, clusters, Helpful(th, name)); o.Some? && Carries(o.value.thread, name)
  {
    RestNames(th.todo, name);
  }

  lemma DecidingGetsOn(w: World, th: Thread, clusters: Cache, name: string)
    requires ThreadInv(th) && Carries(th, name) && th.pc.Deciding?
    ensures var o := ItemStep(w, th, clusters, Helpful(th, name)); o.Some? && Carries(o.value.thread, name)
  {
    var config := th.pc.config;
    DecidedGetsOn(th, config, if Reusable(th.pc.cached, config) then th.pc.cached.value.client else None, name);
    DecidedGetsOn(th, config, Some(Client(config.restConfig, 0)), name);
  }

  lemma DecidedGetsOn(th: Thread, config: Config, client: Option<Client>, name: string)
    requires th.todo != [] && !th.task.DeleteOne? && Pending(th, config, name)
    ensures Carries(AfterDeciding(th, config, client), name)
    ensures config.name != name ==> Carries(ItemDone(th), name)
  {
  }

  /** The thread that gets on, or when it has to wait, one that it waits for. */
  lemma SomeoneGetsOn(w: World, s: State, t: Tid, name: string) returns (u: Tid, answer: Answer)
    requires Sound(s) && t < |s.threads| && Carries(s.threads[t], name)
    ensures u < |s.threads| && Quiet(answer, name) && Step(w, s, u, answer).Some?
    ensures var next := Step(w, s, u, answer).value; Carries(next.threads[t], name) || name in next.clusters
    ensures |Step(w, s, u, answer).value.threads| == |s.threads|
  {
    var th := s.threads[t];
    u, answer := t, Helpful(th, name);
    GetsOn(w, th, s.clusters, name);
    if Step(w, s, t, answer).None? {
      u, answer := Awaited(w, s, t, answer);
    }
  }

  lemma Awaited(w: World, s: State, t: Tid, blocked: Answer) returns (u: Tid, answer: Answer)
    requires Sound(s) && t < |s.threads|
    requires Local(w, s.threads[t], s.clusters, blocked).Some? && Step(w, s, t, blocked).None?
    ensures u < |s.threads| && u != t && Step(w, s, u, answer).Some? && (answer.Resources? ==> answer.items == [])
  {
    OpMatchesPc(w, s.threads[t], s.clusters, blocked);
    if s.lock.writer.Some? {
      u := s.lock.writer.value;
    } else if s.lock.readers != {} {
      u :| u in s.lock.readers;
    } else {
      u := s.lock.announced.value;
    }
    answer := AThreadSteps(w, s, u);
  }

  lemma {:induction false} PutBack(w: World, s: State, t: Tid, name: string) returns (states: seq<State>, moves: seq<Move>)
    requires Sound(s) && t < |s.threads| && Carries(s.threads[t], name)
    ensures IsPath(w, states, moves, name) && states[0] == s && name in states[|moves|].clusters
    decreases TotalWork(w, s.threads)
  {
    var u, answer := SomeoneGetsOn(w, s, t, name);
    var next := Step(w, s, u, answer).value;
    StepKeepsSound(w, s, u, answer);
    StepDoesWork(w, s, u, answer);
    if name in next.clusters {
      return [s, next], [Move(u, answer)];
    }
    var later, after := PutBack(w, next, t, name);
    states, moves := [s] + later, [Move(u, answer)] + after;
    OneStepBefore(w, s, Move(u, answer), later, after, name);
    assert states[|moves|] == later[|after|];
  }

  lemma OneStepBefore(w: World, s: State, move: Move, states: seq<State>, moves: seq<Move>, name: string)
    requires IsPath(w, states, moves, name) && move.tid < |s.threads| && Quiet(move.answer, name)
    requires Step(w, s, move.tid, move.answer) == Some(states[0])
    ensures IsPath(w, [s] + states, [move] + moves, name)
  {
    var path, steps := [s] + states, [move] + moves;
    forall i | 0 <= i < |steps|
      ensures steps[i].tid < |path[i].threads| && Quiet(steps[i].answer, name)
      ensures Step(w, path[i], steps[i].tid, steps[i].answer) == Some(path[i + 1])
    {
      if i > 0 {
        PathStep(w, states, moves, name, i - 1);
      }
    }
  }

  // ----- when a deletion lasts -----

  /** From a state without the name, it can come back without being listed again. */
  ghost predicate CanComeBack(w: World, s: State, name: string) {
    exists states: seq<State>, moves: seq<Move> :: IsPath(w, states, moves, name) && states[0] == s && name in states[|moves|].clusters
  }

  /** In every state of every run: a name that is absent can come back without being listed again if and only if
      some thread carries it. */
  lemma ComesBackExactly(w: World, states: seq<State>, moves: seq<Move>, i: nat, name: string)
    requires IsRun(w, states, moves) && i < |states| && name !in states[i].clusters
    ensures CanComeBack(w, states[i], name) <==> !NobodyCarries(states[i], name)
  {
    SoundOverEveryRun(w, states, moves, i);
    if NobodyCarries(states[i], name) {
      forall path: seq<State>, steps: seq<Move> | IsPath(w, path, steps, name) && path[0] == states[i]
        ensures name !in path[|steps|].clusters
      {
        StaysAbsent(w, path, steps, name, |steps|);
      }
    } else {
      var t: Tid :| t < |states[i].threads| && Carries(states[i].threads[t], name);
      var path, steps := PutBack(w, states[i], t, name);
    }
  }

  /** A deletion takes the name out of the map; it lasts until the name is listed again if and only if at that
      moment no thread carries it, such as a refresh that is past its list call. */
  lemma DeletionLastsExactly(w: World, states: seq<State>, moves: seq<Move>, i: nat, name: string)
    requires IsRun(w, states, moves) && i < |moves|
    requires states[i].threads[moves[i].tid].pc == Writing(Remove(name))
    ensures name !in states[i + 1].clusters
    ensures CanComeBack(w, states[i + 1], name) <==> !NobodyCarries(states[i + 1], name)
  {
    RunStep(w, states, moves, i);
    var th := states[i].threads[moves[i].tid];
    assert Local(w, th, states[i].clusters, moves[i].answer) ==
           Some(Outcome(th.(pc := Written), Leave, Changed(states[i].clusters, Remove(name))));
    ComesBackExactly(w, states, moves, i + 1, name);
  }
}
