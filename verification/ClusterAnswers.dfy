/** What look-ups and list calls answer in every interleaving (pkg/cluster/cache.go). */
module ClusterAnswers {
  import opened Wrappers
  import opened Clusters
  import opened ClusterInterleavings

  // ----- answers, told from the map -----

  predicate IsRead(task: Task) {
    task.LookUp? || task.ListAll?
  }

  /** The call asks for this entry of the map. */
  predicate Asks(task: Task, name: string, entry: CachedCluster) {
    || (task.LookUp? && name == task.name)
    || (task.ListAll? && forall i :: 0 <= i < |task.conditions| ==> task.conditions[i](entry))
  }

  /** The answer to the call if the map is read now: the entries it asks for, as they are. */
  ghost predicate Answers(answer: Cache, task: Task, clusters: Cache) {
    && (forall name :: name in answer <==> name in clusters && Asks(task, name, clusters[name]))
    && forall name :: name in answer ==> answer[name] == clusters[name]
  }

  /** Nothing the call asks for is in the map. */
  ghost predicate Misses(task: Task, clusters: Cache) {
    forall name :: name in clusters ==> !Asks(task, name, clusters[name])
  }

  predicate MayRefresh(w: World, task: Task) {
    w.hasRefresh && (task.LookUp? ==> task.canRefresh)
  }

  lemma WantedAnswers(task: Task, clusters: Cache)
    requires IsRead(task)
    ensures Answers(Wanted(task, clusters), task, clusters)
    ensures Wanted(task, clusters) == map[] <==> Misses(task, clusters)
  {
    var wanted := Wanted(task, clusters);
    if wanted == map[] {
      forall name | name in clusters ensures !Asks(task, name, clusters[name]) {
        assert name !in wanted;
      }
    } else {
      var name :| name in wanted;
      assert Asks(task, name, clusters[name]);
    }
  }

  // ----- the steps of a reading call -----

  predicate InRefresh(pc: Pc) {
    AddsItems(pc) || Writes(pc)
  }

  /** How a reading call moves on, up to the details of its refresh. */
  ghost predicate MovesOn(w: World, th: Thread, clusters: Cache, next: Thread) {
    && next.task == th.task
    && match th.pc
       case Start => next.pc.Reading?
       case Reading => next.pc.HasRead? && Answers(next.result, th.task, clusters) && (next.pc.hit <==> !Misses(th.task, clusters))
       case HasRead(hit) =>
         && next.result == th.result
         && next.pc == if hit then Done else if MayRefresh(w, th.task) then Listing else if th.task.ListAll? then WantReread else Done
       case WantReread => next.pc.Rereading?
       case Rereading => next.pc.Reread? && Answers(next.result, th.task, clusters)
       case Reread => next.pc.Done? && next.result == th.result
       case Done => false
       case _ => InRefresh(next.pc) || next.pc.WantReread?
  }

  lemma ReadsMoveOn(w: World, th: Thread, clusters: Cache, answer: Answer)
    requires IsRead(th.task) && Local(w, th, clusters, answer).Some?
    ensures MovesOn(w, th, clusters, Local(w, th, clusters, answer).value.thread)
  {
    TaskStays(w, th, clusters, answer);
    if AddsItems(th.pc) {
      ItemsMoveOn(w, th, clusters, answer);
    } else if !Writes(th.pc) {
      CallsMoveOn(w, th, clusters);
    }
  }

  lemma ItemsMoveOn(w: World, th: Thread, clusters: Cache, answer: Answer)
    requires IsRead(th.task) && ItemStep(w, th, clusters, answer).Some?
    ensures var next := ItemStep(w, th, clusters, answer).value.thread; InRefresh(next.pc) || next.pc.WantReread?
  {
  }

  lemma CallsMoveOn(w: World, th: Thread, clusters: Cache)
    requires IsRead(th.task) && CallStep(w, th, clusters).Some?
    ensures MovesOn(w, th, clusters, CallStep(w, th, clusters).value.thread)
  {
    WantedAnswers(th.task, clusters);
  }

  // ----- the journey of a reading call over a run -----

  /** At state j the call is about to read the map, and its answer is that of the map then. */
  ghost predicate ReadAt(states: seq<State>, t: Tid, j: nat, task: Task, answer: Cache)
    requires j < |states| && t < |states[j].threads|
  {
    (states[j].threads[t].pc.Reading? || states[j].threads[t].pc.Rereading?) && Answers(answer, task, states[j].clusters)
  }

  /** From state j on, up to state i, the call has its answer. */
  ghost predicate AnsweredSince(states: seq<State>, t: Tid, j: nat, i: nat)
    requires i < |states| && forall k :: 0 <= k < |states| ==> t < |states[k].threads|
  {
    forall k :: j < k <= i ==>
      states[k].threads[t].pc.HasRead? || states[k].threads[t].pc.Reread? || states[k].threads[t].pc.Done?
  }

  /** Between two states the call has listed the resources anew. */
  ghost predicate ListedBetween(states: seq<State>, t: Tid, first: nat, i: nat)
    requires i < |states| && forall k :: 0 <= k < |states| ==> t < |states[k].threads|
  {
    exists k :: first < k <= i && states[k].threads[t].pc.Listing?
  }

  /** A reading call at state i that has read the map, first at state first, and for its answer at state last. */
  ghost predicate Journey(w: World, states: seq<State>, t: Tid, i: nat, first: nat, last: nat)
    requires i < |states| && forall k :: 0 <= k < |states| ==> t < |states[k].threads|
  {
    var th := states[i].threads[t];
    && first < i && states[first].threads[t].pc.Reading?
    && match th.pc
       case Start => false
       case Reading => false
       case HasRead(hit) =>
         && last == first && ReadAt(states, t, last, th.task, th.result) && AnsweredSince(states, t, last, i)
         && (hit <==> !Misses(th.task, states[first].clusters))
       case Reread => Answered(w, states, t, i, first, last)
       case Done => Answered(w, states, t, i, first, last)
       case _ => Misses(th.task, states[first].clusters) && (MayRefresh(w, th.task) ==> ListedBetween(states, t, first, i))
  }

  /** The answer is that of a read: of the first one, if it hit or a miss was final, else of the one after a
      refresh. */
  ghost predicate Answered(w: World, states: seq<State>, t: Tid, i: nat, first: nat, last: nat)
    requires i < |states| && forall k :: 0 <= k < |states| ==> t < |states[k].threads|
  {
    var th := states[i].threads[t];
    && first <= last < i && ReadAt(states, t, last, th.task, th.result) && AnsweredSince(states, t, last, i)
    && if last == first
       then !Misses(th.task, states[first].clusters) || (th.task.LookUp? && !MayRefresh(w, th.task))
       else
         && Misses(th.task, states[first].clusters) && states[last].threads[t].pc.Rereading?
         && (MayRefresh(w, th.task) ==> ListedBetween(states, t, first, last))
  }

  /** A step moves one thread. */
  lemma StepOfThread(w: World, s: State, u: Tid, answer: Answer, t: Tid)
    requires u < |s.threads| && t < |s.threads| && Step(w, s, u, answer).Some?
    ensures var next := Step(w, s, u, answer).value;
            && |next.threads| == |s.threads| && Local(w, s.threads[u], s.clusters, answer).Some?
            && next.threads[t] == if u == t then Local(w, s.threads[u], s.clusters, answer).value.thread else s.threads[t]
  {
  }

  lemma MoveOfThread(w: World, states: seq<State>, moves: seq<Move>, i: nat, t: Tid)
    requires IsRun(w, states, moves) && i < |moves| && t < |states[i].threads|
    ensures var s, m := states[i], moves[i];
            && m.tid < |s.threads| && |states[i + 1].threads| == |s.threads|
            && Local(w, s.threads[m.tid], s.clusters, m.answer).Some?
            && states[i + 1].threads[t] ==
               if m.tid == t then Local(w, s.threads[t], s.clusters, m.answer).value.thread else s.threads[t]
  {
    RunStep(w, states, moves, i);
    StepOfThread(w, states[i], moves[i].tid, moves[i].answer, t);
  }

  lemma {:induction false} ThreadsStay(w: World, states: seq<State>, moves: seq<Move>, i: nat, t: Tid)
    requires IsRun(w, states, moves) && i < |states| && t < |states[0].threads|
    ensures |states[i].threads| == |states[0].threads| && states[i].threads[t].task == states[0].threads[t].task
  {
    if i > 0 {
      ThreadsStay(w, states, moves, i - 1, t);
      MoveOfThread(w, states, moves, i - 1, t);
      var s, m := states[i - 1], moves[i - 1];
      TaskStays(w, s.threads[m.tid], s.clusters, m.answer);
    }
  }

  lemma {:induction false} SameThreads(w: World, states: seq<State>, moves: seq<Move>, i: nat)
    requires IsRun(w, states, moves) && i < |states|
    ensures |states[i].threads| == |states[0].threads|
  {
    if i > 0 {
      SameThreads(w, states, moves, i - 1);
      RunStep(w, states, moves, i - 1);
      StepOfThread(w, states[i - 1], moves[i - 1].tid, moves[i - 1].answer, moves[i - 1].tid);
    }
  }

  /** One step of any thread continues the journey. */
  lemma {:induction false} JourneyOf(w: World, states: seq<State>, moves: seq<Move>, i: nat, t: Tid) returns (first: nat, last: nat)
    requires IsRun(w, states, moves) && i < |states| && t < |states[0].threads|
    requires forall k :: 0 <= k < |states| ==> t < |states[k].threads|
    requires IsRead(states[i].threads[t].task) && !states[i].threads[t].pc.Start? && !states[i].threads[t].pc.Reading?
    ensures Journey(w, states, t, i, first, last)
  {
    StartsAtTheStart(w, states, moves, t);
    MoveOfThread(w, states, moves, i - 1, t);
    ThreadsStay(w, states, moves, i, t);
    ThreadsStay(w, states, moves, i - 1, t);
    var s, m := states[i - 1], moves[i - 1];
    var th := s.threads[t];
    if m.tid != t {
      first, last := JourneyOf(w, states, moves, i - 1, t);
      JourneyPauses(w, states, t, i, first, last);
    } else {
      ReadsMoveOn(w, th, s.clusters, m.answer);
      if th.pc.Reading? {
        first, last := i - 1, i - 1;
        JourneyBegins(w, states, t, i);
      } else {
        first, last := JourneyOf(w, states, moves, i - 1, t);
        last := JourneyGoesOn(w, states, t, i, first, last);
      }
    }
  }

  lemma StartsAtTheStart(w: World, states: seq<State>, moves: seq<Move>, t: Tid)
    requires IsRun(w, states, moves) && t < |states[0].threads|
    ensures states[0].threads[t].pc == Start
  {
  }

  lemma JourneyBegins(w: World, states: seq<State>, t: Tid, i: nat)
    requires 0 < i < |states| && forall k :: 0 <= k < |states| ==> t < |states[k].threads|
    requires states[i - 1].threads[t].pc.Reading?
    requires MovesOn(w, states[i - 1].threads[t], states[i - 1].clusters, states[i].threads[t])
    ensures Journey(w, states, t, i, i - 1, i - 1)
  {
  }

  lemma JourneyPauses(w: World, states: seq<State>, t: Tid, i: nat, first: nat, last: nat)
    requires 0 < i < |states| && forall k :: 0 <= k < |states| ==> t < |states[k].threads|
    requires Journey(w, states, t, i - 1, first, last) && states[i].threads[t] == states[i - 1].threads[t]
    ensures Journey(w, states, t, i, first, last)
  {
    ListedEarlier(states, t, first, i - 1, i);
  }

  lemma ListedEarlier(states: seq<State>, t: Tid, first: nat, i: nat, later: nat)
    requires i <= later < |states| && forall k :: 0 <= k < |states| ==> t < |states[k].threads|
    ensures ListedBetween(states, t, first, i) ==> ListedBetween(states, t, first, later)
  {
  }

  lemma JourneyGoesOn(w: World, states: seq<State>, t: Tid, i: nat, first: nat, was: nat) returns (last: nat)
    requires 0 < i < |states| && forall k :: 0 <= k < |states| ==> t < |states[k].threads|
    requires IsRead(states[i - 1].threads[t].task) && Journey(w, states, t, i - 1, first, was)
    requires MovesOn(w, states[i - 1].threads[t], states[i - 1].clusters, states[i].threads[t])
    ensures Journey(w, states, t, i, first, last)
  {
    last := if states[i - 1].threads[t].pc.Rereading? then i - 1 else was;
    ListedEarlier(states, t, first, i - 1, i);
  }

  /** Over every run a finished look-up or list call answers what the map held when it read it, at a state
      within the call. It read it once if it found something, or was not to refresh; otherwise it first missed,
      listed the resources anew if it may, and answers from a read after that. */
  lemma CallsAnswer(w: World, states: seq<State>, moves: seq<Move>, i: nat, t: Tid) returns (first: nat, last: nat)
    requires IsRun(w, states, moves) && i < |states| && t < |states[i].threads|
    requires IsRead(states[i].threads[t].task) && states[i].threads[t].pc.Done?
    ensures first <= last < i && t < |states[first].threads| && t < |states[last].threads|
    ensures var th := states[i].threads[t];
            && Answers(th.result, th.task, states[last].clusters)
            && (last == first ==> !Misses(th.task, states[first].clusters) || (th.task.LookUp? && !MayRefresh(w, th.task)))
            && (last > first ==> Misses(th.task, states[first].clusters) && states[last].threads[t].pc.Rereading?)
            && (last > first && MayRefresh(w, th.task) ==>
                  exists k: nat :: first < k < last && t < |states[k].threads| && states[k].threads[t].pc.Listing?)
    ensures states[first].threads[t].pc.Reading?
  {
    SameThreads(w, states, moves, i);
    ThreadsStay(w, states, moves, i, t);
    forall k | 0 <= k < |states| ensures t < |states[k].threads| {
      ThreadsStay(w, states, moves, k, t);
    }
    first, last := JourneyOf(w, states, moves, i, t);
  }

  /** For a look-up this reads: the answer is the entry of the name at some state within the call, if there was
      one; and a call that misses although it may refresh has listed the resources before that state. */
  lemma LookUpsAnswer(w: World, states: seq<State>, moves: seq<Move>, i: nat, t: Tid, name: string) returns (j: nat)
    requires IsRun(w, states, moves) && i < |states| && t < |states[i].threads|
    requires states[i].threads[t].pc.Done? && states[i].threads[t].task == LookUp(name, true)
    ensures j < i && t < |states[j].threads|
    ensures var result, clusters := states[i].threads[t].result, states[j].clusters;
            && (name in result <==> name in clusters) && (name in result ==> result[name] == clusters[name])
            && (name !in result && w.hasRefresh ==> exists k: nat :: k < j && t < |states[k].threads| && states[k].threads[t].pc.Listing?)
  {
    var first, last := CallsAnswer(w, states, moves, i, t);
    j := last;
    assert name in states[j].clusters ==> Asks(LookUp(name, true), name, states[j].clusters[name]);
    assert name !in states[first].clusters ==> Misses(LookUp(name, true), states[first].clusters);
  }
}
