/** One call running alone leaves the map and the answer that the sequential contract of the call states
    (pkg/cluster/cache.go, pkg/cluster/service.go). */
module ClusterAlone {
  import opened Wrappers
  import opened Clusters
  import opened ClusterInterleavings
  import opened ClusterDeletions
  import opened ClusterAnswers

  /** The outside answers as the service does. */
  ghost predicate AnsweredBy(service: Service, th: Thread, answer: Answer) {
    && (th.pc.Listing? ==> answer == Resources(Items(service)))
    && (th.pc.NextItem? && th.todo != [] ==> answer == Loaded(service.backend.load(th.todo[0])))
    && (th.pc.Deciding? ==> answer == Built(service.backend.newClient(th.pc.config.restConfig)))
  }

  ghost function AnswerOf(task: Task, clusters: Cache): Cache {
    map name | name in clusters && Asks(task, name, clusters[name]) :: clusters[name]
  }

  lemma OneAnswer(answer: Cache, task: Task, clusters: Cache)
    requires Answers(answer, task, clusters)
    ensures answer == AnswerOf(task, clusters)
    ensures Misses(task, clusters) <==> AnswerOf(task, clusters) == map[]
  {
    var wanted := AnswerOf(task, clusters);
    if wanted == map[] {
      forall name | name in clusters ensures !Asks(task, name, clusters[name]) {
        assert name !in wanted;
      }
    }
  }

  datatype Ending = Ending(clusters: Cache, answer: Cache)

  /** A read of the map at the end, for the calls that answer something. */
  ghost function Answering(th: Thread, clusters: Cache): Ending {
    Ending(clusters, if IsRead(th.task) then AnswerOf(th.task, clusters) else th.result)
  }

  /** From a first read that found nothing, or something. */
  ghost function AfterFirstRead(w: World, service: Service, th: Thread, clusters: Cache, hit: bool): Ending {
    if !hit && MayRefresh(w, th.task) then Answering(th, Refreshed(clusters, service))
    else Answering(th, clusters)
  }

  /** How the call ends from where it is, in terms of the sequential service. */
  ghost function Finally(w: World, service: Service, th: Thread, clusters: Cache): Ending {
    match th.pc
    case Start =>
      (match th.task
       case LookUp(_, _) => AfterFirstRead(w, service, th, clusters, !Misses(th.task, clusters))
       case ListAll(_) => AfterFirstRead(w, service, th, clusters, !Misses(th.task, clusters))
       case AddOne(cluster) => Ending(WithCluster(service.backend, clusters, cluster), th.result)
       case DeleteOne(name) => Ending(clusters - {name}, th.result)
       case RefreshAll => Ending(Refreshed(clusters, service), th.result))
    case Reading => AfterFirstRead(w, service, th, clusters, !Misses(th.task, clusters))
    case HasRead(hit) => AfterFirstRead(w, service, th, clusters, hit)
    case Listing => Answering(th, Refreshed(clusters, service))
    case NextItem => Answering(th, WithClusters(service.backend, clusters, th.todo))
    case WantPeek(_) => Answering(th, WithClusters(service.backend, clusters, th.todo))
    case Peeking(_) => Answering(th, WithClusters(service.backend, clusters, th.todo))
    case Peeked(_, _) => Answering(th, WithClusters(service.backend, clusters, th.todo))
    case Deciding(_, _) => Answering(th, WithClusters(service.backend, clusters, th.todo))
    case WantWrite(write) => AfterWrite(service, th, Changed(clusters, write))
    case Announced(write) => AfterWrite(service, th, Changed(clusters, write))
    case Writing(write) => AfterWrite(service, th, Changed(clusters, write))
    case Written => AfterWrite(service, th, clusters)
    case WantReread => Answering(th, clusters)
    case Rereading => Answering(th, clusters)
    case Reread => Ending(clusters, th.result)
    case Done => Ending(clusters, th.result)
  }

  ghost function AfterWrite(service: Service, th: Thread, clusters: Cache): Ending {
    if th.task.DeleteOne? then Ending(clusters, th.result)
    else Answering(th, WithClusters(service.backend, clusters, Rest(th.todo)))
  }

  /** What the thread carries agrees with the service and, as it is alone, with the map. */
  ghost predicate UpToDate(service: Service, th: Thread, clusters: Cache) {
    && (th.pc.WantPeek? || th.pc.Peeking? || th.pc.Peeked? || th.pc.Deciding? ==>
          th.todo != [] && service.backend.load(th.todo[0]) == Success(th.pc.config))
    && (th.pc.Peeked? || th.pc.Deciding? ==> th.pc.cached == Lookup(clusters, th.pc.config.name))
    && (th.pc.HasRead? ==> Answers(th.result, th.task, clusters) && (th.pc.hit <==> !Misses(th.task, clusters)))
    && (th.pc.Reading? || th.pc.HasRead? || th.pc.WantReread? || th.pc.Rereading? || th.pc.Reread? ==> IsRead(th.task))
  }

  lemma {:induction false} FirstClusterFirst(backend: Backend, cache: Cache, clusters: seq<ToolchainCluster>)
    requires clusters != []
    ensures WithClusters(backend, cache, clusters) == WithClusters(backend, WithCluster(backend, cache, clusters[0]), clusters[1..])
  {
    var n := |clusters| - 1;
    if n > 0 {
      FirstClusterFirst(backend, cache, clusters[..n]);
      assert clusters[..n][1..] == clusters[1..][..n - 1];
    } else {
      assert clusters[..0] == [] && clusters[1..] == [];
    }
  }

  lemma StepAlone(w: World, service: Service, th: Thread, clusters: Cache, answer: Answer)
    requires Lawful(service.backend) && ThreadInv(th) && OnlyDeletes(th) && UpToDate(service, th, clusters)
    requires AnsweredBy(service, th, answer) && Local(w, th, clusters, answer).Some?
    ensures var o := Local(w, th, clusters, answer).value;
            UpToDate(service, o.thread, o.clusters) && Finally(w, service, o.thread, o.clusters) == Finally(w, service, th, clusters)
  {
    TaskStays(w, th, clusters, answer);
    if th.pc.Deciding? {
      DecidingAlone(w, service, th, clusters, answer);
    } else if AddsItems(th.pc) {
      ItemAlone(w, service, th, clusters, answer);
    } else if Writes(th.pc) {
      WriteAlone(w, service, th, clusters);
    } else if th.pc.Start? {
      StartAlone(w, service, th, clusters);
    } else {
      ReadAlone(w, service, th, clusters);
    }
  }

  lemma StartAlone(w: World, service: Service, th: Thread, clusters: Cache)
    requires th.pc.Start? && OnlyDeletes(th)
    ensures var o := CallStep(w, th, clusters).value;
            UpToDate(service, o.thread, o.clusters) && Finally(w, service, o.thread, o.clusters) == Finally(w, service, th, clusters)
  {
    if th.task.AddOne? {
      FirstClusterFirst(service.backend, clusters, [th.task.cluster]);
      assert [th.task.cluster][1..] == [];
    }
  }

  lemma ReadAlone(w: World, service: Service, th: Thread, clusters: Cache)
    requires UpToDate(service, th, clusters) && CallStep(w, th, clusters).Some? && !th.pc.Start?
    ensures var o := CallStep(w, th, clusters).value;
            UpToDate(service, o.thread, o.clusters) && Finally(w, service, o.thread, o.clusters) == Finally(w, service, th, clusters)
  {
    var o := CallStep(w, th, clusters).value;
    CallsMoveOn(w, th, clusters);
    if th.pc.HasRead? {
      OneAnswer(th.result, th.task, clusters);
    }
    if th.pc.Reading? || th.pc.Rereading? {
      OneAnswer(o.thread.result, th.task, clusters);
    }
  }

  lemma ItemAlone(w: World, service: Service, th: Thread, clusters: Cache, answer: Answer)
    requires Lawful(service.backend) && UpToDate(service, th, clusters) && AnsweredBy(service, th, answer)
    requires !th.pc.Deciding? && ItemStep(w, th, clusters, answer).Some? && OnlyDeletes(th)
    ensures var o := ItemStep(w, th, clusters, answer).value;
            UpToDate(service, o.thread, o.clusters) && Finally(w, service, o.thread, o.clusters) == Finally(w, service, th, clusters)
  {
    if th.pc.NextItem? && th.todo != [] {
      FirstClusterFirst(service.backend, clusters, th.todo);
    }
  }

  lemma DecidingAlone(w: World, service: Service, th: Thread, clusters: Cache, answer: Answer)
    requires Lawful(service.backend) && UpToDate(service, th, clusters) && AnsweredBy(service, th, answer)
    requires th.pc.Deciding? && ItemStep(w, th, clusters, answer).Some? && OnlyDeletes(th)
    ensures var o := ItemStep(w, th, clusters, answer).value;
            UpToDate(service, o.thread, o.clusters) && Finally(w, service, o.thread, o.clusters) == Finally(w, service, th, clusters)
  {
    FirstClusterFirst(service.backend, clusters, th.todo);
    var config, cluster := th.pc.config, th.todo[0];
    if Reusable(th.pc.cached, config) {
      DecidedAlone(w, service, th, th.pc.cached.value.client, clusters);
    } else if answer.client.Success? {
      DecidedAlone(w, service, th, Some(answer.client.value), clusters);
    } else {
      assert WithCluster(service.backend, clusters, cluster) == clusters;
    }
  }

  lemma DecidedAlone(w: World, service: Service, th: Thread, client: Option<Client>, clusters: Cache)
    requires Lawful(service.backend) && th.todo != [] && th.pc.Deciding? && !th.task.DeleteOne?
    requires service.backend.load(th.todo[0]) == Success(th.pc.config)
    requires var cached := Lookup(clusters, th.todo[0].name);
             if Reusable(cached, th.pc.config) then client == cached.value.client
             else service.backend.newClient(th.pc.config.restConfig).Success?
                  && client == Some(service.backend.newClient(th.pc.config.restConfig).value)
    ensures Finally(w, service, AfterDeciding(th, th.pc.config, client), clusters) ==
            Answering(th, WithClusters(service.backend, WithCluster(service.backend, clusters, th.todo[0]), th.todo[1..]))
  {
  }

  lemma WriteAlone(w: World, service: Service, th: Thread, clusters: Cache)
    requires OnlyDeletes(th) && WriteStep(th, clusters).Some?
    ensures var o := WriteStep(th, clusters).value;
            UpToDate(service, o.thread, o.clusters) && Finally(w, service, o.thread, o.clusters) == Finally(w, service, th, clusters)
  {
  }

  /** A run of one thread, with the service answering. */
  ghost predicate RunsAlone(w: World, service: Service, states: seq<State>, moves: seq<Move>) {
    && IsRun(w, states, moves) && |states[0].threads| == 1 && Lawful(service.backend)
    && forall i :: 0 <= i < |moves| ==>
         moves[i].tid == 0 && |states[i].threads| == 1 && AnsweredBy(service, states[i].threads[0], moves[i].answer)
  }

  /** The thread has its task, agrees with the service and the map, and will end as the other would. */
  ghost predicate AsBegun(w: World, service: Service, th: Thread, clusters: Cache, th': Thread, clusters': Cache) {
    && th'.task == th.task && UpToDate(service, th', clusters')
    && Finally(w, service, th', clusters') == Finally(w, service, th, clusters)
  }

  lemma {:induction false} EndsAsBegun(w: World, service: Service, states: seq<State>, moves: seq<Move>, i: nat)
    requires RunsAlone(w, service, states, moves) && i < |states|
    ensures |states[0].threads| == 1 && |states[i].threads| == 1
    ensures AsBegun(w, service, states[0].threads[0], states[0].clusters, states[i].threads[0], states[i].clusters)
  {
    if i > 0 {
      EndsAsBegun(w, service, states, moves, i - 1);
      RunStep(w, states, moves, i - 1);
      SoundOverEveryRun(w, states, moves, i - 1);
      StaysAsBegun(w, service, states[0].threads[0], states[0].clusters, states[i - 1], moves[i - 1].answer);
    } else {
      BegunAtTheStart(w, service, states[0]);
    }
  }

  lemma BegunAtTheStart(w: World, service: Service, s: State)
    requires Initial(s) && |s.threads| == 1
    ensures AsBegun(w, service, s.threads[0], s.clusters, s.threads[0], s.clusters)
  {
  }

  lemma StaysAsBegun(w: World, service: Service, th: Thread, clusters: Cache, s: State, answer: Answer)
    requires Lawful(service.backend) && Sound(s) && |s.threads| == 1 && AnsweredBy(service, s.threads[0], answer)
    requires AsBegun(w, service, th, clusters, s.threads[0], s.clusters) && Step(w, s, 0, answer).Some?
    ensures var s' := Step(w, s, 0, answer).value;
            |s'.threads| == 1 && AsBegun(w, service, th, clusters, s'.threads[0], s'.clusters)
  {
    TaskStays(w, s.threads[0], s.clusters, answer);
    StepAlone(w, service, s.threads[0], s.clusters, answer);
  }

  /** What the sequential contract of a call says of the map and the answer it leaves: a look-up or list call
      leaves the map, refreshed exactly if it missed and may refresh, and answers from that map; an addition, a
      deletion and a refresh leave the map they make. */
  ghost predicate Contracted(w: World, service: Service, task: Task, before: Cache, after: Cache, result: Cache) {
    match task
    case LookUp(name, canRefresh) =>
      && after == (if name !in before && canRefresh && w.hasRefresh then Refreshed(before, service) else before)
      && result == if name in after then map[name := after[name]] else map[]
    case ListAll(conditions) =>
      && after == (if Matching(before, conditions) == map[] && w.hasRefresh then Refreshed(before, service) else before)
      && result == Matching(after, conditions)
    case AddOne(cluster) => after == WithCluster(service.backend, before, cluster)
    case DeleteOne(name) => after == before - {name}
    case RefreshAll => after == Refreshed(before, service)
  }

  lemma FinallyContracted(w: World, service: Service, th: Thread, clusters: Cache)
    requires th.pc.Start?
    ensures var ending := Finally(w, service, th, clusters);
            Contracted(w, service, th.task, clusters, ending.clusters, ending.answer)
  {
    AnswerTold(th.task, clusters);
    AnswerTold(th.task, Refreshed(clusters, service));
  }

  /** A call that runs alone to its end keeps its sequential contract. */
  lemma AloneAsContracted(w: World, service: Service, states: seq<State>, moves: seq<Move>)
    requires RunsAlone(w, service, states, moves)
    requires |states[|moves|].threads| == 1 && states[|moves|].threads[0].pc.Done?
    ensures Contracted(w, service, states[0].threads[0].task, states[0].clusters, states[|moves|].clusters,
                       states[|moves|].threads[0].result)
  {
    EndsAsBegun(w, service, states, moves, |moves|);
    FinallyContracted(w, service, states[0].threads[0], states[0].clusters);
  }

  lemma AnswerTold(task: Task, clusters: Cache)
    ensures Answers(AnswerOf(task, clusters), task, clusters)
    ensures Misses(task, clusters) <==> AnswerOf(task, clusters) == map[]
    ensures match task
            case LookUp(name, _) => AnswerOf(task, clusters) == if name in clusters then map[name := clusters[name]] else map[]
            case ListAll(conditions) => AnswerOf(task, clusters) == Matching(clusters, conditions)
            case _ => true
  {
    OneAnswer(AnswerOf(task, clusters), task, clusters);
  }
}
