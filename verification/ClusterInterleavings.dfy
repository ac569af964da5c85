/** The cluster cache under any number of threads: every lock operation, every access to the map and every
    call to the outside is one step of one thread, and steps of different threads interleave freely
    (pkg/cluster/cache.go, pkg/cluster/service.go). The lock is a sync.RWMutex: a writer that has announced
    itself keeps new readers out and waits for the present ones to leave. */
module ClusterInterleavings {
  import opened Wrappers
  import opened Clusters

  type Tid = nat

  /** The calls a thread can be making. */
  datatype Task =
    | LookUp(name: string, canRefresh: bool)
    | ListAll(conditions: seq<Condition>)
    | AddOne(cluster: ToolchainCluster)
    | DeleteOne(name: string)
    | RefreshAll

  datatype Write = Put(entry: CachedCluster) | Remove(name: string)

  /** Where a thread is. `[R]` and `[W]` mark the points at which it holds the lock. */
  datatype Pc =
    | Start
    | Reading                                                  // [R] about to read the map
    | HasRead(hit: bool)                                       // [R] about to release
    | Listing                                                  // about to list the resources
    | NextItem                                                 // about to load the next resource's config
    | WantPeek(config: Config)                                 // about to look up the old entry
    | Peeking(config: Config)                                  // [R]
    | Peeked(config: Config, cached: Option<CachedCluster>)    // [R] about to release
    | Deciding(config: Config, cached: Option<CachedCluster>)  // about to reuse or build a client
    | WantWrite(write: Write)                                  // about to announce a write
    | Announced(write: Write)                                  // waiting for readers to leave
    | Writing(write: Write)                                    // [W] about to change the map
    | Written                                                  // [W] about to release
    | WantReread                                               // about to look again after a refresh
    | Rereading                                                // [R]
    | Reread                                                   // [R] about to release
    | Done

  datatype Thread = Thread(task: Task, pc: Pc, todo: seq<ToolchainCluster>, result: Cache, refreshes: nat)

  datatype RWMutex = RWMutex(readers: set<Tid>, writer: Option<Tid>, announced: Option<Tid>)

  datatype State = State(threads: seq<Thread>, lock: RWMutex, clusters: Cache)

  /** What the outside answers at a step that asks it something. */
  datatype Answer =
    | Nothing
    | Resources(items: seq<ToolchainCluster>)
    | Loaded(config: Result<Config, string>)
    | Built(client: Result<Client, string>)

  /** The fixed surroundings: whether a refresh function is set, and how many resources a list call can
      return at most. */
  datatype World = World(hasRefresh: bool, listLimit: nat)

  // ----- the lock as seen from a program counter -----

  predicate HoldsRead(pc: Pc) {
    pc.Reading? || pc.HasRead? || pc.Peeking? || pc.Peeked? || pc.Rereading? || pc.Reread?
  }

  predicate HoldsWrite(pc: Pc) {
    pc.Writing? || pc.Written?
  }

  /** Points at which a thread may have to wait for the lock. */
  predicate Waits(thread: Thread) {
    || (thread.pc.Start? && (thread.task.LookUp? || thread.task.ListAll?))
    || thread.pc.WantPeek? || thread.pc.WantReread? || thread.pc.WantWrite? || thread.pc.Announced?
  }

  /** What a step does to the lock. */
  datatype LockOp = Leave | TakeRead | DropRead | AnnounceWrite | TakeWrite | DropWrite

  predicate Open(lock: RWMutex) {
    lock.writer.None? && lock.announced.None?
  }

  /** The lock after the operation, or None when the thread must wait. */
  function AfterOp(lock: RWMutex, t: Tid, op: LockOp): Option<RWMutex> {
    match op
    case Leave => Some(lock)
    case TakeRead => if Open(lock) then Some(lock.(readers := lock.readers + {t})) else None
    case DropRead => Some(lock.(readers := lock.readers - {t}))
    case AnnounceWrite => if Open(lock) then Some(lock.(announced := Some(t))) else None
    case TakeWrite => if lock.readers == {} then Some(lock.(announced := None, writer := Some(t))) else None
    case DropWrite => Some(lock.(writer := None))
  }

  // ----- the steps -----

  function Wanted(task: Task, clusters: Cache): Cache {
    match task
    case LookUp(name, _) => map n | n in clusters && n == name :: clusters[n]
    case ListAll(conditions) => Matching(clusters, conditions)
    case _ => map[]
  }

  /** What follows the first read: done, or a refresh, or for a list without a refresh function a second
      read. */
  function AfterRead(w: World, thread: Thread, hit: bool): Thread {
    if !hit && w.hasRefresh && (thread.task.LookUp? ==> thread.task.canRefresh) then
      thread.(pc := Listing, refreshes := thread.refreshes + 1)
    else if !hit && thread.task.ListAll? then thread.(pc := WantReread)
    else thread.(pc := Done)
  }

  /** One resource has been dealt with, whether or not it was added. */
  function ItemDone(thread: Thread): Thread {
    thread.(pc := NextItem, todo := if thread.todo == [] then [] else thread.todo[1..])
  }

  function AfterDeciding(thread: Thread, config: Config, client: Option<Client>): Thread
    requires thread.todo != []
  {
    if config.operatorNamespace == "" then ItemDone(thread)
    else thread.(pc := WantWrite(Put(CachedCluster(config, client, thread.todo[0].ready))))
  }

  function Changed(clusters: Cache, write: Write): Cache {
    match write
    case Put(entry) => clusters[entry.config.name := entry]
    case Remove(name) => clusters - {name}
  }

  datatype Outcome = Outcome(thread: Thread, op: LockOp, clusters: Cache)

  /** The calls' own steps: the read, what follows it, and the second read. */
  function CallStep(w: World, th: Thread, clusters: Cache): Option<Outcome> {
    match th.pc
    case Start =>
      (match th.task
       case LookUp(_, _) => Some(Outcome(th.(pc := Reading), TakeRead, clusters))
       case ListAll(_) => Some(Outcome(th.(pc := Reading), TakeRead, clusters))
       case AddOne(cluster) => Some(Outcome(th.(pc := NextItem, todo := [cluster]), Leave, clusters))
       case DeleteOne(name) => Some(Outcome(th.(pc := WantWrite(Remove(name))), Leave, clusters))
       case RefreshAll => Some(Outcome(th.(pc := Listing, refreshes := th.refreshes + 1), Leave, clusters)))
    case Reading =>
      var found := Wanted(th.task, clusters);
      Some(Outcome(th.(pc := HasRead(found != map[]), result := found), Leave, clusters))
    case HasRead(hit) => Some(Outcome(AfterRead(w, th, hit), DropRead, clusters))
    case WantReread => Some(Outcome(th.(pc := Rereading), TakeRead, clusters))
    case Rereading => Some(Outcome(th.(pc := Reread, result := Wanted(th.task, clusters)), Leave, clusters))
    case Reread => Some(Outcome(th.(pc := Done), DropRead, clusters))
    case _ => None
  }

  /** The steps of adding resources up to the write: the list, the config, the old entry, the client. */
  function ItemStep(w: World, th: Thread, clusters: Cache, answer: Answer): Option<Outcome> {
    match th.pc
    case Listing =>
      if answer.Resources? && |answer.items| <= w.listLimit
      then Some(Outcome(th.(pc := NextItem, todo := answer.items), Leave, clusters)) else None
    case NextItem =>
      if th.todo == [] then
        Some(Outcome(th.(pc := if th.task.LookUp? || th.task.ListAll? then WantReread else Done), Leave, clusters))
      else if !answer.Loaded? then None
      else if answer.config.Failure? then Some(Outcome(ItemDone(th), Leave, clusters))
      else if answer.config.value.name == th.todo[0].name
      then Some(Outcome(th.(pc := WantPeek(answer.config.value)), Leave, clusters)) else None
    case WantPeek(config) => Some(Outcome(th.(pc := Peeking(config)), TakeRead, clusters))
    case Peeking(config) =>
      Some(Outcome(th.(pc := Peeked(config, Lookup(clusters, config.name))), Leave, clusters))
    case Peeked(config, cached) => Some(Outcome(th.(pc := Deciding(config, cached)), DropRead, clusters))
    case Deciding(config, cached) =>
      if th.todo == [] then None
      else if Reusable(cached, config)
      then Some(Outcome(AfterDeciding(th, config, cached.value.client), Leave, clusters))
      else if !answer.Built? then None
      else if answer.client.Failure? then Some(Outcome(ItemDone(th), Leave, clusters))
      else if answer.client.value.builtFrom == config.restConfig
      then Some(Outcome(AfterDeciding(th, config, Some(answer.client.value)), Leave, clusters)) else None
    case _ => None
  }

  /** The steps of one write. */
  function WriteStep(th: Thread, clusters: Cache): Option<Outcome> {
    match th.pc
    case WantWrite(write) => Some(Outcome(th.(pc := Announced(write)), AnnounceWrite, clusters))
    case Announced(write) => Some(Outcome(th.(pc := Writing(write)), TakeWrite, clusters))
    case Writing(write) => Some(Outcome(th.(pc := Written), Leave, Changed(clusters, write)))
    case Written =>
      Some(Outcome(if th.task.DeleteOne? then th.(pc := Done) else ItemDone(th), DropWrite, clusters))
    case _ => None
  }

  predicate AddsItems(pc: Pc) {
    pc.Listing? || pc.NextItem? || pc.WantPeek? || pc.Peeking? || pc.Peeked? || pc.Deciding?
  }

  predicate Writes(pc: Pc) {
    pc.WantWrite? || pc.Announced? || pc.Writing? || pc.Written?
  }

  /** The next step of a thread under the given answer, as far as the lock lets it; None when the thread is
      done or the answer is not one to its question. */
  function Local(w: World, th: Thread, clusters: Cache, answer: Answer): Option<Outcome> {
    if AddsItems(th.pc) then ItemStep(w, th, clusters, answer)
    else if Writes(th.pc) then WriteStep(th, clusters)
    else CallStep(w, th, clusters)
  }

  lemma TaskStays(w: World, th: Thread, clusters: Cache, answer: Answer)
    requires Local(w, th, clusters, answer).Some?
    ensures Local(w, th, clusters, answer).value.thread.task == th.task
  {
  }

  /** The next state when thread t steps; None when it cannot, or has to wait for the lock. */
  function Step(w: World, s: State, t: Tid, answer: Answer): Option<State>
    requires t < |s.threads|
  {
    match Local(w, s.threads[t], s.clusters, answer)
    case None => None
    case Some(o) =>
      match AfterOp(s.lock, t, o.op)
      case None => None
      case Some(lock) => Some(State(s.threads[t := o.thread], lock, o.clusters))
  }

  // ----- runs -----

  datatype Move = Move(tid: Tid, answer: Answer)

  ghost predicate Initial(s: State) {
    && s.lock == RWMutex({}, None, None) && GoodCache(s.clusters)
    && forall t :: 0 <= t < |s.threads| ==>
         s.threads[t] == Thread(s.threads[t].task, Start, [], map[], 0)
  }

  ghost predicate IsRun(w: World, states: seq<State>, moves: seq<Move>) {
    && |states| == |moves| + 1 && Initial(states[0])
    && forall i :: 0 <= i < |moves| ==>
         moves[i].tid < |states[i].threads|
         && Step(w, states[i], moves[i].tid, moves[i].answer) == Some(states[i + 1])
  }

  lemma RunStep(w: World, states: seq<State>, moves: seq<Move>, i: nat)
    requires IsRun(w, states, moves) && i < |moves|
    ensures moves[i].tid < |states[i].threads|
    ensures Step(w, states[i], moves[i].tid, moves[i].answer) == Some(states[i + 1])
  {
  }

  // ----- the invariant -----

  /** The lock state agrees with the program counters, and a writer is alone. */
  ghost predicate LockInv(lock: RWMutex, threads: seq<Thread>) {
    && (forall t :: t in lock.readers ==> t < |threads|)
    && (forall t :: 0 <= t < |threads| ==>
          && (t in lock.readers <==> HoldsRead(threads[t].pc))
          && (lock.writer == Some(t) <==> HoldsWrite(threads[t].pc))
          && (lock.announced == Some(t) <==> threads[t].pc.Announced?))
    && (lock.writer.Some? ==> lock.writer.value < |threads| && lock.readers == {} && lock.announced.None?)
    && (lock.announced.Some? ==> lock.announced.value < |threads|)
  }

  ghost predicate GoodWrite(write: Write) {
    write.Put? ==> Good(write.entry)
  }

  /** What a thread carries is fit for the cache, and it has refreshed at most once, not at all before its
      first read. */
  ghost predicate ThreadInv(thread: Thread) {
    var pc := thread.pc;
    && GoodCache(thread.result)
    && (pc.WantPeek? || pc.Peeking? || pc.Peeked? || pc.Deciding? ==>
          thread.todo != [] && pc.config.name == thread.todo[0].name)
    && (pc.Peeked? || pc.Deciding? ==> pc.cached.Some? ==> Good(pc.cached.value))
    && (pc.WantWrite? || pc.Announced? || pc.Writing? ==> GoodWrite(pc.write))
    && (pc.Start? || pc.Reading? || pc.HasRead? ==> thread.refreshes == 0)
    && thread.refreshes <= 1 && (pc.Start? ==> thread.todo == [])
    && (thread.task.LookUp? ==> thread.result.Keys <= {thread.task.name})
  }

  ghost predicate Inv(s: State) {
    LockInv(s.lock, s.threads) && GoodCache(s.clusters) && forall t :: 0 <= t < |s.threads| ==> ThreadInv(s.threads[t])
  }

  /** The lock operation of a step is what takes its thread from the one holding to the other. */
  ghost predicate OpFits(th: Thread, clusters: Cache, o: Outcome) {
    && (HoldsRead(o.thread.pc) <==> o.op == TakeRead || (HoldsRead(th.pc) && o.op != DropRead))
    && (HoldsWrite(o.thread.pc) <==> o.op == TakeWrite || (HoldsWrite(th.pc) && o.op != DropWrite))
    && (o.thread.pc.Announced? <==> o.op == AnnounceWrite) && (th.pc.Announced? <==> o.op == TakeWrite)
    && (o.op == DropRead ==> HoldsRead(th.pc)) && (o.op == DropWrite ==> HoldsWrite(th.pc))
    && (o.op.TakeRead? || o.op.AnnounceWrite? || o.op.TakeWrite? <==> Waits(th))
    && (Waits(th) ==> !HoldsRead(th.pc) && !HoldsWrite(th.pc))
    && (o.clusters != clusters ==> th.pc.Writing?)
  }

  lemma CallOpFits(w: World, th: Thread, clusters: Cache)
    requires CallStep(w, th, clusters).Some?
    ensures OpFits(th, clusters, CallStep(w, th, clusters).value)
  {
  }

  lemma ItemOpFits(w: World, th: Thread, clusters: Cache, answer: Answer)
    requires ItemStep(w, th, clusters, answer).Some?
    ensures OpFits(th, clusters, ItemStep(w, th, clusters, answer).value)
  {
    if th.pc.Listing? || th.pc.NextItem? {
      FetchOpFits(w, th, clusters, answer);
    } else if th.pc.Deciding? {
      DecidingOpFits(w, th, clusters, answer);
    } else {
      PeekOpFits(w, th, clusters, answer);
    }
  }

  lemma FetchOpFits(w: World, th: Thread, clusters: Cache, answer: Answer)
    requires (th.pc.Listing? || th.pc.NextItem?) && ItemStep(w, th, clusters, answer).Some?
    ensures OpFits(th, clusters, ItemStep(w, th, clusters, answer).value)
  {
  }

  lemma PeekOpFits(w: World, th: Thread, clusters: Cache, answer: Answer)
    requires (th.pc.WantPeek? || th.pc.Peeking? || th.pc.Peeked?) && ItemStep(w, th, clusters, answer).Some?
    ensures OpFits(th, clusters, ItemStep(w, th, clusters, answer).value)
  {
  }

  lemma DecidingOpFits(w: World, th: Thread, clusters: Cache, answer: Answer)
    requires th.pc.Deciding? && ItemStep(w, th, clusters, answer).Some?
    ensures OpFits(th, clusters, ItemStep(w, th, clusters, answer).value)
  {
  }

  lemma OpMatchesPc(w: World, th: Thread, clusters: Cache, answer: Answer)
    requires Local(w, th, clusters, answer).Some?
    ensures OpFits(th, clusters, Local(w, th, clusters, answer).value)
  {
    if AddsItems(th.pc) {
      ItemOpFits(w, th, clusters, answer);
    } else if !Writes(th.pc) {
      CallOpFits(w, th, clusters);
    }
  }

  lemma StepKeepsLock(w: World, s: State, t: Tid, answer: Answer)
    requires t < |s.threads| && LockInv(s.lock, s.threads) && Step(w, s, t, answer).Some?
    ensures var s' := Step(w, s, t, answer).value; LockInv(s'.lock, s'.threads)
  {
    OpMatchesPc(w, s.threads[t], s.clusters, answer);
    var o := Local(w, s.threads[t], s.clusters, answer).value;
    assert OpFits(s.threads[t], o.clusters, o);
    OpKeepsLock(s.lock, s.threads, t, o);
  }

  lemma OpKeepsLock(lock: RWMutex, threads: seq<Thread>, t: Tid, o: Outcome)
    requires t < |threads| && LockInv(lock, threads) && AfterOp(lock, t, o.op).Some?
    requires OpFits(threads[t], o.clusters, o)
    ensures LockInv(AfterOp(lock, t, o.op).value, threads[t := o.thread])
  {
  }

  lemma DecisionIsFit(thread: Thread, config: Config, client: Option<Client>)
    requires ThreadInv(thread) && thread.pc.Deciding?
    requires client.Some? && client.value.builtFrom == config.restConfig
    ensures ThreadInv(AfterDeciding(thread, config, client))
  {
  }

  lemma WriteIsFit(clusters: Cache, write: Write)
    requires GoodCache(clusters) && GoodWrite(write)
    ensures GoodCache(Changed(clusters, write))
  {
  }

  lemma CallStepIsFit(w: World, th: Thread, clusters: Cache)
    requires GoodCache(clusters) && ThreadInv(th) && CallStep(w, th, clusters).Some?
    ensures ThreadInv(CallStep(w, th, clusters).value.thread)
  {
    if th.pc.Reading? || th.pc.Rereading? {
      ReadingIsFit(w, th, clusters);
    } else if th.pc.Start? {
      StartIsFit(w, th, clusters);
    } else {
      OtherCallIsFit(w, th, clusters);
    }
  }

  lemma StartIsFit(w: World, th: Thread, clusters: Cache)
    requires ThreadInv(th) && th.pc.Start?
    ensures ThreadInv(CallStep(w, th, clusters).value.thread)
  {
  }

  lemma OtherCallIsFit(w: World, th: Thread, clusters: Cache)
    requires ThreadInv(th) && (th.pc.HasRead? || th.pc.WantReread? || th.pc.Reread?)
    ensures ThreadInv(CallStep(w, th, clusters).value.thread)
  {
  }

  lemma ReadingIsFit(w: World, th: Thread, clusters: Cache)
    requires GoodCache(clusters) && ThreadInv(th) && (th.pc.Reading? || th.pc.Rereading?)
    ensures ThreadInv(CallStep(w, th, clusters).value.thread)
  {
  }

  lemma DecidingIsFit(w: World, th: Thread, clusters: Cache, answer: Answer)
    requires ThreadInv(th) && th.pc.Deciding? && ItemStep(w, th, clusters, answer).Some?
    ensures ThreadInv(ItemStep(w, th, clusters, answer).value.thread)
  {
    if Reusable(th.pc.cached, th.pc.config) {
      DecisionIsFit(th, th.pc.config, th.pc.cached.value.client);
    } else if answer.client.Success? {
      DecisionIsFit(th, th.pc.config, Some(answer.client.value));
    }
  }

  lemma FetchIsFit(w: World, th: Thread, clusters: Cache, answer: Answer)
    requires ThreadInv(th) && (th.pc.Listing? || th.pc.NextItem?) && ItemStep(w, th, clusters, answer).Some?
    ensures ThreadInv(ItemStep(w, th, clusters, answer).value.thread)
  {
  }

  lemma ItemStepIsFit(w: World, th: Thread, clusters: Cache, answer: Answer)
    requires GoodCache(clusters) && ThreadInv(th) && ItemStep(w, th, clusters, answer).Some?
    ensures ThreadInv(ItemStep(w, th, clusters, answer).value.thread)
  {
    if th.pc.Deciding? {
      DecidingIsFit(w, th, clusters, answer);
    } else if th.pc.Listing? || th.pc.NextItem? {
      FetchIsFit(w, th, clusters, answer);
    } else {
      PeekIsFit(w, th, clusters, answer);
    }
  }

  lemma PeekIsFit(w: World, th: Thread, clusters: Cache, answer: Answer)
    requires GoodCache(clusters) && ThreadInv(th) && (th.pc.WantPeek? || th.pc.Peeking? || th.pc.Peeked?)
    ensures ThreadInv(ItemStep(w, th, clusters, answer).value.thread)
  {
  }

  lemma WriteStepIsFit(th: Thread, clusters: Cache)
    requires GoodCache(clusters) && ThreadInv(th) && WriteStep(th, clusters).Some?
    ensures ThreadInv(WriteStep(th, clusters).value.thread) && GoodCache(WriteStep(th, clusters).value.clusters)
  {
    if th.pc.Writing? {
      WriteIsFit(clusters, th.pc.write);
    }
  }

  /** A step leaves fit what was fit. */
  lemma StepKeepsFit(w: World, th: Thread, clusters: Cache, answer: Answer)
    requires GoodCache(clusters) && ThreadInv(th) && Local(w, th, clusters, answer).Some?
    ensures var o := Local(w, th, clusters, answer).value; GoodCache(o.clusters) && ThreadInv(o.thread)
  {
    OpMatchesPc(w, th, clusters, answer);
    if AddsItems(th.pc) {
      ItemStepIsFit(w, th, clusters, answer);
    } else if Writes(th.pc) {
      WriteStepIsFit(th, clusters);
    } else {
      CallStepIsFit(w, th, clusters);
    }
  }

  /** Every state of every interleaving satisfies the invariant. */
  lemma {:induction false} InvariantOverEveryRun(w: World, states: seq<State>, moves: seq<Move>, i: nat)
    requires IsRun(w, states, moves) && i < |states|
    ensures Inv(states[i])
  {
    if i > 0 {
      InvariantOverEveryRun(w, states, moves, i - 1);
      RunStep(w, states, moves, i - 1);
      StepKeepsLock(w, states[i - 1], moves[i - 1].tid, moves[i - 1].answer);
      StepKeepsFit(w, states[i - 1].threads[moves[i - 1].tid], states[i - 1].clusters, moves[i - 1].answer);
    }
  }

  // ----- what the invariant is worth -----

  /** Over every run: the map changes only in a step of the one thread that holds the lock exclusively, with
      no reader inside; it is read only under the lock; a step releases only what its thread holds; and a
      thread that may have to wait holds nothing. */
  lemma AccessOnlyUnderTheLock(w: World, states: seq<State>, moves: seq<Move>, i: nat)
    requires IsRun(w, states, moves) && i < |moves|
    ensures var s, s', t := states[i], states[i + 1], moves[i].tid;
            var pc := s.threads[t].pc;
            && (s'.clusters != s.clusters ==> s.lock.writer == Some(t) && s.lock.readers == {})
            && (pc.Reading? || pc.Peeking? || pc.Rereading? ==> t in s.lock.readers && s.lock.writer.None?)
            && s.lock.readers - s'.lock.readers <= {t} && s'.lock.readers - s.lock.readers <= {t}
            && (s.lock.writer.Some? && s'.lock.writer != s.lock.writer ==> s.lock.writer == Some(t) && s'.lock.writer.None?)
            && (Waits(s.threads[t]) ==> t !in s.lock.readers && s.lock.writer != Some(t))
            && (s'.threads[t].pc.Done? ==> t !in s'.lock.readers && s'.lock.writer != Some(t) && s'.lock.announced != Some(t))
  {
    InvariantOverEveryRun(w, states, moves, i);
    InvariantOverEveryRun(w, states, moves, i + 1);
    RunStep(w, states, moves, i);
    OpMatchesPc(w, states[i].threads[moves[i].tid], states[i].clusters, moves[i].answer);
  }

  /** Over every run: each entry of the map sits under its own name, has an operator namespace, and holds a
      client built from a rest config equal to its own; so does each entry a caller is handed, a look-up
      returns an entry of the name asked for or none, and no call refreshes twice. */
  lemma EntriesAreAlwaysGood(w: World, states: seq<State>, moves: seq<Move>, i: nat, t: Tid)
    requires IsRun(w, states, moves) && i < |states| && t < |states[i].threads|
    ensures GoodCache(states[i].clusters) && GoodCache(states[i].threads[t].result)
    ensures states[i].threads[t].task.LookUp? ==> states[i].threads[t].result.Keys <= {states[i].threads[t].task.name}
    ensures states[i].threads[t].refreshes <= 1
  {
    InvariantOverEveryRun(w, states, moves, i);
    assert ThreadInv(states[i].threads[t]);
  }

  ghost predicate AllDone(s: State) {
    forall t :: 0 <= t < |s.threads| ==> s.threads[t].pc.Done?
  }

  /** A thread that does not wait can step, given a fitting answer. */
  lemma AThreadSteps(w: World, s: State, t: Tid) returns (answer: Answer)
    requires t < |s.threads| && Inv(s) && !s.threads[t].pc.Done?
    requires Waits(s.threads[t]) && !s.threads[t].pc.Announced? ==> Open(s.lock)
    requires s.threads[t].pc.Announced? ==> s.lock.readers == {}
    ensures Step(w, s, t, answer).Some? && (answer.Resources? ==> answer.items == [])
  {
    assert ThreadInv(s.threads[t]);
    var pc := s.threads[t].pc;
    answer := match pc
      case Listing => Resources([])
      case NextItem => Loaded(Failure(""))
      case Deciding(_, _) => Built(Failure(""))
      case _ => Nothing;
    OpMatchesPc(w, s.threads[t], s.clusters, answer);
  }

  /** The thread has announced its write and some thread is reading, or it is to read or to announce a write and some
      thread has announced one or is writing. */
  ghost predicate HeldBack(threads: seq<Thread>, t: Tid)
    requires t < |threads|
  {
    if threads[t].pc.Announced? then exists u :: 0 <= u < |threads| && HoldsRead(threads[u].pc)
    else Waits(threads[t]) && exists u :: 0 <= u < |threads| && (threads[u].pc.Announced? || HoldsWrite(threads[u].pc))
  }

  /** Which threads wait: in every reachable state an unfinished thread can step, given some answer, if and only if it
      is not held back. So readers never wait for readers, and new ones do not overtake an announced writer. */
  lemma WaitsExactly(w: World, states: seq<State>, moves: seq<Move>, i: nat, t: Tid)
    requires IsRun(w, states, moves) && i < |states| && t < |states[i].threads| && !states[i].threads[t].pc.Done?
    ensures (exists answer :: Step(w, states[i], t, answer).Some?) <==> !HeldBack(states[i].threads, t)
  {
    var s := states[i];
    InvariantOverEveryRun(w, states, moves, i);
    LockByThreads(s.lock, s.threads);
    if HeldBack(s.threads, t) {
      forall answer ensures Step(w, s, t, answer).None? {
        NoStepWhileHeldBack(w, s, t, answer);
      }
    } else {
      var answer := AThreadSteps(w, s, t);
    }
  }

  lemma LockByThreads(lock: RWMutex, threads: seq<Thread>)
    requires LockInv(lock, threads)
    ensures lock.readers == {} <==> forall u :: 0 <= u < |threads| ==> !HoldsRead(threads[u].pc)
    ensures Open(lock) <==> forall u :: 0 <= u < |threads| ==> !threads[u].pc.Announced? && !HoldsWrite(threads[u].pc)
  {
  }

  lemma NoStepWhileHeldBack(w: World, s: State, t: Tid, answer: Answer)
    requires t < |s.threads| && LockInv(s.lock, s.threads) && HeldBack(s.threads, t)
    ensures Step(w, s, t, answer).None?
  {
    LockByThreads(s.lock, s.threads);
    if Local(w, s.threads[t], s.clusters, answer).Some? {
      OpMatchesPc(w, s.threads[t], s.clusters, answer);
    }
  }

  /** No interleaving deadlocks: in every reachable state in which some thread is unfinished, some thread can
      step. */
  lemma SomeThreadCanStep(w: World, states: seq<State>, moves: seq<Move>) returns (t: Tid, answer: Answer)
    requires IsRun(w, states, moves) && !AllDone(states[|moves|])
    ensures t < |states[|moves|].threads| && Step(w, states[|moves|], t, answer).Some?
  {
    var s := states[|moves|];
    InvariantOverEveryRun(w, states, moves, |moves|);
    if s.lock.writer.Some? {
      t := s.lock.writer.value;
    } else if s.lock.readers != {} {
      t :| t in s.lock.readers;
    } else if s.lock.announced.Some? {
      t := s.lock.announced.value;
    } else {
      t :| t < |s.threads| && !s.threads[t].pc.Done?;
    }
    answer := AThreadSteps(w, s, t);
  }

  // ----- every run ends -----

  /** Steps a thread can still take, at most. */
  function Work(w: World, th: Thread): nat {
    var more := 10 * if th.todo == [] then 0 else |th.todo| - 1;
    match th.pc
    case Start => 20 + 10 * w.listLimit
    case Reading => 7 + 10 * w.listLimit
    case HasRead(_) => 6 + 10 * w.listLimit
    case Listing => 5 + 10 * w.listLimit
    case NextItem => 4 + 10 * |th.todo|
    case WantPeek(_) => 13 + more
    case Peeking(_) => 12 + more
    case Peeked(_, _) => 11 + more
    case Deciding(_, _) => 10 + more
    case WantWrite(_) => 9 + more
    case Announced(_) => 8 + more
    case Writing(_) => 7 + more
    case Written => 6 + more
    case WantReread => 3
    case Rereading => 2
    case Reread => 1
    case Done => 0
  }

  function TotalWork(w: World, threads: seq<Thread>): nat {
    if threads == [] then 0 else Work(w, threads[0]) + TotalWork(w, threads[1..])
  }

  lemma {:induction false} WorkOfOne(w: World, threads: seq<Thread>, t: Tid, thread: Thread)
    requires t < |threads|
    ensures TotalWork(w, threads[t := thread]) - Work(w, thread) == TotalWork(w, threads) - Work(w, threads[t])
  {
    if t > 0 {
      WorkOfOne(w, threads[1..], t - 1, thread);
      assert threads[t := thread][1..] == threads[1..][t - 1 := thread];
    } else {
      assert threads[t := thread][1..] == threads[1..];
    }
  }

  lemma CallStepDoesWork(w: World, th: Thread, clusters: Cache)
    requires ThreadInv(th) && CallStep(w, th, clusters).Some?
    ensures Work(w, CallStep(w, th, clusters).value.thread) < Work(w, th)
  {
  }

  lemma ItemStepDoesWork(w: World, th: Thread, clusters: Cache, answer: Answer)
    requires ThreadInv(th) && ItemStep(w, th, clusters, answer).Some?
    ensures Work(w, ItemStep(w, th, clusters, answer).value.thread) < Work(w, th)
  {
    if th.pc.Listing? || th.pc.NextItem? {
      FetchDoesWork(w, th, clusters, answer);
    } else if th.pc.Deciding? {
      DecidingDoesWork(w, th, clusters, answer);
    }
  }

  lemma FetchDoesWork(w: World, th: Thread, clusters: Cache, answer: Answer)
    requires ThreadInv(th) && (th.pc.Listing? || th.pc.NextItem?) && ItemStep(w, th, clusters, answer).Some?
    ensures Work(w, ItemStep(w, th, clusters, answer).value.thread) < Work(w, th)
  {
  }

  lemma DecidingDoesWork(w: World, th: Thread, clusters: Cache, answer: Answer)
    requires ThreadInv(th) && th.pc.Deciding? && ItemStep(w, th, clusters, answer).Some?
    ensures Work(w, ItemStep(w, th, clusters, answer).value.thread) < Work(w, th)
  {
    var config := th.pc.config;
    DecidedDoesWork(w, th, config, if Reusable(th.pc.cached, config) then th.pc.cached.value.client else None);
    if answer.Built? && answer.client.Success? {
      DecidedDoesWork(w, th, config, Some(answer.client.value));
    }
  }

  lemma DecidedDoesWork(w: World, th: Thread, config: Config, client: Option<Client>)
    requires th.todo != [] && th.pc.Deciding?
    ensures Work(w, AfterDeciding(th, config, client)) < Work(w, th) && Work(w, ItemDone(th)) < Work(w, th)
  {
  }

  lemma WriteStepDoesWork(w: World, th: Thread, clusters: Cache)
    requires WriteStep(th, clusters).Some?
    ensures Work(w, WriteStep(th, clusters).value.thread) < Work(w, th)
  {
  }

  lemma StepDoesWork(w: World, s: State, t: Tid, answer: Answer)
    requires t < |s.threads| && ThreadInv(s.threads[t]) && Step(w, s, t, answer).Some?
    ensures TotalWork(w, Step(w, s, t, answer).value.threads) < TotalWork(w, s.threads)
  {
    var th := s.threads[t];
    if AddsItems(th.pc) {
      ItemStepDoesWork(w, th, s.clusters, answer);
    } else if Writes(th.pc) {
      WriteStepDoesWork(w, th, s.clusters);
    } else {
      CallStepDoesWork(w, th, s.clusters);
    }
    WorkOfOne(w, s.threads, t, Local(w, s.threads[t], s.clusters, answer).value.thread);
  }

  /** No run is longer than the work its threads start with, so every run can only be extended to one in
      which all threads are done and the lock is free. */
  lemma EveryRunEnds(w: World, states: seq<State>, moves: seq<Move>)
    requires IsRun(w, states, moves)
    ensures |moves| + TotalWork(w, states[|moves|].threads) <= TotalWork(w, states[0].threads)
    ensures (forall t: Tid, answer :: t < |states[|moves|].threads| ==> Step(w, states[|moves|], t, answer).None?)
            ==> AllDone(states[|moves|]) && states[|moves|].lock == RWMutex({}, None, None)
  {
    RunsDoWork(w, states, moves);
    InvariantOverEveryRun(w, states, moves, |moves|);
    if !AllDone(states[|moves|]) {
      var t, answer := SomeThreadCanStep(w, states, moves);
    }
  }

  lemma {:induction false} RunsDoWork(w: World, states: seq<State>, moves: seq<Move>)
    requires IsRun(w, states, moves)
    ensures |moves| + TotalWork(w, states[|moves|].threads) <= TotalWork(w, states[0].threads)
  {
    var n := |moves|;
    if n > 0 {
      RunsDoWork(w, states[..n], moves[..n - 1]);
      InvariantOverEveryRun(w, states, moves, n - 1);
      RunStep(w, states, moves, n - 1);
      StepDoesWork(w, states[n - 1], moves[n - 1].tid, moves[n - 1].answer);
    }
  }
}
