/**
  A MapReduce cluster as a state machine: the coordinator's tables, the workers' progress
  through their tasks, the intermediate files and the output files
  (src/mr/coordinator.go, src/mr/worker.go).

  Each locked section of the coordinator is one step, so `MapDone` and the section of
  `AssignTask` that follows it can be interleaved with anything.  A worker appends to one
  partition file, and reads one source file, per step.  Machines can be marked dead at any time.
 */
module Cluster {
  import opened Linearizability
  import opened Pairs
  import opened Coordinator
  import opened Sorting

  datatype Job = Job(files: seq<(string, string)>, mapf: (string, string) -> seq<KeyValue>,
                     hash: string -> nat, nReduce: nat, reducef: Reducer)

  function MapOut(job: Job, t: nat): seq<KeyValue>
    requires t < |job.files|
  {
    job.mapf(job.files[t].0, job.files[t].1)
  }

  /** What map task `t` contributes to reduce task `r`. */
  function Part(job: Job, t: nat, r: nat): seq<KeyValue>
    requires t < |job.files| && job.nReduce > 0
  {
    PartOf(MapOut(job, t), job.hash, job.nReduce, r)
  }

  datatype Worker =
    | Resting
    | Asked(mapDone: bool, sources: seq<nat>)                                // inside AssignTask, after MapDone
    | Mapping(task: nat, written: nat)                                       // partitions below `written` are appended
    | Reducing(task: nat, sources: seq<nat>, read: nat, acc: seq<KeyValue>)  // sources before `read` are in `acc`
    | Reduced(task: nat)                                                     // output file written
    | Crashed                                                                // a file could not be opened

  datatype State = State(c: Tables, workers: seq<Worker>, files: map<(nat, nat), seq<KeyValue>>,
                         outs: map<nat, seq<Line>>,
                         saw: bool)  // some MapDone has answered true

  datatype Event =
    | Register
    | Ask(w: nat, sources: seq<nat>)
    | GetMap(w: nat, reply: Option<nat>)
    | GetReduce(w: nat, reply: Option<nat>)
    | Write(w: nat)
    | FinishMap(w: nat)
    | Read(w: nat)
    | Emit(w: nat, sorted: seq<KeyValue>, lines: seq<Line>)
    | FinishReduce(w: nat)
    | Die(w: nat)

  /** The worker list travels as JSON but is decoded into a byte slice that is used again and
      again: a number that does not fit leaves the byte that happens to be there. */
  ghost predicate Decodes(sources: seq<nat>, got: seq<nat>) {
    && |got| == |sources|
    && forall i | 0 <= i < |got| :: got[i] < 256 && (sources[i] < 256 ==> got[i] == sources[i])
  }

  predicate FitBytes(sources: seq<nat>) {
    forall i | 0 <= i < |sources| :: sources[i] < 256
  }

  /** The list survives, whatever was in the slice, exactly when all numbers fit. */
  lemma DecodesExactly(sources: seq<nat>, got: seq<nat>)
    requires Decodes(sources, got)
    ensures got == sources <==> FitBytes(sources)
  {
  }

  /** What the worker sees as its sources after a reduce task was handed out. */
  function SourcesOf(s: State, w: nat): seq<nat> {
    if w < |s.workers| && s.workers[w].Reducing? then s.workers[w].sources else []
  }

  function Init(job: Job): State {
    State(Tables(seq(|job.files|, _ => Task(Idle, 0)), seq(job.nReduce, _ => Task(Idle, 0)), []), [], map[], map[],
          false)
  }

  /** The worker whose step it is. */
  function Actor(e: Event): Option<nat> {
    match e
    case Ask(w, _) => Some(w)
    case Write(w) => Some(w)
    case FinishMap(w) => Some(w)
    case Read(w) => Some(w)
    case Emit(w, _, _) => Some(w)
    case FinishReduce(w) => Some(w)
    case _ => None
  }

  function SetWorker(s: State, w: nat, x: Worker): State
    requires w < |s.workers|
  {
    s.(workers := s.workers[w := x])
  }

  function Appended(files: map<(nat, nat), seq<KeyValue>>, w: nat, r: nat,
                    kvs: seq<KeyValue>): map<(nat, nat), seq<KeyValue>> {
    files[(w, r) := (if (w, r) in files then files[(w, r)] else []) + kvs]
  }

  ghost predicate Step(job: Job, s: State, e: Event, s': State) {
    && job.nReduce > 0 && |s.c.tasks| == |job.files| && |s.workers| == |s.c.alive|
    && match e
       case Register =>
         s' == s.(c := s.c.(alive := s.c.alive + [true]), workers := s.workers + [Resting])
       case Ask(w, sources) =>
         && w < |s.workers| && s.workers[w].Resting?
         && if MapComplete(s.c)
            then ListsWorkers(s.c, sources) && s' == SetWorker(s, w, Asked(true, sources)).(saw := true)
            else s' == SetWorker(s, w, Asked(false, []))
       case GetMap(w, reply) =>
         && w < |s.workers| && s.workers[w].Asked? && !s.workers[w].mapDone
         && AssignsMap(s.c, w, reply, s'.c)
         && s' == SetWorker(s, w, if reply.None? then Resting else Mapping(reply.value, 0)).(c := s'.c)
       case GetReduce(w, reply) =>
         && w < |s.workers| && s.workers[w].Asked? && s.workers[w].mapDone
         && AssignsReduce(s.c, w, reply, s'.c)
         && (reply.Some? ==> Decodes(s.workers[w].sources, SourcesOf(s', w)))
         && var x := if reply.None? then Resting else Reducing(reply.value, SourcesOf(s', w), 0, []);
            s' == SetWorker(s, w, x).(c := s'.c)
       case Write(w) =>
         && w < |s.workers| && s.workers[w].Mapping? && s.workers[w].written < job.nReduce
         && s.workers[w].task < |job.files|
         && var t, k := s.workers[w].task, s.workers[w].written;
            s' == SetWorker(s, w, Mapping(t, k + 1)).(files := Appended(s.files, w, k, Part(job, t, k)))
       case FinishMap(w) =>
         && w < |s.workers| && s.workers[w].Mapping? && s.workers[w].written == job.nReduce
         && s.workers[w].task < |s.c.tasks|
         && s' == SetWorker(s, w, Resting).(c := Complete(s.c, w, Map, s.workers[w].task))
       case Read(w) =>
         && w < |s.workers| && s.workers[w].Reducing? && s.workers[w].read < |s.workers[w].sources|
         && var Reducing(r, sources, i, acc) := s.workers[w];
            var file := (sources[i], r);
            s' == SetWorker(s, w, if file in s.files then Reducing(r, sources, i + 1, acc + s.files[file]) else Crashed)
       case Emit(w, sorted, lines) =>
         && w < |s.workers| && s.workers[w].Reducing? && s.workers[w].read >= |s.workers[w].sources|
         && multiset(sorted) == multiset(s.workers[w].acc) && Sorted(sorted, ByKey)
         && IsReduction(sorted, job.reducef, lines)
         && s' == SetWorker(s, w, Reduced(s.workers[w].task)).(outs := s.outs[s.workers[w].task := lines])
       case FinishReduce(w) =>
         && w < |s.workers| && s.workers[w].Reduced? && s.workers[w].task < |s.c.rtasks|
         && s' == SetWorker(s, w, Resting).(c := Complete(s.c, w, Reduce, s.workers[w].task))
       case Die(w) =>
         && w < |s.c.alive|
         && s' == s.(c := s.c.(alive := s.c.alive[w := false]))
  }

  /** No machine takes a step of its own once it has been marked dead. */
  predicate FailStop(s: State, e: Event) {
    var a := Actor(e);
    a.Some? ==> a.value < |s.c.alive| && s.c.alive[a.value]
  }

  /** A reduce task is handed out with worker numbers that fit a byte each. */
  predicate SourcesFit(s: State, e: Event) {
    e.GetReduce? && e.reply.Some? && e.w < |s.workers| && s.workers[e.w].Asked? ==> FitBytes(s.workers[e.w].sources)
  }

  ghost predicate IsRun(job: Job, run: seq<State>, events: seq<Event>) {
    && |run| == |events| + 1 && run[0] == Init(job)
    && forall k: nat | k < |events| :: Step(job, run[k], events[k], run[k + 1])
  }

  ghost predicate FailStopRun(job: Job, run: seq<State>, events: seq<Event>) {
    IsRun(job, run, events) && forall k: nat | k < |events| :: FailStop(run[k], events[k])
  }

  // ---------- well-formed states ----------

  predicate GoodWorker(job: Job, x: Worker) {
    match x
    case Mapping(t, k) => t < |job.files| && k <= job.nReduce
    case Reducing(r, sources, i, _) => r < job.nReduce && i <= |sources|
    case Reduced(r) => r < job.nReduce
    case _ => true
  }

  ghost predicate Good(job: Job, s: State) {
    && |s.c.tasks| == |job.files| && |s.c.rtasks| == job.nReduce && |s.workers| == |s.c.alive| && Valid(s.c)
    && (forall w: nat | w < |s.workers| :: GoodWorker(job, s.workers[w]))
    && (forall p | p in s.files :: p.0 < |s.workers| && p.1 < job.nReduce)
  }

  /** Steps of the coordinator alone. */
  predicate TableEvent(e: Event) {
    e.Register? || e.Ask? || e.GetMap? || e.GetReduce? || e.Die?
  }

  lemma TableStepGood(job: Job, s: State, e: Event, s': State)
    requires Good(job, s) && Step(job, s, e, s') && TableEvent(e)
    ensures Good(job, s')
  {
    assert s'.files == s.files;
  }

  lemma WorkerStepGood(job: Job, s: State, e: Event, s': State)
    requires Good(job, s) && Step(job, s, e, s') && !TableEvent(e)
    ensures Good(job, s')
  {
  }

  lemma StepGood(job: Job, s: State, e: Event, s': State)
    requires Good(job, s) && Step(job, s, e, s')
    ensures Good(job, s')
  {
    if TableEvent(e) {
      TableStepGood(job, s, e, s');
    } else {
      WorkerStepGood(job, s, e, s');
    }
  }

  lemma {:induction false} RunGood(job: Job, run: seq<State>, events: seq<Event>, k: nat)
    requires IsRun(job, run, events) && k < |run|
    ensures Good(job, run[k])
  {
    if k > 0 {
      RunGood(job, run, events, k - 1);
      StepGood(job, run[k - 1], events[k - 1], run[k - 1 + 1]);
    }
  }

  // ---------- what holds in every run, whatever dies and whoever talks after death ----------

  /** Reduce work exists only after some `MapDone` has answered true. */
  ghost predicate ReduceAfterMap(s: State) {
    && (forall r: nat | r < |s.c.rtasks| && s.c.rtasks[r].status != Idle :: s.saw)
    && (forall w: nat | w < |s.workers| && ReduceWork(s.workers[w]) :: s.saw)
  }

  predicate ReduceWork(x: Worker) {
    x.Reducing? || x.Reduced? || (x.Asked? && x.mapDone)
  }

  lemma StepReduceAfterMap(job: Job, s: State, e: Event, s': State)
    requires Good(job, s) && ReduceAfterMap(s) && Step(job, s, e, s')
    ensures ReduceAfterMap(s')
    ensures s'.saw && !s.saw ==> e.Ask? && MapComplete(s.c)
  {
  }

  lemma {:induction false} RunReduceAfterMap(job: Job, run: seq<State>, events: seq<Event>, k: nat)
    requires IsRun(job, run, events) && k < |run|
    ensures ReduceAfterMap(run[k])
    ensures run[k].saw ==> exists j: nat :: j < k && events[j].Ask? && MapComplete(run[j].c)
  {
    if k > 0 {
      RunReduceAfterMap(job, run, events, k - 1);
      RunGood(job, run, events, k - 1);
      StepReduceAfterMap(job, run[k - 1], events[k - 1], run[k - 1 + 1]);
      if run[k].saw {
        if run[k - 1].saw {
          var j: nat :| j < k - 1 && events[j].Ask? && MapComplete(run[j].c);
        } else {
          assert events[k - 1].Ask? && MapComplete(run[k - 1].c);
        }
      }
    }
  }

  /** No reduce task leaves idle before some MapDone check saw every map task completed by a live machine. */
  lemma ReduceWaitsForMap(job: Job, run: seq<State>, events: seq<Event>, k: nat, r: nat)
    requires IsRun(job, run, events) && k < |run| && r < |run[k].c.rtasks| && run[k].c.rtasks[r].status != Idle
    ensures exists j: nat :: j < k && events[j].Ask? && MapComplete(run[j].c)
  {
    RunReduceAfterMap(job, run, events, k);
  }

  /** Completed reduce tasks stay completed. */
  ghost predicate KeepsCompleted(c: Tables, c': Tables) {
    && |c'.rtasks| == |c.rtasks|
    && forall r: nat | r < |c.rtasks| && c.rtasks[r].status == Completed :: c'.rtasks[r].status == Completed
  }

  lemma StepKeepsCompleted(job: Job, s: State, e: Event, s': State)
    requires Good(job, s) && Step(job, s, e, s')
    ensures KeepsCompleted(s.c, s'.c)
  {
  }

  lemma {:induction false} KeptCompleted(run: seq<State>, j: nat, k: nat)
    requires forall i: nat | i < |run| - 1 :: KeepsCompleted(run[i].c, run[i + 1].c)
    requires j <= k < |run|
    ensures KeepsCompleted(run[j].c, run[k].c)
    decreases k
  {
    if j < k {
      KeptCompleted(run, j, k - 1);
      assert KeepsCompleted(run[k - 1].c, run[k - 1 + 1].c);
    }
  }

  /** A completed reduce task stays completed, and so does the job. */
  lemma CompletedForever(job: Job, run: seq<State>, events: seq<Event>, j: nat, k: nat)
    requires IsRun(job, run, events) && j <= k < |run|
    ensures KeepsCompleted(run[j].c, run[k].c)
    ensures ReduceComplete(run[j].c) ==> ReduceComplete(run[k].c)
  {
    forall i: nat | i < |run| - 1 ensures KeepsCompleted(run[i].c, run[i + 1].c) {
      RunGood(job, run, events, i);
      StepKeepsCompleted(job, run[i], events[i], run[i + 1]);
    }
    KeptCompleted(run, j, k);
  }
}
