/**
  Map output counts exactly once as long as no map report takes a task with output away from
  another live machine: whenever `MapDone` answers true, the files of the workers it lists hold, taken
  together, each map task's output once in every partition
  (src/mr/coordinator.go: AssignTask, MapDone, CompleteTask; src/mr/worker.go: saveIntermediate).
 */
module ExactlyOnce {
  import opened Linearizability
  import opened Pairs
  import opened Coordinator
  import opened Cluster

  /** The sum of those of the first `m` parts whose number is in `done`. */
  ghost function Sum<T>(parts: seq<multiset<T>>, done: set<nat>, m: nat): multiset<T>
    requires m <= |parts|
  {
    if m == 0 then multiset{} else Sum(parts, done, m - 1) + (if m - 1 in done then parts[m - 1] else multiset{})
  }

  lemma {:induction false} SumUnion<T>(parts: seq<multiset<T>>, a: set<nat>, b: set<nat>, m: nat)
    requires m <= |parts| && a !! b
    ensures Sum(parts, a + b, m) == Sum(parts, a, m) + Sum(parts, b, m)
  {
    if m > 0 {
      SumUnion(parts, a, b, m - 1);
    }
  }

  lemma {:induction false} SumNone<T>(parts: seq<multiset<T>>, m: nat)
    requires m <= |parts|
    ensures Sum(parts, {}, m) == multiset{}
  {
    if m > 0 {
      SumNone(parts, m - 1);
    }
  }

  lemma {:induction false} SumOne<T>(parts: seq<multiset<T>>, t: nat, m: nat)
    requires m <= |parts| && t < m
    ensures Sum(parts, {t}, m) == parts[t]
  {
    if t < m - 1 {
      SumOne(parts, t, m - 1);
    } else {
      SumBeyond(parts, t, m - 1);
    }
  }

  lemma {:induction false} SumBeyond<T>(parts: seq<multiset<T>>, t: nat, m: nat)
    requires m <= |parts| && m <= t
    ensures Sum(parts, {t}, m) == multiset{}
  {
    if m > 0 {
      SumBeyond(parts, t, m - 1);
    }
  }

  lemma SumAdd<T>(parts: seq<multiset<T>>, done: set<nat>, t: nat)
    requires t !in done && t < |parts|
    ensures Sum(parts, done + {t}, |parts|) == Sum(parts, done, |parts|) + parts[t]
  {
    SumUnion(parts, done, {t}, |parts|);
    SumOne(parts, t, |parts|);
  }

  /** Parts that are empty do not matter. */
  lemma {:induction false} SumAgrees<T>(parts: seq<multiset<T>>, a: set<nat>, b: set<nat>, m: nat)
    requires m <= |parts| && forall t: nat | t < m && parts[t] != multiset{} :: t in a <==> t in b
    ensures Sum(parts, a, m) == Sum(parts, b, m)
  {
    if m > 0 {
      SumAgrees(parts, a, b, m - 1);
    }
  }

  /** What each map task contributes to partition `r`. */
  ghost function Parts(job: Job, r: nat): (parts: seq<multiset<KeyValue>>)
    requires job.nReduce > 0
    ensures |parts| == |job.files|
    ensures forall t: nat | t < |job.files| :: parts[t] == multiset(Part(job, t, r))
  {
    seq(|job.files|, t requires 0 <= t < |job.files| => multiset(Part(job, t, r)))
  }

  /** What worker `w` has in its file for partition `r`. */
  ghost function Bag(files: map<(nat, nat), seq<KeyValue>>, w: nat, r: nat): multiset<KeyValue> {
    if (w, r) in files then multiset(files[(w, r)]) else multiset{}
  }

  /** Worker `w` has written its share of task `t` to partition `r`. */
  ghost predicate Wrote(s: State, w: nat, t: nat, r: nat)
    requires w < |s.workers| && t < |s.c.tasks|
  {
    || s.c.tasks[t] == Task(Completed, w)
    || (s.workers[w].Mapping? && s.workers[w].task == t && r < s.workers[w].written)
  }

  ghost function WroteSet(s: State, w: nat, r: nat): set<nat>
    requires w < |s.workers|
  {
    set t: nat | t < |s.c.tasks| && Wrote(s, w, t, r)
  }

  /** While a worker maps a task it is not credited with that task. */
  ghost predicate NotCredited(s: State, w: nat)
    requires w < |s.workers|
  {
    s.workers[w].Mapping? ==>
      s.workers[w].task < |s.c.tasks| && s.c.tasks[s.workers[w].task] != Task(Completed, w)
  }

  /** The map function returned something for task `t`. */
  predicate Productive(job: Job, t: nat) {
    t < |job.files| && MapOut(job, t) != []
  }

  /** A live worker that maps a task with output owns it. */
  ghost predicate Owns(job: Job, s: State, w: nat)
    requires w < |s.workers|
  {
    s.workers[w].Mapping? && Productive(job, s.workers[w].task) ==>
      s.workers[w].task < |s.c.tasks| && s.c.tasks[s.workers[w].task] == Task(Processing, w)
  }

  ghost predicate FileHolds(job: Job, s: State, w: nat, r: nat)
    requires job.nReduce > 0 && w < |s.workers|
  {
    Bag(s.files, w, r) == Sum(Parts(job, r), WroteSet(s, w, r), |job.files|)
  }

  /** Every partition a worker has written to has its file. */
  ghost predicate FileExists(job: Job, s: State, w: nat, r: nat)
    requires w < |s.workers|
  {
    WroteSet(s, w, r) != {} ==> (w, r) in s.files
  }

  ghost predicate WorkerInv(job: Job, s: State, w: nat)
    requires job.nReduce > 0 && w < |s.workers|
  {
    && NotCredited(s, w) && Owns(job, s, w)
    && forall r: nat | r < job.nReduce :: FileHolds(job, s, w, r) && FileExists(job, s, w, r)
  }

  /** A map task that a live worker has is the one that worker is mapping. */
  ghost predicate IsMapped(s: State, t: nat)
    requires t < |s.c.tasks|
  {
    var v := s.c.tasks[t].worker;
    s.c.tasks[t].status == Processing && OnLive(s.c, s.c.tasks[t]) && v < |s.workers| ==>
      s.workers[v].Mapping? && s.workers[v].task == t
  }

  /** What holds of the live workers and their tasks. */
  ghost predicate Inv(job: Job, s: State) {
    && Good(job, s) && job.nReduce > 0
    && (forall w: nat | w < |s.workers| && s.c.alive[w] :: WorkerInv(job, s, w))
    && (forall t: nat | t < |s.c.tasks| :: IsMapped(s, t))
  }

  /** A map report that takes a task with output which another live machine has or has done;
      CompleteTask does not look. */
  predicate Takeover(job: Job, s: State, e: Event) {
    && e.FinishMap? && e.w < |s.workers| && s.workers[e.w].Mapping?
    && var t := s.workers[e.w].task;
       t < |s.c.tasks| && !MapFree(s.c, t) && s.c.tasks[t].worker != e.w && Productive(job, t)
  }

  /** A task whose map function returned something contributes to some partition, and only then. */
  lemma SomePart(job: Job, t: nat)
    requires t < |job.files| && job.nReduce > 0
    ensures MapOut(job, t) == [] <==> forall r: nat | r < job.nReduce :: Part(job, t, r) == []
  {
    var kvs := MapOut(job, t);
    if kvs != [] {
      var r := job.hash(kvs[0].key) % job.nReduce;
      assert HasKey(kvs, kvs[0].key);
      PartHasKey(kvs, job.hash, job.nReduce, r, kvs[0].key);
      assert Part(job, t, r) != [];
    }
  }

  /** Only tasks with output matter for what a file should hold. */
  lemma SameSum(job: Job, r: nat, a: set<nat>, b: set<nat>)
    requires job.nReduce > 0 && r < job.nReduce && forall t: nat | Productive(job, t) :: t in a <==> t in b
    ensures Sum(Parts(job, r), a, |job.files|) == Sum(Parts(job, r), b, |job.files|)
  {
    forall t: nat | t < |job.files| && Parts(job, r)[t] != multiset{} ensures t in a <==> t in b {
      SomePart(job, t);
    }
    SumAgrees(Parts(job, r), a, b, |job.files|);
  }

  /** Nothing that matters for worker `w` changed. */
  lemma SameWorker(job: Job, s: State, s': State, w: nat)
    requires job.nReduce > 0 && w < |s.workers| && w < |s'.workers| && WorkerInv(job, s, w)
    requires s'.workers[w] == s.workers[w] || (!s.workers[w].Mapping? && !s'.workers[w].Mapping?)
    requires |s'.c.tasks| == |s.c.tasks|
    requires forall t: nat | t < |s.c.tasks| && s'.c.tasks[t] != s.c.tasks[t] ::
      s.c.tasks[t].worker != w && s'.c.tasks[t].worker != w
    requires forall r: nat | r < job.nReduce :: (w, r) in s'.files <==> (w, r) in s.files
    requires forall r: nat | r < job.nReduce && (w, r) in s.files :: s'.files[(w, r)] == s.files[(w, r)]
    ensures WorkerInv(job, s', w)
  {
    forall r: nat | r < job.nReduce ensures FileHolds(job, s', w, r) && FileExists(job, s', w, r) {
      assert FileHolds(job, s, w, r) && FileExists(job, s, w, r);
      assert WroteSet(s', w, r) == WroteSet(s, w, r);
    }
  }

  // ---------- every step keeps the invariant ----------

  /** Workers other than the one that moves, when no task changes hands. */
  lemma OthersSame(job: Job, s: State, s': State, w: nat)
    requires Inv(job, s) && w < |s.workers| && |s'.workers| >= |s.workers|
    requires forall v: nat | v < |s.workers| && v != w :: s'.workers[v] == s.workers[v]
    requires |s'.c.tasks| == |s.c.tasks|
    requires forall t: nat | t < |s.c.tasks| && s'.c.tasks[t] != s.c.tasks[t] ::
      s'.c.tasks[t].worker == w
        && (MapFree(s.c, t) || s.c.tasks[t].worker == w || !Productive(job, t))
    requires forall p | p in s.files && p.0 != w :: p in s'.files && s'.files[p] == s.files[p]
    requires forall p | p in s'.files && p.0 != w :: p in s.files
    ensures forall v: nat | v < |s.workers| && v != w && s.c.alive[v] :: WorkerInv(job, s', v)
  {
    forall v: nat | v < |s.workers| && v != w && s.c.alive[v] ensures WorkerInv(job, s', v) {
      assert WorkerInv(job, s, v);
      OtherSame(job, s, s', w, v);
    }
  }

  lemma OtherSame(job: Job, s: State, s': State, w: nat, v: nat)
    requires Good(job, s) && job.nReduce > 0 && v < |s.workers| && v != w && s.c.alive[v] && WorkerInv(job, s, v)
    requires v < |s'.workers| && s'.workers[v] == s.workers[v] && |s'.c.tasks| == |s.c.tasks|
    requires forall t: nat | t < |s.c.tasks| && s'.c.tasks[t] != s.c.tasks[t] ::
      s'.c.tasks[t].worker == w
        && (MapFree(s.c, t) || s.c.tasks[t].worker == w || !Productive(job, t))
    requires forall p | p in s.files && p.0 != w :: p in s'.files && s'.files[p] == s.files[p]
    requires forall p | p in s'.files && p.0 != w :: p in s.files
    ensures WorkerInv(job, s', v)
  {
    forall r: nat | r < job.nReduce ensures FileHolds(job, s', v, r) && FileExists(job, s', v, r) {
      assert FileHolds(job, s, v, r) && FileExists(job, s, v, r);
      assert (v, r) in s'.files <==> (v, r) in s.files;
      assert WroteSet(s', v, r) <= WroteSet(s, v, r);
      SameSum(job, r, WroteSet(s', v, r), WroteSet(s, v, r));
    }
  }

  lemma ReceiverSame(job: Job, s: State, w: nat, reply: Option<nat>, s': State, r: nat)
    requires Good(job, s) && Step(job, s, GetMap(w, reply), s') && s.c.alive[w]
    ensures WroteSet(s', w, r) == WroteSet(s, w, r)
  {
  }

  lemma TaskHandedOut(job: Job, s: State, w: nat, reply: Option<nat>, s': State)
    requires Inv(job, s) && Step(job, s, GetMap(w, reply), s')
    ensures Inv(job, s')
  {
    StepGood(job, s, GetMap(w, reply), s');
    OthersSame(job, s, s', w);
    if s.c.alive[w] {
      assert WorkerInv(job, s, w);
      forall r: nat | r < job.nReduce ensures FileHolds(job, s', w, r) && FileExists(job, s', w, r) {
        assert FileHolds(job, s, w, r) && FileExists(job, s, w, r);
        ReceiverSame(job, s, w, reply, s', r);
      }
    }
    StillMapped(job, s, GetMap(w, reply), s');
  }

  lemma AppendedBag(files: map<(nat, nat), seq<KeyValue>>, w: nat, k: nat, kvs: seq<KeyValue>, r: nat)
    ensures Bag(Appended(files, w, k, kvs), w, r) == if r == k then Bag(files, w, r) + multiset(kvs)
      else Bag(files, w, r)
  {
  }

  lemma WroteMore(job: Job, s: State, w: nat, s': State, r: nat)
    requires Good(job, s) && Step(job, s, Write(w), s') && NotCredited(s, w)
    ensures var t, k := s.workers[w].task, s.workers[w].written;
      if r == k then t !in WroteSet(s, w, r) && WroteSet(s', w, r) == WroteSet(s, w, r) + {t}
      else WroteSet(s', w, r) == WroteSet(s, w, r)
  {
  }

  lemma WriterKeeps(job: Job, s: State, w: nat, s': State, r: nat)
    requires Good(job, s) && Step(job, s, Write(w), s') && r < job.nReduce
    requires NotCredited(s, w) && FileHolds(job, s, w, r) && FileExists(job, s, w, r)
    ensures FileHolds(job, s', w, r)
  {
    var t, k := s.workers[w].task, s.workers[w].written;
    WroteMore(job, s, w, s', r);
    AppendedBag(s.files, w, k, Part(job, t, k), r);
    if r == k {
      SumAdd(Parts(job, r), WroteSet(s, w, r), t);
      assert Parts(job, r)[t] == multiset(Part(job, t, k));
    }
  }

  lemma WriterHasFile(job: Job, s: State, w: nat, s': State, r: nat)
    requires Good(job, s) && Step(job, s, Write(w), s') && r < job.nReduce
    requires NotCredited(s, w) && FileExists(job, s, w, r)
    ensures FileExists(job, s', w, r)
  {
    WroteMore(job, s, w, s', r);
  }

  lemma PartitionWritten(job: Job, s: State, w: nat, s': State)
    requires Inv(job, s) && Step(job, s, Write(w), s')
    ensures Inv(job, s')
  {
    StepGood(job, s, Write(w), s');
    OthersSame(job, s, s', w);
    if s.c.alive[w] {
      assert WorkerInv(job, s, w);
      forall r: nat | r < job.nReduce ensures FileHolds(job, s', w, r) && FileExists(job, s', w, r) {
        assert FileHolds(job, s, w, r) && FileExists(job, s, w, r);
        WriterKeeps(job, s, w, s', r);
        WriterHasFile(job, s, w, s', r);
      }
    }
    StillMapped(job, s, Write(w), s');
  }

  lemma MapReported(job: Job, s: State, w: nat, s': State)
    requires Inv(job, s) && Step(job, s, FinishMap(w), s') && !Takeover(job, s, FinishMap(w))
    ensures Inv(job, s')
  {
    StepGood(job, s, FinishMap(w), s');
    OthersSame(job, s, s', w);
    if s.c.alive[w] {
      assert WorkerInv(job, s, w);
      forall r: nat | r < job.nReduce ensures FileHolds(job, s', w, r) && FileExists(job, s', w, r) {
        assert FileHolds(job, s, w, r) && FileExists(job, s, w, r);
        assert WroteSet(s', w, r) == WroteSet(s, w, r);
      }
    }
    StillMapped(job, s, FinishMap(w), s');
  }

  lemma StillMapped(job: Job, s: State, e: Event, s': State)
    requires Inv(job, s) && Step(job, s, e, s')
    ensures forall t: nat | t < |s'.c.tasks| :: IsMapped(s', t)
  {
    forall t: nat | t < |s'.c.tasks| ensures IsMapped(s', t) {
      assert IsMapped(s, t);
      if TableEvent(e) {
        TableMapped(job, s, e, s', t);
      } else {
        WorkMapped(job, s, e, s', t);
      }
    }
  }

  lemma TableMapped(job: Job, s: State, e: Event, s': State, t: nat)
    requires Good(job, s) && Step(job, s, e, s') && TableEvent(e) && t < |s.c.tasks| && IsMapped(s, t)
    ensures |s'.c.tasks| == |s.c.tasks| && IsMapped(s', t)
  {
  }

  lemma WorkMapped(job: Job, s: State, e: Event, s': State, t: nat)
    requires Good(job, s) && Step(job, s, e, s') && !TableEvent(e) && t < |s.c.tasks| && IsMapped(s, t)
    ensures |s'.c.tasks| == |s.c.tasks| && IsMapped(s', t)
  {
  }

  lemma NewMachine(job: Job, s: State, s': State)
    requires Inv(job, s) && Step(job, s, Register, s')
    ensures Inv(job, s')
  {
    StepGood(job, s, Register, s');
    var n := |s.workers|;
    forall w: nat | w < |s'.workers| && s'.c.alive[w] ensures WorkerInv(job, s', w) {
      if w < n {
        assert WorkerInv(job, s, w);
        SameWorker(job, s, s', w);
      } else {
        forall r: nat | r < job.nReduce ensures FileHolds(job, s', w, r) && FileExists(job, s', w, r) {
          assert (w, r) !in s'.files;
          NoTasks(job, s', w, r);
          SumNone(Parts(job, r), |job.files|);
        }
      }
    }
    StillMapped(job, s, Register, s');
  }

  /** A machine that has just registered has completed nothing. */
  lemma NoTasks(job: Job, s': State, w: nat, r: nat)
    requires w < |s'.workers| && s'.workers[w].Resting?
    requires forall t: nat | t < |s'.c.tasks| :: s'.c.tasks[t].status == Completed ==> s'.c.tasks[t].worker < w
    ensures WroteSet(s', w, r) == {}
  {
  }

  /** Steps that touch neither map tasks nor intermediate files. */
  lemma OtherStep(job: Job, s: State, e: Event, s': State)
    requires Inv(job, s) && Step(job, s, e, s')
    requires e.Ask? || e.GetReduce? || e.Read? || e.Emit? || e.FinishReduce? || e.Die?
    ensures Inv(job, s')
  {
    StepGood(job, s, e, s');
    forall w: nat | w < |s'.workers| && s'.c.alive[w] ensures WorkerInv(job, s', w) {
      assert s.c.alive[w];
      assert WorkerInv(job, s, w);
      SameWorker(job, s, s', w);
    }
    StillMapped(job, s, e, s');
  }

  /** Every step but a takeover keeps the invariant, dead machines included. */
  lemma StepInv(job: Job, s: State, e: Event, s': State)
    requires Inv(job, s) && Step(job, s, e, s') && !Takeover(job, s, e)
    ensures Inv(job, s')
  {
    match e
    case Register => NewMachine(job, s, s');
    case GetMap(w, reply) => TaskHandedOut(job, s, w, reply, s');
    case Write(w) => PartitionWritten(job, s, w, s');
    case FinishMap(w) => MapReported(job, s, w, s');
    case _ => OtherStep(job, s, e, s');
  }

  /** No report takes a map task with output away from another live machine. */
  ghost predicate NoTakeoverRun(job: Job, run: seq<State>, events: seq<Event>) {
    IsRun(job, run, events) && forall k: nat | k < |events| :: !Takeover(job, run[k], events[k])
  }

  lemma {:induction false} RunInv(job: Job, run: seq<State>, events: seq<Event>, k: nat)
    requires NoTakeoverRun(job, run, events) && job.nReduce > 0 && k < |run|
    ensures Inv(job, run[k])
  {
    if k > 0 {
      RunInv(job, run, events, k - 1);
      StepInv(job, run[k - 1], events[k - 1], run[k - 1 + 1]);
    }
  }

  /** A live machine reports only what it owns. */
  lemma LiveReport(job: Job, s: State, e: Event)
    requires Inv(job, s) && FailStop(s, e)
    ensures !Takeover(job, s, e)
  {
    if e.FinishMap? && e.w < |s.workers| && s.workers[e.w].Mapping? {
      assert WorkerInv(job, s, e.w);
    }
  }

  lemma {:induction false} FailStopInv(job: Job, run: seq<State>, events: seq<Event>, k: nat)
    requires FailStopRun(job, run, events) && job.nReduce > 0 && k < |run|
    ensures Inv(job, run[k])
  {
    if k > 0 {
      FailStopInv(job, run, events, k - 1);
      LiveReport(job, run[k - 1], events[k - 1]);
      StepInv(job, run[k - 1], events[k - 1], run[k - 1 + 1]);
    }
  }

  /** Machines that stop when they are marked dead take nothing over. */
  lemma FailStopTakesNothing(job: Job, run: seq<State>, events: seq<Event>)
    requires FailStopRun(job, run, events) && job.nReduce > 0
    ensures NoTakeoverRun(job, run, events)
  {
    forall k: nat | k < |events| ensures !Takeover(job, run[k], events[k]) {
      FailStopInv(job, run, events, k);
      LiveReport(job, run[k], events[k]);
    }
  }

  // ---------- exactly when a report does harm ----------

  lemma {:induction false} SumWithout<T>(parts: seq<multiset<T>>, done: set<nat>, t: nat)
    requires t in done && t < |parts|
    ensures Sum(parts, done, |parts|) == Sum(parts, done - {t}, |parts|) + parts[t]
  {
    SumAdd(parts, done - {t}, t);
    assert done - {t} + {t} == done;
  }

  lemma LoserWrote(job: Job, s: State, w: nat, s': State, r: nat)
    requires Good(job, s) && Step(job, s, FinishMap(w), s') && Takeover(job, s, FinishMap(w))
    requires var v := s.c.tasks[s.workers[w].task].worker;
      s.c.tasks[s.workers[w].task].status == Completed && v < |s.workers| && NotCredited(s, v)
    ensures var t := s.workers[w].task; var v := s.c.tasks[t].worker;
      s'.files == s.files && t in WroteSet(s, v, r) && WroteSet(s', v, r) == WroteSet(s, v, r) - {t}
  {
    var t := s.workers[w].task;
    var v := s.c.tasks[t].worker;
    assert s'.workers[v] == s.workers[v] && s'.c.tasks[t] == Task(Completed, w);
    assert Wrote(s, v, t, r);
  }

  /** The files of the machine that loses a completed task still hold that task's output. */
  lemma LoserKeepsOutput(job: Job, s: State, w: nat, s': State, r: nat)
    requires Inv(job, s) && Step(job, s, FinishMap(w), s') && Takeover(job, s, FinishMap(w)) && r < job.nReduce
    requires s.c.tasks[s.workers[w].task].status == Completed
    ensures var t := s.workers[w].task; var v := s.c.tasks[t].worker;
      && v < |s.workers| && v != w && s.c.alive[v] && FileExists(job, s', v, r)
      && (FileHolds(job, s', v, r) <==> Part(job, t, r) == [])
  {
    var t := s.workers[w].task;
    var v := s.c.tasks[t].worker;
    assert WorkerInv(job, s, v);
    assert FileHolds(job, s, v, r) && FileExists(job, s, v, r);
    LoserWrote(job, s, w, s', r);
    SumWithout(Parts(job, r), WroteSet(s, v, r), t);
    assert Parts(job, r)[t] == multiset(Part(job, t, r));
    assert |Parts(job, r)[t]| == |Part(job, t, r)|;
  }

  /** A map report keeps the invariant if and only if it takes no task with output from another live machine. */
  lemma ReportKeepsInvExactlyWhen(job: Job, s: State, w: nat, s': State)
    requires Inv(job, s) && Step(job, s, FinishMap(w), s')
    ensures Inv(job, s') <==> !Takeover(job, s, FinishMap(w))
  {
    var t := s.workers[w].task;
    var v := s.c.tasks[t].worker;
    if !Takeover(job, s, FinishMap(w)) {
      MapReported(job, s, w, s');
    } else if s.c.tasks[t].status == Processing {
      assert IsMapped(s, t);
      assert !Owns(job, s', v);
      assert !WorkerInv(job, s', v);
    } else {
      SomePart(job, t);
      var r: nat :| r < job.nReduce && Part(job, t, r) != [];
      LoserKeepsOutput(job, s, w, s', r);
      assert !WorkerInv(job, s', v);
    }
  }

  // ---------- the moment MapDone answers true ----------

  /** The files of the listed workers for partition `r`, taken together. */
  ghost function Gather(files: map<(nat, nat), seq<KeyValue>>, workers: seq<nat>, r: nat): multiset<KeyValue> {
    if workers == [] then multiset{} else
      Gather(files, workers[..|workers| - 1], r) + Bag(files, workers[|workers| - 1], r)
  }

  /** All map output for partition `r`. */
  ghost function Everything(job: Job, r: nat): multiset<KeyValue>
    requires job.nReduce > 0
  {
    Sum(Parts(job, r), Below(|job.files|), |job.files|)
  }

  ghost function TasksOf(c: Tables, workers: seq<nat>): set<nat> {
    set t: nat | t < |c.tasks| && c.tasks[t].worker in workers
  }

  /** Once all map tasks are complete, a live worker's file holds exactly its own tasks. */
  lemma OwnTasks(job: Job, s: State, w: nat, r: nat)
    requires Inv(job, s) && MapComplete(s.c) && w < |s.workers| && s.c.alive[w] && r < job.nReduce
    ensures Bag(s.files, w, r) == Sum(Parts(job, r), TasksOf(s.c, [w]), |job.files|)
  {
    assert WorkerInv(job, s, w);
    assert FileHolds(job, s, w, r);
    forall t: nat | Productive(job, t) ensures t in WroteSet(s, w, r) <==> t in TasksOf(s.c, [w]) {
      assert s.c.tasks[t].status == Completed;
    }
    SameSum(job, r, WroteSet(s, w, r), TasksOf(s.c, [w]));
  }

  lemma TasksOfSnoc(c: Tables, init: seq<nat>, w: nat)
    requires w !in init
    ensures TasksOf(c, init + [w]) == TasksOf(c, init) + TasksOf(c, [w]) && TasksOf(c, init) !! TasksOf(c, [w])
  {
  }

  lemma {:induction false} GatherTasks(job: Job, s: State, workers: seq<nat>, r: nat)
    requires Inv(job, s) && MapComplete(s.c) && r < job.nReduce && Distinct(workers)
    requires forall w | w in workers :: w < |s.workers| && s.c.alive[w]
    ensures Gather(s.files, workers, r) == Sum(Parts(job, r), TasksOf(s.c, workers), |job.files|)
    decreases |workers|
  {
    if workers == [] {
      SumNone(Parts(job, r), |job.files|);
      assert TasksOf(s.c, workers) == {};
    } else {
      var init, w := workers[..|workers| - 1], workers[|workers| - 1];
      assert workers == init + [w];
      GatherTasks(job, s, init, r);
      assert w in workers && w !in init;
      OwnTasks(job, s, w, r);
      TasksOfSnoc(s.c, init, w);
      assert TasksOf(s.c, workers) == TasksOf(s.c, init) + TasksOf(s.c, [w]);
      assert Gather(s.files, workers, r) == Gather(s.files, init, r) + Bag(s.files, w, r);
      SumUnion(Parts(job, r), TasksOf(s.c, init), TasksOf(s.c, [w]), |job.files|);
    }
  }

  lemma ListedAreLive(c: Tables, workers: seq<nat>, w: nat)
    requires MapComplete(c) && ListsWorkers(c, workers) && w in workers
    ensures w < |c.alive| && c.alive[w]
  {
    var t: nat :| t < |c.tasks| && c.tasks[t].worker == w;
    assert OnLive(c, c.tasks[t]);
  }

  /** Exactly once: in every run without takeovers, at the moment MapDone answers true. */
  lemma MapOutputExactlyOnce(job: Job, run: seq<State>, events: seq<Event>, k: nat, workers: seq<nat>, r: nat)
    requires NoTakeoverRun(job, run, events) && job.nReduce > 0 && k < |run|
    requires MapComplete(run[k].c) && ListsWorkers(run[k].c, workers) && r < job.nReduce
    ensures Gather(run[k].files, workers, r) == Everything(job, r)
    ensures forall w | w in workers :: (w, r) in run[k].files
  {
    RunInv(job, run, events, k);
    ListedFilesHoldEverything(job, run[k], workers, r);
  }

  lemma ListedHasFile(job: Job, s: State, workers: seq<nat>, w: nat, r: nat)
    requires Inv(job, s) && MapComplete(s.c) && ListsWorkers(s.c, workers) && r < job.nReduce && w in workers
    ensures w < |s.workers| && s.c.alive[w] && (w, r) in s.files
  {
    ListedAreLive(s.c, workers, w);
    assert WorkerInv(job, s, w);
    assert FileExists(job, s, w, r);
    var t: nat :| t < |s.c.tasks| && s.c.tasks[t].worker == w;
    assert s.c.tasks[t].status == Completed;
    assert t in WroteSet(s, w, r);
  }

  lemma ListedDidEverything(c: Tables, workers: seq<nat>)
    requires ListsWorkers(c, workers)
    ensures TasksOf(c, workers) == Below(|c.tasks|)
  {
    forall t: nat | t < |c.tasks| ensures c.tasks[t].worker in workers {
    }
  }

  lemma ListedFilesHoldEverything(job: Job, s: State, workers: seq<nat>, r: nat)
    requires Inv(job, s) && MapComplete(s.c) && ListsWorkers(s.c, workers) && r < job.nReduce
    ensures Gather(s.files, workers, r) == Everything(job, r)
    ensures forall w | w in workers :: (w, r) in s.files
  {
    forall w | w in workers ensures w < |s.workers| && s.c.alive[w] && (w, r) in s.files {
      ListedHasFile(job, s, workers, w, r);
    }
    GatherTasks(job, s, workers, r);
    ListedDidEverything(s.c, workers);
  }
}
