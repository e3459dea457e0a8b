/**
  Without deaths, the distributed job computes what the sequential program computes: whatever
  the interleaving, when the coordinator says done, the output files together hold the same
  lines as the sequential program writes
  (src/mr/worker.go: processRTask; src/main/mrsequential.go: main).
 */
module EndToEnd {
  import opened Linearizability
  import opened Sorting
  import opened Pairs
  import opened Coordinator
  import opened Cluster
  import opened ExactlyOnce
  import Scheduler

  // ---------- the sequential program ----------

  /** The map output of the first `m` files, one after the other. */
  ghost function AllPairs(job: Job, m: nat): seq<KeyValue>
    requires m <= |job.files|
  {
    if m == 0 then [] else AllPairs(job, m - 1) + job.mapf(job.files[m - 1].0, job.files[m - 1].1)
  }

  method Sequential(job: Job) returns (lines: seq<Line>)
    ensures IsReductionOfBag(multiset(AllPairs(job, |job.files|)), job.reducef, lines) && KeysAscend(lines)
    ensures Insensitive(job.reducef) ==> IsReduction(AllPairs(job, |job.files|), job.reducef, lines)
  {
    var intermediate: seq<KeyValue> := [];
    for t := 0 to |job.files|
      invariant intermediate == AllPairs(job, t)
    {
      var kva := job.mapf(job.files[t].0, job.files[t].1);
      intermediate := intermediate + kva;
    }
    ByKeyIsStrictWeak();
    var sorted := Sort(intermediate, ByKey);
    lines := GroupReduce(sorted, job.reducef);
    if Insensitive(job.reducef) {
      ReductionPermuted(sorted, intermediate, job.reducef, lines);
    }
  }

  /** The lines reduce some arrangement of the pairs. */
  ghost predicate IsReductionOfBag(bag: multiset<KeyValue>, reducef: Reducer, lines: seq<Line>) {
    exists kvs: seq<KeyValue> :: multiset(kvs) == bag && IsReduction(kvs, reducef, lines)
  }

  /** The sum of the first `m` parts. */
  ghost function Total<T>(parts: seq<multiset<T>>, m: nat): multiset<T>
    requires m <= |parts|
  {
    if m == 0 then multiset{} else Total(parts, m - 1) + parts[m - 1]
  }

  lemma {:induction false} TotalIsSum<T>(parts: seq<multiset<T>>, done: set<nat>, m: nat)
    requires m <= |parts| && forall t: nat | t < m :: t in done
    ensures Sum(parts, done, m) == Total(parts, m)
  {
    if m > 0 {
      TotalIsSum(parts, done, m - 1);
      assert m - 1 in done;
    }
  }

  lemma MultisetConcat<T>(a: seq<T>, b: seq<T>)
    ensures multiset(a + b) == multiset(a) + multiset(b)
  {
  }

  lemma PartOfMore(job: Job, r: nat, m: nat)
    requires m < |job.files| && job.nReduce > 0
    ensures PartBag(job, r, m + 1) == PartBag(job, r, m) + Parts(job, r)[m]
  {
    PartConcat(AllPairs(job, m), MapOut(job, m), job.hash, job.nReduce, r);
    MultisetConcat(PartOf(AllPairs(job, m), job.hash, job.nReduce, r), Part(job, m, r));
  }

  ghost function PartBag(job: Job, r: nat, m: nat): multiset<KeyValue>
    requires m <= |job.files| && job.nReduce > 0
  {
    multiset(PartOf(AllPairs(job, m), job.hash, job.nReduce, r))
  }

  /** A list that starts empty and grows by one part at a time ends at the total. */
  lemma {:induction false} Accumulates<T>(parts: seq<multiset<T>>, bags: seq<multiset<T>>, m: nat)
    requires m <= |parts| && |bags| == |parts| + 1 && bags[0] == multiset{}
    requires forall k: nat | k < |parts| :: bags[k + 1] == bags[k] + parts[k]
    ensures bags[m] == Total(parts, m)
  {
    if m > 0 {
      var k := m - 1;
      Accumulates(parts, bags, k);
      assert bags[k + 1] == bags[k] + parts[k];
    }
  }

  /** Partition `r` of the first files, one file more at a time. */
  lemma PartBags(job: Job, r: nat) returns (bags: seq<multiset<KeyValue>>)
    requires job.nReduce > 0
    ensures |bags| == |job.files| + 1 && bags[0] == multiset{} && bags[|job.files|] == PartBag(job, r, |job.files|)
    ensures forall k: nat | k < |job.files| :: bags[k + 1] == bags[k] + Parts(job, r)[k]
  {
    bags := seq(|job.files| + 1, k requires 0 <= k <= |job.files| => PartBag(job, r, k));
    forall k: nat | k < |job.files| ensures bags[k + 1] == bags[k] + Parts(job, r)[k] {
      PartOfMore(job, r, k);
    }
  }

  /** Partition `r` of everything is the sum of what the tasks contribute. */
  lemma PartOfAll(job: Job, r: nat)
    requires job.nReduce > 0
    ensures PartBag(job, r, |job.files|) == Everything(job, r)
  {
    var bags := PartBags(job, r);
    Accumulates(Parts(job, r), bags, |job.files|);
    TotalIsSum(Parts(job, r), Below(|job.files|), |job.files|);
  }

  // ---------- the reduce phase when nobody dies ----------

  ghost predicate AllAlive(c: Tables) {
    forall w: nat | w < |c.alive| :: c.alive[w]
  }

  /** Reduce task `r`'s output file holds the reduction of all map output for `r`. */
  ghost predicate OutputRight(job: Job, s: State, r: nat)
    requires job.nReduce > 0
  {
    r in s.outs && IsReductionOfBag(Everything(job, r), job.reducef, s.outs[r])
  }

  /** How far worker `x` has come with a reduce task is consistent with the files. */
  ghost predicate ReducerInv(job: Job, s: State, x: Worker)
    requires job.nReduce > 0
  {
    match x
    case Asked(mapDone, sources) => mapDone ==> ListsWorkers(s.c, sources)
    case Reducing(r, sources, i, acc) =>
      ListsWorkers(s.c, sources) && i <= |sources| && r < job.nReduce
        && multiset(acc) == Gather(s.files, sources[..i], r)
    case Reduced(r) => OutputRight(job, s, r)
    case Crashed => false
    case _ => true
  }

  ghost predicate Inv2(job: Job, s: State) {
    && Inv(job, s) && AllAlive(s.c) && ReduceAfterMap(s)
    && (s.saw ==> MapComplete(s.c))
    && (forall w: nat | w < |s.workers| :: ReducerInv(job, s, s.workers[w]))
    && (forall r: nat | r < job.nReduce && s.c.rtasks[r].status == Completed :: OutputRight(job, s, r))
  }

  /** After the map phase no map task is free and nobody maps. */
  lemma MapOver(job: Job, s: State)
    requires Scheduler.Inv(job, s) && MapComplete(s.c)
    ensures forall i: nat | i < |s.c.tasks| :: !MapFree(s.c, i)
    ensures forall w: nat | w < |s.workers| :: !s.workers[w].Mapping?
  {
    forall w: nat | w < |s.workers| ensures !s.workers[w].Mapping? {
      assert Scheduler.Holds(s.c, w, s.workers[w]);
    }
  }

  /** A step that leaves map tasks, files and outputs alone keeps what is known about the reducers. */
  lemma ReducersSame(job: Job, s: State, s': State, w: nat)
    requires Inv2(job, s) && w < |s.workers| && |s'.workers| >= |s.workers|
    requires s'.c.tasks == s.c.tasks && s'.files == s.files && s'.outs == s.outs
    requires forall v: nat | v < |s.workers| && v != w :: s'.workers[v] == s.workers[v]
    ensures forall v: nat | v < |s.workers| && v != w :: ReducerInv(job, s', s'.workers[v])
    ensures forall r: nat | r < job.nReduce && OutputRight(job, s, r) :: OutputRight(job, s', r)
  {
    forall v: nat | v < |s.workers| && v != w ensures ReducerInv(job, s', s'.workers[v]) {
      SameReducer(job, s, s', s.workers[v]);
    }
  }

  lemma SameReducer(job: Job, s: State, s': State, x: Worker)
    requires job.nReduce > 0 && ReducerInv(job, s, x)
    requires s'.c.tasks == s.c.tasks && s'.files == s.files && s'.outs == s.outs
    ensures ReducerInv(job, s', x)
  {
    assert forall sources :: ListsWorkers(s.c, sources) ==> ListsWorkers(s'.c, sources);
  }

  /** Every worker other than `w` is as before. */
  ghost predicate OnlyWorker(s: State, s': State, w: nat) {
    && w < |s.workers| && |s'.workers| == |s.workers|
    && forall v: nat | v < |s.workers| && v != w :: s'.workers[v] == s.workers[v]
  }

  lemma AskKeeps(job: Job, s: State, w: nat, sources: seq<nat>, s': State)
    requires Inv2(job, s) && Step(job, s, Ask(w, sources), s') && Inv(job, s') && ReduceAfterMap(s')
    ensures Inv2(job, s')
  {
    ReducersSame(job, s, s', w);
    assert s'.c == s.c;
  }

  lemma GetMapKeeps(job: Job, s: State, w: nat, reply: Option<nat>, s': State)
    requires Scheduler.Inv(job, s)
    requires Inv2(job, s) && Step(job, s, GetMap(w, reply), s') && Inv(job, s') && ReduceAfterMap(s')
    ensures Inv2(job, s')
  {
    if s.saw {
      MapOver(job, s);
      ReducersSame(job, s, s', w);
    } else {
      NoReducers(job, s, s', w);
    }
  }

  /** Before the first true answer of MapDone there is no reduce work at all. */
  lemma NoReducers(job: Job, s: State, s': State, w: nat)
    requires Inv2(job, s) && !s.saw && !s'.saw && OnlyWorker(s, s', w) && !ReduceWork(s'.workers[w])
      && !s'.workers[w].Crashed?
    requires s'.c.rtasks == s.c.rtasks && AllAlive(s'.c) && Inv(job, s') && ReduceAfterMap(s')
    ensures Inv2(job, s')
  {
    forall v: nat | v < |s'.workers| ensures ReducerInv(job, s', s'.workers[v]) {
      if v != w {
        assert ReducerInv(job, s, s.workers[v]);
        assert !ReduceWork(s.workers[v]);
      }
    }
  }

  lemma WriteKeeps(job: Job, s: State, w: nat, s': State)
    requires Scheduler.Inv(job, s)
    requires Inv2(job, s) && Step(job, s, Write(w), s') && Inv(job, s') && ReduceAfterMap(s')
    ensures Inv2(job, s')
  {
    if s.saw {
      MapOver(job, s);
      assert false;
    }
    NoReducers(job, s, s', w);
  }

  lemma FinishMapKeeps(job: Job, s: State, w: nat, s': State)
    requires Scheduler.Inv(job, s)
    requires Inv2(job, s) && Step(job, s, FinishMap(w), s') && Inv(job, s') && ReduceAfterMap(s')
    ensures Inv2(job, s')
  {
    if s.saw {
      MapOver(job, s);
      assert false;
    }
    NoReducers(job, s, s', w);
  }

  lemma GetReduceKeeps(job: Job, s: State, w: nat, reply: Option<nat>, s': State)
    requires Inv2(job, s) && Step(job, s, GetReduce(w, reply), s') && Inv(job, s') && ReduceAfterMap(s')
    requires SourcesFit(s, GetReduce(w, reply))
    ensures Inv2(job, s')
  {
    ReducersSame(job, s, s', w);
    assert ReducerInv(job, s, s.workers[w]);
    var sources := s.workers[w].sources;
    assert ReduceWork(s.workers[w]);
    if reply.Some? {
      DecodesExactly(sources, SourcesOf(s', w));
    }
    assert ListsWorkers(s'.c, sources);
    assert sources[..0] == [];
  }

  lemma ReadKeeps(job: Job, s: State, w: nat, s': State)
    requires Inv2(job, s) && Step(job, s, Read(w), s') && Inv(job, s') && ReduceAfterMap(s')
    ensures Inv2(job, s')
  {
    ReducersSame(job, s, s', w);
    assert ReducerInv(job, s, s.workers[w]);
    var Reducing(r, sources, i, acc) := s.workers[w];
    assert ReduceWork(s.workers[w]);
    ListedHasFile(job, s, sources, sources[i], r);
    assert sources[..i + 1] == sources[..i] + [sources[i]];
    GatherSnoc(s.files, sources[..i], sources[i], r);
    MultisetConcat(acc, s.files[(sources[i], r)]);
    assert ListsWorkers(s'.c, sources);
  }

  lemma GatherSnoc(files: map<(nat, nat), seq<KeyValue>>, workers: seq<nat>, w: nat, r: nat)
    ensures Gather(files, workers + [w], r) == Gather(files, workers, r) + Bag(files, w, r)
  {
    assert (workers + [w])[..|workers|] == workers;
  }

  lemma EmitKeeps(job: Job, s: State, w: nat, sorted: seq<KeyValue>, lines: seq<Line>, s': State)
    requires Inv2(job, s) && Step(job, s, Emit(w, sorted, lines), s') && Inv(job, s') && ReduceAfterMap(s')
    ensures Inv2(job, s')
  {
    var r := s.workers[w].task;
    EmitRight(job, s, w, sorted, lines, s');
    assert s'.c == s.c && s'.files == s.files && s'.saw == s.saw;
    assert forall q | q != r && q in s.outs :: q in s'.outs && s'.outs[q] == s.outs[q];
    EmitOutputs(job, s, s', r);
    forall v: nat | v < |s'.workers| ensures ReducerInv(job, s', s'.workers[v]) {
      if v == w {
        assert s'.workers[v] == Reduced(r);
      } else {
        assert s'.workers[v] == s.workers[v];
        assert ReducerInv(job, s, s.workers[v]);
        EmitSame(job, s, s', s.workers[v], r);
      }
    }
  }

  lemma EmitOutputs(job: Job, s: State, s': State, r: nat)
    requires job.nReduce > 0 && |s.c.rtasks| == job.nReduce && OutputRight(job, s', r) && s'.c == s.c
    requires forall q | q != r && q in s.outs :: q in s'.outs && s'.outs[q] == s.outs[q]
    requires forall q: nat | q < job.nReduce && s.c.rtasks[q].status == Completed :: OutputRight(job, s, q)
    ensures forall q: nat | q < job.nReduce && s'.c.rtasks[q].status == Completed :: OutputRight(job, s', q)
  {
  }

  lemma EmitRight(job: Job, s: State, w: nat, sorted: seq<KeyValue>, lines: seq<Line>, s': State)
    requires Inv2(job, s) && Step(job, s, Emit(w, sorted, lines), s')
    ensures OutputRight(job, s', s.workers[w].task)
  {
    assert ReducerInv(job, s, s.workers[w]) && ReduceWork(s.workers[w]);
    var Reducing(r, sources, i, acc) := s.workers[w];
    assert sources[..i] == sources;
    ListedFilesHoldEverything(job, s, sources, r);
    assert multiset(sorted) == Everything(job, r);
  }

  lemma EmitSame(job: Job, s: State, s': State, x: Worker, r: nat)
    requires job.nReduce > 0 && ReducerInv(job, s, x) && OutputRight(job, s', r)
    requires s'.c == s.c && s'.files == s.files
    requires forall q | q != r && q in s.outs :: q in s'.outs && s'.outs[q] == s.outs[q]
    ensures ReducerInv(job, s', x)
  {
  }

  lemma FinishReduceKeeps(job: Job, s: State, w: nat, s': State)
    requires Inv2(job, s) && Step(job, s, FinishReduce(w), s') && Inv(job, s') && ReduceAfterMap(s')
    ensures Inv2(job, s')
  {
    ReducersSame(job, s, s', w);
    var r := s.workers[w].task;
    assert ReducerInv(job, s, s.workers[w]) && OutputRight(job, s, r);
    assert s'.c == s.c.(rtasks := s.c.rtasks[r := Task(Completed, w)]);
    FinishOutputs(job, s, s', r);
  }

  lemma FinishOutputs(job: Job, s: State, s': State, r: nat)
    requires job.nReduce > 0 && |s.c.rtasks| == job.nReduce && r < job.nReduce && OutputRight(job, s, r)
      && s'.outs == s.outs
    requires |s'.c.rtasks| == job.nReduce && forall q: nat | q < job.nReduce && q != r ::
      s'.c.rtasks[q] == s.c.rtasks[q]
    requires forall q: nat | q < job.nReduce && s.c.rtasks[q].status == Completed :: OutputRight(job, s, q)
    ensures forall q: nat | q < job.nReduce && s'.c.rtasks[q].status == Completed :: OutputRight(job, s', q)
  {
  }

  lemma RegisterKeeps(job: Job, s: State, s': State)
    requires Inv2(job, s) && Step(job, s, Register, s') && Inv(job, s') && ReduceAfterMap(s')
    ensures Inv2(job, s')
  {
    forall v: nat | v < |s'.workers| ensures ReducerInv(job, s', s'.workers[v]) {
      if v < |s.workers| {
        SameReducer(job, s, s', s.workers[v]);
      }
    }
    if s.saw {
      forall i: nat | i < |s'.c.tasks| ensures s'.c.tasks[i].status == Completed && OnLive(s'.c, s'.c.tasks[i]) {
        assert OnLive(s.c, s.c.tasks[i]);
      }
    }
  }

  lemma StepInv2(job: Job, s: State, e: Event, s': State)
    requires Inv2(job, s) && Scheduler.Inv(job, s) && Step(job, s, e, s') && !e.Die? && SourcesFit(s, e)
    ensures Inv2(job, s')
  {
    Acts(job, s, e, s');
    ExactlyOnce.StepInv(job, s, e, s');
    StepReduceAfterMap(job, s, e, s');
    match e
    case Register => RegisterKeeps(job, s, s');
    case Ask(w, sources) => AskKeeps(job, s, w, sources, s');
    case GetMap(w, reply) => GetMapKeeps(job, s, w, reply, s');
    case GetReduce(w, reply) => GetReduceKeeps(job, s, w, reply, s');
    case Write(w) => WriteKeeps(job, s, w, s');
    case FinishMap(w) => FinishMapKeeps(job, s, w, s');
    case Read(w) => ReadKeeps(job, s, w, s');
    case Emit(w, sorted, lines) => EmitKeeps(job, s, w, sorted, lines, s');
    case FinishReduce(w) => FinishReduceKeeps(job, s, w, s');
  }

  /** With everybody alive, nothing is taken over. */
  lemma Acts(job: Job, s: State, e: Event, s': State)
    requires Inv2(job, s) && Step(job, s, e, s')
    ensures !Takeover(job, s, e)
  {
    assert FailStop(s, e);
    LiveReport(job, s, e);
  }

  /** No machine is ever marked dead, and the machines whose files are read have numbers that fit a byte. */
  ghost predicate CalmRun(job: Job, run: seq<State>, events: seq<Event>) {
    IsRun(job, run, events) && forall k: nat | k < |events| :: !events[k].Die? && SourcesFit(run[k], events[k])
  }

  lemma {:induction false} RunInv2(job: Job, run: seq<State>, events: seq<Event>, k: nat)
    requires CalmRun(job, run, events) && job.nReduce > 0 && k < |run|
    ensures Inv2(job, run[k])
  {
    if k > 0 {
      RunInv2(job, run, events, k - 1);
      Scheduler.RunInv(job, run, events, k - 1);
      StepInv2(job, run[k - 1], events[k - 1], run[k - 1 + 1]);
    }
  }

  /** The output files in order. */
  ghost function Outputs(job: Job, s: State): seq<seq<Line>>
    requires forall r: nat | r < job.nReduce :: r in s.outs
  {
    seq(job.nReduce, r requires 0 <= r < job.nReduce => s.outs[r])
  }

  lemma PartitionRight(job: Job, s: State, r: nat)
    requires job.nReduce > 0 && Insensitive(job.reducef) && OutputRight(job, s, r)
    ensures IsReduction(PartOf(AllPairs(job, |job.files|), job.hash, job.nReduce, r), job.reducef, s.outs[r])
  {
    var kvs: seq<KeyValue> :| multiset(kvs) == Everything(job, r) && IsReduction(kvs, job.reducef, s.outs[r]);
    PartOfAll(job, r);
    ReductionPermuted(kvs, PartOf(AllPairs(job, |job.files|), job.hash, job.nReduce, r), job.reducef, s.outs[r]);
  }

  /** Once the job is done, the outputs together are the output of the sequential program, and no worker has crashed. */
  lemma SameAsSequential(job: Job, run: seq<State>, events: seq<Event>, k: nat, lines: seq<Line>)
    requires CalmRun(job, run, events) && job.nReduce > 0 && Insensitive(job.reducef) && k < |run|
    requires ReduceComplete(run[k].c)
    requires IsReduction(AllPairs(job, |job.files|), job.reducef, lines)
    ensures forall r: nat | r < job.nReduce :: r in run[k].outs
    ensures multiset(Flatten(Outputs(job, run[k]))) == multiset(lines)
    ensures forall w: nat | w < |run[k].workers| :: !run[k].workers[w].Crashed?
  {
    var s := run[k];
    RunInv2(job, run, events, k);
    forall r: nat | r < job.nReduce
      ensures r in s.outs && IsReduction(PartOf(AllPairs(job, |job.files|), job.hash, job.nReduce, r), job.reducef,
                                         s.outs[r])
    {
      assert s.c.rtasks[r].status == Completed;
      PartitionRight(job, s, r);
    }
    forall w: nat | w < |s.workers| ensures !s.workers[w].Crashed? {
      assert ReducerInv(job, s, s.workers[w]);
    }
    var all := AllPairs(job, |job.files|);
    PartitionsReduce(all, job.hash, job.nReduce, job.reducef, Outputs(job, s));
    ReductionUnique(all, job.reducef, Flatten(Outputs(job, s)), lines);
  }
}
