/**
  The job recovers from deaths: whatever has happened, as long as one machine is alive, the
  coordinator and the live workers can go on to a state in which every reduce task is completed.
  Tasks that were lost with dead machines are handed out again
  (src/mr/coordinator.go: AssignTask, CompleteTask; src/mr/worker.go: Worker).
 */
module Progress {
  import opened Linearizability
  import opened Sorting
  import opened Pairs
  import opened Coordinator
  import opened Cluster
  import opened ExactlyOnce
  import opened NothingLost
  import opened EndToEnd
  import Scheduler

  // ---------- the nondeterministic choices can be made ----------

  lemma {:induction false} ListExists(s: set<nat>) returns (l: seq<nat>)
    ensures Distinct(l) && forall x: nat :: x in l <==> x in s
  {
    l := [];
    if s != {} {
      var x :| x in s;
      var rest := ListExists(s - {x});
      l := rest + [x];
    }
  }

  lemma ListingExists(c: Tables) returns (workers: seq<nat>)
    ensures ListsWorkers(c, workers)
  {
    var owners := set i: nat | i < |c.tasks| :: c.tasks[i].worker;
    workers := ListExists(owners);
  }

  lemma {:induction false} SortedExists(kvs: seq<KeyValue>) returns (sorted: seq<KeyValue>)
    ensures multiset(sorted) == multiset(kvs) && Sorted(sorted, ByKey)
  {
    sorted := [];
    if kvs != [] {
      var last := |kvs| - 1;
      var front := SortedExists(kvs[..last]);
      ByKeyIsStrictWeak();
      InsertPermutes(front, kvs[last], ByKey);
      InsertIsSorted(front, kvs[last], ByKey);
      sorted := Insert(front, kvs[last], ByKey);
      assert kvs == kvs[..last] + [kvs[last]];
    }
  }

  ghost function OccurringKeys(kvs: seq<KeyValue>): set<string> {
    set i | 0 <= i < |kvs| :: kvs[i].key
  }

  lemma {:induction false} LinesExist(kvs: seq<KeyValue>, reducef: Reducer, keys: set<string>)
    returns (lines: seq<Line>)
    ensures forall key :: HasLine(lines, key) <==> key in keys
    ensures forall i, j | 0 <= i < j < |lines| :: lines[i].key != lines[j].key
    ensures forall i | 0 <= i < |lines| :: lines[i].output == reducef(lines[i].key, ValuesOf(kvs, lines[i].key))
  {
    lines := [];
    if keys != {} {
      var key :| key in keys;
      var rest := LinesExist(kvs, reducef, keys - {key});
      var line := Line(key, reducef(key, ValuesOf(kvs, key)));
      lines := rest + [line];
      forall k ensures HasLine(lines, k) <==> k in keys {
        HasLineConcat(rest, [line], k);
        assert [line][0].key == key;
      }
      forall i, j | 0 <= i < j < |lines| ensures lines[i].key != lines[j].key {
        if j == |rest| {
          assert HasLine(rest, rest[i].key);
        }
      }
    }
  }

  lemma ReductionExists(kvs: seq<KeyValue>, reducef: Reducer) returns (lines: seq<Line>)
    ensures IsReduction(kvs, reducef, lines)
  {
    lines := LinesExist(kvs, reducef, OccurringKeys(kvs));
  }

  // ---------- what holds in every run, deaths included ----------

  /** All intermediate files of the machines in `sources` are there. */
  ghost predicate HasFiles(job: Job, s: State, sources: seq<nat>) {
    forall v, r: nat | v in sources && r < job.nReduce :: (v, r) in s.files
  }

  /** A worker can read whatever it was told to read. */
  ghost predicate CanRead(job: Job, s: State, x: Worker) {
    match x
    case Asked(mapDone, sources) => mapDone ==> HasFiles(job, s, sources)
    case Reducing(r, sources, _, _) => r < job.nReduce && HasFiles(job, s, sources)
    case Crashed => false
    case _ => true
  }

  /** A reduce task that a live machine has is the one it works on. */
  ghost predicate IsReducing(s: State, r: nat)
    requires r < |s.c.rtasks|
  {
    var v := s.c.rtasks[r].worker;
    s.c.rtasks[r].status == Processing && OnLive(s.c, s.c.rtasks[r]) && v < |s.workers| ==>
      (s.workers[v].Reducing? || s.workers[v].Reduced?) && s.workers[v].task == r
  }

  ghost predicate Sound(job: Job, s: State) {
    && LossFree(job, s)
    && (forall t: nat | t < |s.c.tasks| :: IsMapped(s, t))
    && (forall r: nat | r < |s.c.rtasks| :: IsReducing(s, r))
    && (forall w: nat | w < |s.workers| :: CanRead(job, s, s.workers[w]))
  }

  lemma TableReducing(job: Job, s: State, e: Event, s': State, r: nat)
    requires Good(job, s) && Step(job, s, e, s') && TableEvent(e) && r < |s.c.rtasks| && IsReducing(s, r)
    ensures |s'.c.rtasks| == |s.c.rtasks| && IsReducing(s', r)
  {
  }

  lemma WorkReducing(job: Job, s: State, e: Event, s': State, r: nat)
    requires Good(job, s) && Step(job, s, e, s') && !TableEvent(e) && r < |s.c.rtasks| && IsReducing(s, r)
    requires forall w: nat | w < |s'.workers| :: !s'.workers[w].Crashed?
    ensures |s'.c.rtasks| == |s.c.rtasks| && IsReducing(s', r)
  {
  }

  lemma FilesNeverGo(job: Job, s: State, e: Event, s': State, sources: seq<nat>)
    requires Step(job, s, e, s') && HasFiles(job, s, sources)
    ensures HasFiles(job, s', sources)
  {
  }

  /** What a worker was told stays readable, and what it is told now is. */
  lemma StillReads(job: Job, s: State, e: Event, s': State, w: nat)
    requires LossFree(job, s) && Step(job, s, e, s') && SourcesFit(s, e) && w < |s'.workers|
    requires w < |s.workers| ==> CanRead(job, s, s.workers[w])
    ensures CanRead(job, s', s'.workers[w])
  {
    if w < |s.workers| && s'.workers[w] == s.workers[w] {
      match s.workers[w]
      case Asked(_, sources) => Keeps(job, s, e, s', sources);
      case Reducing(_, sources, _, _) => FilesNeverGo(job, s, e, s', sources);
      case _ =>
    } else if w < |s.workers| {
      WorkerMoves(job, s, e, s', w);
    }
  }

  lemma Keeps(job: Job, s: State, e: Event, s': State, sources: seq<nat>)
    requires Step(job, s, e, s')
    ensures HasFiles(job, s, sources) ==> HasFiles(job, s', sources)
  {
    if HasFiles(job, s, sources) {
      FilesNeverGo(job, s, e, s', sources);
    }
  }

  lemma WorkerMoves(job: Job, s: State, e: Event, s': State, w: nat)
    requires LossFree(job, s) && Step(job, s, e, s') && SourcesFit(s, e) && w < |s.workers| && w < |s'.workers|
    requires s'.workers[w] != s.workers[w] && CanRead(job, s, s.workers[w])
    ensures CanRead(job, s', s'.workers[w])
  {
    match e
    case Ask(_, sources) =>
      if MapComplete(s.c) {
        forall v, r: nat | v in sources && r < job.nReduce ensures (v, r) in s'.files {
          ListedFilesExist(job, s, sources, v, r);
        }
      }
    case GetReduce(_, reply) =>
      if reply.Some? {
        DecodesExactly(s.workers[w].sources, SourcesOf(s', w));
      }
    case Read(_) =>
      assert GoodWorker(job, s.workers[w]);
      var x := s.workers[w];
      assert x.sources[x.read] in x.sources;
    case _ =>
  }

  /** Every step keeps it, as long as worker numbers fit a byte each. */
  lemma StepSound(job: Job, s: State, e: Event, s': State)
    requires Sound(job, s) && Step(job, s, e, s') && SourcesFit(s, e)
    ensures Sound(job, s')
  {
    StepLossFree(job, s, e, s');
    forall w: nat | w < |s'.workers| ensures CanRead(job, s', s'.workers[w]) {
      StillReads(job, s, e, s', w);
    }
    forall t: nat | t < |s'.c.tasks| ensures IsMapped(s', t) {
      assert IsMapped(s, t);
      if TableEvent(e) {
        TableMapped(job, s, e, s', t);
      } else {
        WorkMapped(job, s, e, s', t);
      }
    }
    forall r: nat | r < |s'.c.rtasks| ensures IsReducing(s', r) {
      assert IsReducing(s, r);
      if TableEvent(e) {
        TableReducing(job, s, e, s', r);
      } else {
        WorkReducing(job, s, e, s', r);
      }
    }
  }

  lemma {:induction false} RunSound(job: Job, run: seq<State>, events: seq<Event>, k: nat)
    requires IsRun(job, run, events) && job.nReduce > 0 && k < |run|
    requires forall j: nat | j < |events| :: SourcesFit(run[j], events[j])
    ensures Sound(job, run[k])
  {
    if k > 0 {
      RunSound(job, run, events, k - 1);
      StepSound(job, run[k - 1], events[k - 1], run[k - 1 + 1]);
    }
  }

  // ---------- how much is left ----------

  /** A map task counts as done only with a live machine. */
  function MapRank(c: Tables, t: nat): nat
    requires t < |c.tasks|
  {
    if c.tasks[t].status == Idle || !OnLive(c, c.tasks[t]) then 2 else if c.tasks[t].status == Processing then 1 else 0
  }

  function ReduceRank(c: Tables, r: nat): nat
    requires r < |c.rtasks|
  {
    if c.rtasks[r].status == Completed then 0
    else if c.rtasks[r].status == Processing && OnLive(c, c.rtasks[r]) then 1 else 2
  }

  ghost function MapRanks(c: Tables): (ranks: seq<nat>)
    ensures |ranks| == |c.tasks| && forall t: nat | t < |ranks| :: ranks[t] == MapRank(c, t)
  {
    seq(|c.tasks|, t requires 0 <= t < |c.tasks| => MapRank(c, t))
  }

  ghost function ReduceRanks(c: Tables): (ranks: seq<nat>)
    ensures |ranks| == |c.rtasks| && forall r: nat | r < |ranks| :: ranks[r] == ReduceRank(c, r)
  {
    seq(|c.rtasks|, r requires 0 <= r < |c.rtasks| => ReduceRank(c, r))
  }

  function Added(ranks: seq<nat>): nat {
    if ranks == [] then 0 else Added(ranks[..|ranks| - 1]) + ranks[|ranks| - 1]
  }

  lemma {:induction false} AddedUpdate(ranks: seq<nat>, i: nat, x: nat)
    requires i < |ranks|
    ensures Added(ranks[i := x]) + ranks[i] == Added(ranks) + x
  {
    var last := |ranks| - 1;
    if i < last {
      AddedUpdate(ranks[..last], i, x);
      assert ranks[i := x][..last] == ranks[..last][i := x];
    } else {
      assert ranks[i := x][..last] == ranks[..last];
    }
  }

  /** What is left to do. */
  ghost function Work(c: Tables): nat {
    Added(MapRanks(c)) + Added(ReduceRanks(c))
  }

  lemma MapTaskWork(c: Tables, t: nat, x: Task)
    requires t < |c.tasks|
    ensures var c' := c.(tasks := c.tasks[t := x]); Work(c') + MapRank(c, t) == Work(c) + MapRank(c', t)
  {
    var c' := c.(tasks := c.tasks[t := x]);
    assert MapRanks(c') == MapRanks(c)[t := MapRank(c', t)];
    assert ReduceRanks(c') == ReduceRanks(c);
    AddedUpdate(MapRanks(c), t, MapRank(c', t));
  }

  lemma ReduceTaskWork(c: Tables, r: nat, x: Task)
    requires r < |c.rtasks|
    ensures var c' := c.(rtasks := c.rtasks[r := x]); Work(c') + ReduceRank(c, r) == Work(c) + ReduceRank(c', r)
  {
    var c' := c.(rtasks := c.rtasks[r := x]);
    assert ReduceRanks(c') == ReduceRanks(c)[r := ReduceRank(c', r)];
    assert MapRanks(c') == MapRanks(c);
    AddedUpdate(ReduceRanks(c), r, ReduceRank(c', r));
  }

  // ---------- states from which the job gets on ----------

  /** The live machines that have or have done map tasks have numbers that fit a byte. */
  predicate OwnersFit(c: Tables) {
    forall t: nat | t < |c.tasks| && c.tasks[t].status != Idle && OnLive(c, c.tasks[t]) :: c.tasks[t].worker < 256
  }

  /** A live machine that can take on what is left. */
  predicate CanHelp(s: State, w: nat) {
    && w < |s.workers| && w < |s.c.alive| && s.c.alive[w] && w < 256
    && (s.workers[w].Asked? && s.workers[w].mapDone ==> FitBytes(s.workers[w].sources))
  }

  ghost predicate Ready(job: Job, s: State, w: nat) {
    Sound(job, s) && OwnersFit(s.c) && CanHelp(s, w)
  }

  /** A step on the way: nobody dies, nobody registers, and map tasks are at machines whose number fits a byte. */
  predicate OnTheWay(e: Event) {
    !e.Die? && !e.Register? && (e.GetMap? || e.FinishMap? ==> e.w < 256)
  }

  ghost predicate WayStep(job: Job, s: State, e: Event, s': State) {
    OnTheWay(e) && SourcesFit(s, e) && Step(job, s, e, s')
  }

  ghost predicate IsPath(job: Job, run: seq<State>, events: seq<Event>) {
    && |run| == |events| + 1
    && forall k: nat | k < |events| :: WayStep(job, run[k], events[k], run[k + 1])
  }

  lemma OwnersStillFit(job: Job, s: State, e: Event, s': State)
    requires Good(job, s) && OwnersFit(s.c) && WayStep(job, s, e, s')
    ensures OwnersFit(s'.c)
  {
  }

  lemma StillHelps(job: Job, s: State, e: Event, s': State, w: nat)
    requires Good(job, s) && OwnersFit(s.c) && WayStep(job, s, e, s') && CanHelp(s, w)
    ensures CanHelp(s', w)
  {
    if e.Ask? && e.w == w && MapComplete(s.c) {
      forall i | 0 <= i < |e.sources| ensures e.sources[i] < 256 {
        assert e.sources[i] in e.sources;
        var t: nat :| t < |s.c.tasks| && s.c.tasks[t].worker == e.sources[i];
        assert s.c.tasks[t].status == Completed;
      }
    }
  }

  lemma ReadyStep(job: Job, s: State, e: Event, s': State, w: nat)
    requires Ready(job, s, w) && WayStep(job, s, e, s')
    ensures Ready(job, s', w)
  {
    StepSound(job, s, e, s');
    OwnersStillFit(job, s, e, s');
    StillHelps(job, s, e, s', w);
  }

  lemma AppendAt(job: Job, a: seq<State>, ea: seq<Event>, b: seq<State>, eb: seq<Event>, k: nat)
    requires IsPath(job, a, ea) && IsPath(job, b, eb) && a[|ea|] == b[0] && k < |ea + eb|
    ensures WayStep(job, (a + b[1..])[k], (ea + eb)[k], (a + b[1..])[k + 1])
  {
    var run, events := a + b[1..], ea + eb;
    if k < |ea| {
      assert run[k] == a[k] && run[k + 1] == a[k + 1] && events[k] == ea[k];
      assert WayStep(job, a[k], ea[k], a[k + 1]);
    } else {
      var j := k - |ea|;
      assert run[k] == b[j] && run[k + 1] == b[j + 1] && events[k] == eb[j];
      assert WayStep(job, b[j], eb[j], b[j + 1]);
    }
  }

  /** Two paths that meet. */
  lemma Append(job: Job, a: seq<State>, ea: seq<Event>, b: seq<State>, eb: seq<Event>)
    requires IsPath(job, a, ea) && IsPath(job, b, eb) && a[|ea|] == b[0]
    ensures IsPath(job, a + b[1..], ea + eb)
  {
    forall k: nat | k < |ea + eb| ensures WayStep(job, (a + b[1..])[k], (ea + eb)[k], (a + b[1..])[k + 1]) {
      AppendAt(job, a, ea, b, eb, k);
    }
  }

  /** `s'` can be reached from `s`, nothing dying and nobody joining. */
  ghost predicate Reaches(job: Job, s: State, s': State) {
    exists run: seq<State>, events: seq<Event> :: IsPath(job, run, events) && run[0] == s && run[|events|] == s'
  }

  lemma ReachesSelf(job: Job, s: State)
    ensures Reaches(job, s, s)
  {
    assert IsPath(job, [s], []);
  }

  lemma ReachesStep(job: Job, s: State, e: Event, s': State)
    requires WayStep(job, s, e, s')
    ensures Reaches(job, s, s')
  {
    var run, events := [s, s'], [e];
    assert IsPath(job, run, events) && run[|events|] == s';
  }

  lemma ReachesTrans(job: Job, a: State, b: State, c: State)
    requires Reaches(job, a, b) && Reaches(job, b, c)
    ensures Reaches(job, a, c)
  {
    var r1, e1 :| IsPath(job, r1, e1) && r1[0] == a && r1[|e1|] == b;
    var r2, e2 :| IsPath(job, r2, e2) && r2[0] == b && r2[|e2|] == c;
    Append(job, r1, e1, r2, e2);
    var run, events := r1 + r2[1..], e1 + e2;
    assert run[0] == a && run[|events|] == c;
  }

  /** One step from a ready state. */
  lemma Go(job: Job, s: State, e: Event, s': State, w: nat)
    requires Ready(job, s, w) && WayStep(job, s, e, s')
    ensures Ready(job, s', w) && Reaches(job, s, s')
  {
    ReadyStep(job, s, e, s', w);
    ReachesStep(job, s, e, s');
  }

  // ---------- finishing a task ----------

  /** Machine `v` finishes the map task it is at. */
  lemma {:induction false} MapOn(job: Job, s: State, w: nat, v: nat) returns (s': State)
    requires Ready(job, s, w) && v < |s.workers| && v < 256 && v < |s.c.alive| && s.c.alive[v] && s.workers[v].Mapping?
    ensures Ready(job, s', w) && Reaches(job, s, s') && v < |s'.workers| && s'.workers[v].Resting?
    ensures s.workers[v].task < |s.c.tasks| && Work(s'.c) + MapRank(s.c, s.workers[v].task) == Work(s.c)
    decreases job.nReduce - s.workers[v].written
  {
    assert GoodWorker(job, s.workers[v]);
    var t, k := s.workers[v].task, s.workers[v].written;
    if k < job.nReduce {
      var s1 := SetWorker(s, v, Mapping(t, k + 1)).(files := Appended(s.files, v, k, Part(job, t, k)));
      Go(job, s, Write(v), s1, w);
      s' := MapOn(job, s1, w, v);
      ReachesTrans(job, s, s1, s');
    } else {
      s' := SetWorker(s, v, Resting).(c := Complete(s.c, v, Map, t));
      Go(job, s, FinishMap(v), s', w);
      MapTaskWork(s.c, t, Task(Completed, v));
    }
  }

  lemma ReportReduce(job: Job, s: State, w: nat, v: nat) returns (s': State)
    requires Ready(job, s, w) && v < |s.workers| && s.workers[v].Reduced?
    ensures Ready(job, s', w) && Reaches(job, s, s') && v < |s'.workers| && s'.workers[v].Resting?
    ensures s.workers[v].task < |s.c.rtasks| && Work(s'.c) + ReduceRank(s.c, s.workers[v].task) == Work(s.c)
  {
    assert GoodWorker(job, s.workers[v]);
    var r := s.workers[v].task;
    s' := SetWorker(s, v, Resting).(c := Complete(s.c, v, Reduce, r));
    Go(job, s, FinishReduce(v), s', w);
    ReduceTaskWork(s.c, r, Task(Completed, v));
  }

  lemma EmitOn(job: Job, s: State, w: nat, v: nat) returns (s': State)
    requires Ready(job, s, w) && v < |s.workers| && s.workers[v].Reducing?
    requires s.workers[v].read >= |s.workers[v].sources|
    ensures Ready(job, s', w) && Reaches(job, s, s') && v < |s'.workers| && s'.workers[v].Resting?
    ensures s.workers[v].task < |s.c.rtasks| && Work(s'.c) + ReduceRank(s.c, s.workers[v].task) == Work(s.c)
  {
    var sorted := SortedExists(s.workers[v].acc);
    var lines := ReductionExists(sorted, job.reducef);
    var r := s.workers[v].task;
    var s1 := SetWorker(s, v, Reduced(r)).(outs := s.outs[r := lines]);
    Go(job, s, Emit(v, sorted, lines), s1, w);
    s' := ReportReduce(job, s1, w, v);
    ReachesTrans(job, s, s1, s');
  }

  /** Machine `v` finishes the reduce task it is at. */
  lemma {:induction false} ReduceOn(job: Job, s: State, w: nat, v: nat) returns (s': State)
    requires Ready(job, s, w) && v < |s.workers| && s.workers[v].Reducing?
    ensures Ready(job, s', w) && Reaches(job, s, s') && v < |s'.workers| && s'.workers[v].Resting?
    ensures s.workers[v].task < |s.c.rtasks| && Work(s'.c) + ReduceRank(s.c, s.workers[v].task) == Work(s.c)
    decreases |s.workers[v].sources| - s.workers[v].read
  {
    var Reducing(r, sources, i, acc) := s.workers[v];
    if i < |sources| {
      var file := (sources[i], r);
      var x := if file in s.files then Reducing(r, sources, i + 1, acc + s.files[file]) else Crashed;
      var s1 := SetWorker(s, v, x);
      Go(job, s, Read(v), s1, w);
      assert CanRead(job, s1, s1.workers[v]);
      s' := ReduceOn(job, s1, w, v);
      ReachesTrans(job, s, s1, s');
    } else {
      s' := EmitOn(job, s, w, v);
    }
  }

  // ---------- getting a task ----------

  lemma {:induction false} FirstFreeMap(c: Tables, open: nat) returns (i: nat)
    requires open < |c.tasks| && MapFree(c, open)
    ensures i < |c.tasks| && MapFree(c, i) && forall j: nat | j < i :: !MapFree(c, j)
    decreases open
  {
    i := open;
    if k: nat :| k < open && MapFree(c, k) {
      i := FirstFreeMap(c, k);
    }
  }

  lemma {:induction false} FirstFreeReduce(c: Tables, open: nat) returns (i: nat)
    requires open < |c.rtasks| && ReduceFree(c, open)
    ensures i < |c.rtasks| && ReduceFree(c, i) && forall j: nat | j < i :: !ReduceFree(c, j)
    decreases open
  {
    i := open;
    if k: nat :| k < open && ReduceFree(c, k) {
      i := FirstFreeReduce(c, k);
    }
  }

  /** The helper has asked and is handed the first free map task. */
  lemma TakeMap(job: Job, s: State, w: nat, open: nat) returns (s': State)
    requires Ready(job, s, w) && s.workers[w].Asked? && !s.workers[w].mapDone
    requires open < |s.c.tasks| && MapFree(s.c, open)
    ensures Ready(job, s', w) && Reaches(job, s, s') && Work(s'.c) < Work(s.c) && s'.workers[w].Mapping?
  {
    var i := FirstFreeMap(s.c, open);
    var c' := s.c.(tasks := s.c.tasks[i := Task(Processing, w)]);
    s' := SetWorker(s, w, Mapping(i, 0)).(c := c');
    assert AssignsMap(s.c, w, Some(i), c');
    Go(job, s, GetMap(w, Some(i)), s', w);
    MapTaskWork(s.c, i, Task(Processing, w));
  }

  /** The helper has asked and is handed the first free reduce task. */
  lemma TakeReduce(job: Job, s: State, w: nat, open: nat) returns (s': State)
    requires Ready(job, s, w) && s.workers[w].Asked? && s.workers[w].mapDone
    requires open < |s.c.rtasks| && ReduceFree(s.c, open)
    ensures Ready(job, s', w) && Reaches(job, s, s') && Work(s'.c) < Work(s.c) && s'.workers[w].Reducing?
  {
    var i := FirstFreeReduce(s.c, open);
    var sources := s.workers[w].sources;
    var c' := s.c.(rtasks := s.c.rtasks[i := Task(Processing, w)]);
    s' := SetWorker(s, w, Reducing(i, sources, 0, [])).(c := c');
    assert AssignsReduce(s.c, w, Some(i), c');
    assert Decodes(sources, SourcesOf(s', w));
    Go(job, s, GetReduce(w, Some(i)), s', w);
    ReduceTaskWork(s.c, i, Task(Processing, w));
  }

  /** The helper asks. */
  lemma AskNow(job: Job, s: State, w: nat) returns (s': State)
    requires Ready(job, s, w) && s.workers[w].Resting?
    ensures Ready(job, s', w) && Reaches(job, s, s') && s'.c == s.c
    ensures s'.workers[w].Asked? && (s'.workers[w].mapDone <==> MapComplete(s.c))
  {
    if MapComplete(s.c) {
      var sources := ListingExists(s.c);
      s' := SetWorker(s, w, Asked(true, sources)).(saw := true);
      Go(job, s, Ask(w, sources), s', w);
    } else {
      s' := SetWorker(s, w, Asked(false, []));
      Go(job, s, Ask(w, []), s', w);
    }
  }

  // ---------- the helper gets free ----------

  lemma SettleAsked(job: Job, s: State, w: nat) returns (s': State)
    requires Ready(job, s, w) && s.workers[w].Asked?
    ensures Ready(job, s', w) && Reaches(job, s, s') && s'.workers[w].Resting? && Work(s'.c) <= Work(s.c)
  {
    if s.workers[w].mapDone {
      if open: nat :| open < |s.c.rtasks| && ReduceFree(s.c, open) {
        var s1 := TakeReduce(job, s, w, open);
        s' := ReduceOn(job, s1, w, w);
        ReachesTrans(job, s, s1, s');
      } else {
        s' := SetWorker(s, w, Resting);
        Go(job, s, GetReduce(w, None), s', w);
      }
    } else {
      if open: nat :| open < |s.c.tasks| && MapFree(s.c, open) {
        var s1 := TakeMap(job, s, w, open);
        s' := MapOn(job, s1, w, w);
        ReachesTrans(job, s, s1, s');
      } else {
        s' := SetWorker(s, w, Resting);
        Go(job, s, GetMap(w, None), s', w);
      }
    }
  }

  /** Whatever the helper is doing, it can come to rest without undoing anything. */
  lemma Settle(job: Job, s: State, w: nat) returns (s': State)
    requires Ready(job, s, w)
    ensures Ready(job, s', w) && Reaches(job, s, s') && s'.workers[w].Resting? && Work(s'.c) <= Work(s.c)
  {
    assert CanRead(job, s, s.workers[w]);
    match s.workers[w]
    case Resting =>
      s' := s;
      ReachesSelf(job, s);
    case Mapping(_, _) => s' := MapOn(job, s, w, w);
    case Reducing(_, _, _, _) => s' := ReduceOn(job, s, w, w);
    case Reduced(_) => s' := ReportReduce(job, s, w, w);
    case Asked(_, _) => s' := SettleAsked(job, s, w);
  }

  // ---------- the job gets on ----------

  /** The map phase gets on: a live machine finishes its task, or the helper takes one that is free,
      which includes all that dead machines had or had done. */
  lemma AdvanceMap(job: Job, s: State, w: nat) returns (s': State)
    requires Ready(job, s, w) && s.workers[w].Resting? && !MapComplete(s.c)
    ensures Ready(job, s', w) && Reaches(job, s, s') && Work(s'.c) < Work(s.c)
  {
    var t: nat :| t < |s.c.tasks| && !(s.c.tasks[t].status == Completed && OnLive(s.c, s.c.tasks[t]));
    if MapFree(s.c, t) {
      var s1 := AskNow(job, s, w);
      s' := TakeMap(job, s1, w, t);
      ReachesTrans(job, s, s1, s');
    } else {
      assert IsMapped(s, t);
      s' := MapOn(job, s, w, s.c.tasks[t].worker);
    }
  }

  /** The reduce phase gets on in the same way. */
  lemma AdvanceReduce(job: Job, s: State, w: nat) returns (s': State)
    requires Ready(job, s, w) && s.workers[w].Resting? && MapComplete(s.c) && !ReduceComplete(s.c)
    ensures Ready(job, s', w) && Reaches(job, s, s') && Work(s'.c) < Work(s.c)
  {
    var r: nat :| r < |s.c.rtasks| && s.c.rtasks[r].status != Completed;
    if ReduceFree(s.c, r) {
      var s1 := AskNow(job, s, w);
      s' := TakeReduce(job, s1, w, r);
      ReachesTrans(job, s, s1, s');
    } else {
      assert IsReducing(s, r);
      var v := s.c.rtasks[r].worker;
      if s.workers[v].Reducing? {
        s' := ReduceOn(job, s, w, v);
      } else {
        s' := ReportReduce(job, s, w, v);
      }
    }
  }

  lemma {:induction false} CanFinish(job: Job, s: State, w: nat) returns (s': State)
    requires Ready(job, s, w)
    ensures Reaches(job, s, s') && ReduceComplete(s'.c)
    decreases Work(s.c)
  {
    if ReduceComplete(s.c) {
      s' := s;
      ReachesSelf(job, s);
    } else {
      var s1 := Settle(job, s, w);
      if ReduceComplete(s1.c) {
        s' := s1;
      } else {
        var s2;
        if MapComplete(s1.c) {
          s2 := AdvanceReduce(job, s1, w);
        } else {
          s2 := AdvanceMap(job, s1, w);
        }
        s' := CanFinish(job, s2, w);
        ReachesTrans(job, s1, s2, s');
        ReachesTrans(job, s, s1, s');
      }
    }
  }

  /** From every state of a run, whatever died, in which some machine can help, the job can be finished. */
  lemma JobCanFinish(job: Job, run: seq<State>, events: seq<Event>, k: nat, w: nat) returns (s': State)
    requires IsRun(job, run, events) && job.nReduce > 0 && k < |run|
    requires forall j: nat | j < |events| :: SourcesFit(run[j], events[j])
    requires CanHelp(run[k], w) && OwnersFit(run[k].c)
    ensures Reaches(job, run[k], s') && ReduceComplete(s'.c)
  {
    RunSound(job, run, events, k);
    s' := CanFinish(job, run[k], w);
  }

  // ---------- clusters whose numbers all fit a byte ----------

  /** Workers are told of registered machines only. */
  ghost predicate ToldRegistered(s: State) {
    forall w: nat, i: nat | w < |s.workers| && s.workers[w].Asked? && i < |s.workers[w].sources| ::
      s.workers[w].sources[i] < |s.workers|
  }

  lemma StepTold(job: Job, s: State, e: Event, s': State)
    requires Good(job, s) && ToldRegistered(s) && Step(job, s, e, s')
    ensures ToldRegistered(s') && |s.workers| <= |s'.workers|
  {
    if e.Ask? && MapComplete(s.c) {
      forall i: nat | i < |e.sources| ensures e.sources[i] < |s.workers| {
        ListedAreLive(s.c, e.sources, e.sources[i]);
      }
    }
  }

  lemma {:induction false} RunTold(job: Job, run: seq<State>, events: seq<Event>, j: nat, k: nat)
    requires IsRun(job, run, events) && j <= k < |run|
    ensures ToldRegistered(run[k]) && |run[j].workers| <= |run[k].workers|
    decreases k
  {
    if k > 0 {
      RunTold(job, run, events, if j < k then j else k - 1, k - 1);
      RunGood(job, run, events, k - 1);
      StepTold(job, run[k - 1], events[k - 1], run[k - 1 + 1]);
    }
  }

  /** With at most 256 machines, one that is alive is enough: whatever happened before, the job can be finished. */
  lemma OneLiveMachineSuffices(job: Job, run: seq<State>, events: seq<Event>, k: nat, w: nat) returns (s': State)
    requires IsRun(job, run, events) && job.nReduce > 0 && k < |run| && |run[k].workers| <= 256
    requires w < |run[k].c.alive| && run[k].c.alive[w]
    ensures Reaches(job, run[k], s') && ReduceComplete(s'.c)
  {
    var prefix, steps := run[..k + 1], events[..k];
    assert IsRun(job, prefix, steps);
    forall j: nat | j < |steps| ensures SourcesFit(prefix[j], steps[j]) {
      RunTold(job, run, events, j, j);
      RunTold(job, run, events, j, k);
    }
    RunGood(job, run, events, k);
    RunTold(job, run, events, k, k);
    s' := JobCanFinish(job, prefix, steps, k, w);
  }

  /** Without deaths any worker helps, as long as the machines that have map tasks have numbers that fit a byte. */
  lemma CalmJobCanFinish(job: Job, run: seq<State>, events: seq<Event>, k: nat) returns (s': State)
    requires CalmRun(job, run, events) && job.nReduce > 0 && k < |run| && |run[k].workers| > 0 && OwnersFit(run[k].c)
    ensures Reaches(job, run[k], s') && ReduceComplete(s'.c)
  {
    var s := run[k];
    RunInv2(job, run, events, k);
    Scheduler.RunInv(job, run, events, k);
    assert ReducerInv(job, s, s.workers[0]);
    if s.workers[0].Asked? && s.workers[0].mapDone {
      var sources := s.workers[0].sources;
      assert ReduceWork(s.workers[0]);
      forall i | 0 <= i < |sources| ensures sources[i] < 256 {
        assert sources[i] in sources;
        var t: nat :| t < |s.c.tasks| && s.c.tasks[t].worker == sources[i];
        assert s.c.tasks[t].status == Completed;
      }
    }
    s' := JobCanFinish(job, run, events, k, 0);
  }
}
