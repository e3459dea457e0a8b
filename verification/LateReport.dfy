/**
  Exactly-once fails once a report takes a task over: a worker that is marked dead while it is
  still mapping, and reports afterwards, takes the finished task away from the worker that redid
  it, and that worker then appends the same output a second time
  (src/mr/coordinator.go: CompleteTask; src/mr/worker.go: saveIntermediate appends).
 */
module LateReport {
  import opened Linearizability
  import opened Pairs
  import opened Coordinator
  import opened Cluster
  import opened ExactlyOnce

  const PAIR := KeyValue("k", "v")

  /** One file with one pair, one reduce task. */
  function OnePairJob(): Job {
    Job([("file", "content")], (name, content) => [PAIR], key => 0, 1, (key, values) => "")
  }

  function Copies(n: nat): seq<KeyValue> {
    seq(n, _ => PAIR)
  }

  /** Files in which worker 0 and worker 1 have written the pair `n0` and `n1` times. */
  function Files(n0: nat, n1: nat): map<(nat, nat), seq<KeyValue>> {
    (if n0 > 0 then map[(0, 0) := Copies(n0)] else map[]) + (if n1 > 0 then map[(1, 0) := Copies(n1)] else map[])
  }

  /** Two registered machines, the second of which stays alive. */
  function Snapshot(task: Task, alive0: bool, w0: Worker, w1: Worker, n0: nat, n1: nat): State {
    State(Tables([task], [Task(Idle, 0)], [alive0, true]), [w0, w1], Files(n0, n1), map[], false)
  }

  lemma OnePart()
    ensures MapOut(OnePairJob(), 0) == [PAIR] && Part(OnePairJob(), 0, 0) == [PAIR]
  {
    var job := OnePairJob();
    assert MapOut(job, 0) == [PAIR];
    assert [PAIR][..0] == [];
    assert PartOf([], job.hash, 1, 0) == [];
  }

  lemma Appending(n0: nat, n1: nat)
    ensures Appended(Files(n0, n1), 0, 0, [PAIR]) == Files(n0 + 1, n1)
    ensures Appended(Files(n0, n1), 1, 0, [PAIR]) == Files(n0, n1 + 1)
  {
    assert Copies(n0) + [PAIR] == Copies(n0 + 1);
    assert Copies(n1) + [PAIR] == Copies(n1 + 1);
    assert Copies(0) == [];
  }

  lemma AskedByOne(task: Task, w0: Worker, n0: nat, n1: nat)
    requires task.worker == 0 && task.status != Idle
    ensures Step(OnePairJob(), Snapshot(task, false, w0, Resting, n0, n1), Ask(1, []),
                 Snapshot(task, false, w0, Asked(false, []), n0, n1))
    ensures Step(OnePairJob(), Snapshot(task, false, w0, Asked(false, []), n0, n1), GetMap(1, Some(0)),
                 Snapshot(Task(Processing, 1), false, w0, Mapping(0, 0), n0, n1))
  {
    var s0 := Snapshot(task, false, w0, Resting, n0, n1);
    assert !MapComplete(s0.c) by { assert !OnLive(s0.c, s0.c.tasks[0]); }
    assert MapFree(s0.c, 0);
  }

  /** Worker 1 asks, gets the task, maps it and reports, while worker 0 is dead or has nothing to do with the task. */
  lemma MapByOne(task: Task, w0: Worker, n0: nat, n1: nat) returns (run: seq<State>, events: seq<Event>)
    requires task.worker == 0 && task.status != Idle
    ensures |run| == 5 && |events| == 4
    ensures run[0] == Snapshot(task, false, w0, Resting, n0, n1)
    ensures run[4] == Snapshot(Task(Completed, 1), false, w0, Resting, n0, n1 + 1)
    ensures forall k: nat | k < 4 :: Step(OnePairJob(), run[k], events[k], run[k + 1])
  {
    var job := OnePairJob();
    OnePart();
    Appending(n0, n1);
    var s0 := Snapshot(task, false, w0, Resting, n0, n1);
    var s1 := Snapshot(task, false, w0, Asked(false, []), n0, n1);
    var s2 := Snapshot(Task(Processing, 1), false, w0, Mapping(0, 0), n0, n1);
    var s3 := Snapshot(Task(Processing, 1), false, w0, Mapping(0, 1), n0, n1 + 1);
    var s4 := Snapshot(Task(Completed, 1), false, w0, Resting, n0, n1 + 1);
    AskedByOne(task, w0, n0, n1);
    assert Step(job, s2, Write(1), s3);
    assert Step(job, s3, FinishMap(1), s4);
    run, events := [s0, s1, s2, s3, s4], [Ask(1, []), GetMap(1, Some(0)), Write(1), FinishMap(1)];
  }

  /** Both machines register. */
  lemma Registering() returns (run: seq<State>, events: seq<Event>)
    ensures |run| == 3 && |events| == 2
    ensures run[0] == Init(OnePairJob())
    ensures run[2] == Snapshot(Task(Idle, 0), true, Resting, Resting, 0, 0)
    ensures forall k: nat | k < 2 :: Step(OnePairJob(), run[k], events[k], run[k + 1])
  {
    var job := OnePairJob();
    var idle := Task(Idle, 0);
    var s0 := Init(job);
    var s1 := State(Tables([idle], [idle], [true]), [Resting], map[], map[], false);
    var s2 := Snapshot(idle, true, Resting, Resting, 0, 0);
    assert s0.c.tasks == [idle] && s0.c.rtasks == [idle];
    assert Step(job, s0, Register, s1);
    assert Step(job, s1, Register, s2);
    run, events := [s0, s1, s2], [Register, Register];
  }

  /** Worker 0 gets the task and is then marked dead. */
  lemma Opening() returns (run: seq<State>, events: seq<Event>)
    ensures |run| == 4 && |events| == 3
    ensures run[0] == Snapshot(Task(Idle, 0), true, Resting, Resting, 0, 0)
    ensures run[3] == Snapshot(Task(Processing, 0), false, Mapping(0, 0), Resting, 0, 0)
    ensures forall k: nat | k < 3 :: Step(OnePairJob(), run[k], events[k], run[k + 1])
  {
    var job := OnePairJob();
    var idle := Task(Idle, 0);
    var s2 := Snapshot(idle, true, Resting, Resting, 0, 0);
    var s3 := Snapshot(idle, true, Asked(false, []), Resting, 0, 0);
    var s4 := Snapshot(Task(Processing, 0), true, Mapping(0, 0), Resting, 0, 0);
    var s5 := Snapshot(Task(Processing, 0), false, Mapping(0, 0), Resting, 0, 0);
    assert !MapComplete(s2.c) by { assert s2.c.tasks[0].status == Idle; }
    assert Step(job, s2, Ask(0, []), s3);
    assert MapFree(s3.c, 0);
    assert Step(job, s3, GetMap(0, Some(0)), s4);
    assert Step(job, s4, Die(0), s5);
    run, events := [s2, s3, s4, s5], [Ask(0, []), GetMap(0, Some(0)), Die(0)];
  }

  /** Worker 0 writes and reports although it has been marked dead. */
  lemma Ghostly() returns (run: seq<State>, events: seq<Event>)
    ensures |run| == 3 && |events| == 2
    ensures run[0] == Snapshot(Task(Completed, 1), false, Mapping(0, 0), Resting, 0, 1)
    ensures run[2] == Snapshot(Task(Completed, 0), false, Resting, Resting, 1, 1)
    ensures forall k: nat | k < 2 :: Step(OnePairJob(), run[k], events[k], run[k + 1])
    ensures events[1] == FinishMap(0) && Takeover(OnePairJob(), run[1], events[1])
  {
    var job := OnePairJob();
    OnePart();
    Appending(0, 1);
    var s0 := Snapshot(Task(Completed, 1), false, Mapping(0, 0), Resting, 0, 1);
    var s1 := Snapshot(Task(Completed, 1), false, Mapping(0, 1), Resting, 1, 1);
    var s2 := Snapshot(Task(Completed, 0), false, Resting, Resting, 1, 1);
    assert Step(job, s0, Write(0), s1);
    assert Step(job, s1, FinishMap(0), s2);
    run, events := [s0, s1, s2], [Write(0), FinishMap(0)];
  }

  /** Two stretches of a run that meet. */
  lemma Join(job: Job, a: seq<State>, ea: seq<Event>, b: seq<State>, eb: seq<Event>)
    requires |a| == |ea| + 1 && |b| == |eb| + 1 && a[|ea|] == b[0]
    requires forall k: nat | k < |ea| :: Step(job, a[k], ea[k], a[k + 1])
    requires forall k: nat | k < |eb| :: Step(job, b[k], eb[k], b[k + 1])
    ensures var run, events := a + b[1..], ea + eb;
      |run| == |events| + 1 && forall k: nat | k < |events| :: Step(job, run[k], events[k], run[k + 1])
  {
    var run, events := a + b[1..], ea + eb;
    forall k: nat | k < |events| ensures Step(job, run[k], events[k], run[k + 1]) {
      if k < |ea| {
        assert run[k] == a[k] && run[k + 1] == a[k + 1] && events[k] == ea[k];
      } else {
        var j := k - |ea|;
        assert run[k] == b[j] && run[k + 1] == b[j + 1] && events[k] == eb[j];
      }
    }
  }

  /** Both machines register, worker 0 is marked dead while mapping, and worker 1 does the task instead. */
  lemma Redone() returns (run: seq<State>, events: seq<Event>)
    ensures IsRun(OnePairJob(), run, events) && |events| == 9
    ensures run[9] == Snapshot(Task(Completed, 1), false, Mapping(0, 0), Resting, 0, 1)
  {
    var job := OnePairJob();
    var r, er := Registering();
    var o, eo := Opening();
    Join(job, r, er, o, eo);
    var a, ea := r + o[1..], er + eo;
    var b, eb := MapByOne(Task(Processing, 0), Mapping(0, 0), 0, 0);
    Join(job, a, ea, b, eb);
    run, events := a + b[1..], ea + eb;
  }

  /** Worker 0 reports late, and worker 1 gets the task again. */
  lemma DoneTwice() returns (run: seq<State>, events: seq<Event>)
    ensures |run| == 7 && |events| == 6 && forall k: nat | k < 6 :: Step(OnePairJob(), run[k], events[k], run[k + 1])
    ensures run[0] == Snapshot(Task(Completed, 1), false, Mapping(0, 0), Resting, 0, 1)
    ensures Takeover(OnePairJob(), run[1], events[1])
    ensures run[6] == Snapshot(Task(Completed, 1), false, Resting, Resting, 1, 2)
  {
    var c, ec := Ghostly();
    var d, ed := MapByOne(Task(Completed, 0), Resting, 1, 1);
    Join(OnePairJob(), c, ec, d, ed);
    run, events := c + d[1..], ec + ed;
    assert run[1] == c[1] && events[1] == ec[1];
  }

  /** A run with one takeover, in which MapDone answers true while the pair is in the listed files twice. */
  lemma LateReportDuplicates() returns (run: seq<State>, events: seq<Event>)
    ensures IsRun(OnePairJob(), run, events) && |events| == 15 && Takeover(OnePairJob(), run[10], events[10])
    ensures var s := run[15];
      MapComplete(s.c) && ListsWorkers(s.c, [1]) && Gather(s.files, [1], 0) != Everything(OnePairJob(), 0)
  {
    var a, ea := Redone();
    var b, eb := DoneTwice();
    Join(OnePairJob(), a, ea, b, eb);
    run, events := a + b[1..], ea + eb;
    assert run[10] == b[1] && events[10] == eb[1] && run[15] == b[6];
    Doubled(run[15]);
  }

  lemma Doubled(s: State)
    requires s == Snapshot(Task(Completed, 1), false, Resting, Resting, 1, 2)
    ensures MapComplete(s.c) && ListsWorkers(s.c, [1]) && Gather(s.files, [1], 0) != Everything(OnePairJob(), 0)
  {
    var job := OnePairJob();
    forall w: nat ensures w in [1] <==> exists i: nat :: i < |s.c.tasks| && s.c.tasks[i].worker == w {
      assert s.c.tasks[0].worker == 1;
    }
    assert [1][..0] == [];
    assert Gather(s.files, [1], 0) == Gather(s.files, [], 0) + Bag(s.files, 1, 0);
    assert |multiset(Copies(2))| == 2;
    OnePart();
    assert Below(1) == {0};
    SumOne(Parts(job, 0), 0, 1);
    assert Everything(job, 0) == multiset([PAIR]);
  }
}
