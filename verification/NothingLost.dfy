/**
  What remains of exactly-once when nothing is assumed about dead machines: late reports can
  duplicate map output, but they never lose any.  In every run, whenever `MapDone` answers true,
  the files of the workers it lists hold each map task's output at least once in every partition
  (src/mr/coordinator.go: AssignTask, MapDone, CompleteTask; src/mr/worker.go: saveIntermediate).
 */
module NothingLost {
  import opened Linearizability
  import opened Coordinator
  import opened Cluster
  import opened ExactlyOnce

  lemma SumMonotone<T>(parts: seq<multiset<T>>, a: set<nat>, b: set<nat>)
    requires a <= b
    ensures Sum(parts, a, |parts|) <= Sum(parts, b, |parts|)
  {
    SumUnion(parts, a, b - a, |parts|);
    assert a + (b - a) == b;
  }

  /** Worker `w`'s file for `r` holds at least what it is credited with. */
  ghost predicate Covers(job: Job, s: State, w: nat, r: nat)
    requires job.nReduce > 0 && w < |s.workers|
  {
    Sum(Parts(job, r), WroteSet(s, w, r), |job.files|) <= Bag(s.files, w, r) && FileExists(job, s, w, r)
  }

  ghost predicate LossFree(job: Job, s: State) {
    && Good(job, s) && job.nReduce > 0
    && (forall w: nat | w < |s.workers| :: NotCredited(s, w))
    && (forall w: nat, r: nat | w < |s.workers| && r < job.nReduce :: Covers(job, s, w, r))
  }

  /** A worker whose file stays and whose credit does not grow. */
  lemma StillCovers(job: Job, s: State, s': State, w: nat, r: nat)
    requires job.nReduce > 0 && w < |s.workers| && w < |s'.workers| && Covers(job, s, w, r)
    requires WroteSet(s', w, r) <= WroteSet(s, w, r)
    requires (w, r) in s.files ==> (w, r) in s'.files && s'.files[(w, r)] == s.files[(w, r)]
    ensures Covers(job, s', w, r)
  {
    SumMonotone(Parts(job, r), WroteSet(s', w, r), WroteSet(s, w, r));
  }

  /** Credit is gained only by writing. */
  lemma CreditShrinks(job: Job, s: State, e: Event, s': State, w: nat, r: nat)
    requires Good(job, s) && Step(job, s, e, s') && w < |s.workers| && r < job.nReduce
    requires !(e == Write(w) && s.workers[w].written == r)
    ensures w < |s'.workers| && WroteSet(s', w, r) <= WroteSet(s, w, r)
  {
    forall t | t in WroteSet(s', w, r) ensures t in WroteSet(s, w, r) {
      assert Wrote(s', w, t, r);
      if TableEvent(e) {
        CreditAfterTable(job, s, e, s', w, t, r);
      } else {
        CreditAfterWork(job, s, e, s', w, t, r);
      }
    }
    StepGood(job, s, e, s');
  }

  lemma CreditAfterTable(job: Job, s: State, e: Event, s': State, w: nat, t: nat, r: nat)
    requires Good(job, s) && Step(job, s, e, s') && TableEvent(e) && w < |s.workers| && t < |s.c.tasks|
    requires w < |s'.workers| && |s'.c.tasks| == |s.c.tasks| && Wrote(s', w, t, r)
    ensures Wrote(s, w, t, r)
  {
  }

  lemma CreditAfterWork(job: Job, s: State, e: Event, s': State, w: nat, t: nat, r: nat)
    requires Good(job, s) && Step(job, s, e, s') && !TableEvent(e) && w < |s.workers| && t < |s.c.tasks|
      && r < job.nReduce
    requires !(e == Write(w) && s.workers[w].written == r)
    requires w < |s'.workers| && |s'.c.tasks| == |s.c.tasks| && Wrote(s', w, t, r)
    ensures Wrote(s, w, t, r)
  {
  }

  /** Files only grow, and only by a write of their owner to that partition. */
  lemma FilesStay(job: Job, s: State, e: Event, s': State, w: nat, r: nat)
    requires Good(job, s) && Step(job, s, e, s') && w < |s.workers|
    requires !(e == Write(w) && s.workers[w].written == r)
    ensures (w, r) in s.files ==> (w, r) in s'.files && s'.files[(w, r)] == s.files[(w, r)]
  {
  }

  lemma WriteCovers(job: Job, s: State, w: nat, s': State)
    requires LossFree(job, s) && Step(job, s, Write(w), s')
    ensures w < |s'.workers| && Covers(job, s', w, s.workers[w].written)
  {
    var t, r := s.workers[w].task, s.workers[w].written;
    assert Covers(job, s, w, r) && NotCredited(s, w);
    AppendedBag(s.files, w, r, Part(job, t, r), r);
    WriteCredit(job, s, w, s');
    SumAdd(Parts(job, r), WroteSet(s, w, r), t);
    assert Parts(job, r)[t] == multiset(Part(job, t, r));
  }

  lemma WriteCredit(job: Job, s: State, w: nat, s': State)
    requires Good(job, s) && Step(job, s, Write(w), s') && NotCredited(s, w)
    ensures var t, r := s.workers[w].task, s.workers[w].written;
      t !in WroteSet(s, w, r) && WroteSet(s', w, r) == WroteSet(s, w, r) + {t}
  {
  }

  lemma CreditStays(job: Job, s: State, e: Event, s': State, w: nat)
    requires Good(job, s) && Step(job, s, e, s') && w < |s'.workers| && (w < |s.workers| ==> NotCredited(s, w))
    ensures NotCredited(s', w)
  {
    if TableEvent(e) {
      CreditStaysTable(job, s, e, s', w);
    } else {
      CreditStaysWork(job, s, e, s', w);
    }
  }

  lemma CreditStaysTable(job: Job, s: State, e: Event, s': State, w: nat)
    requires Good(job, s) && Step(job, s, e, s') && TableEvent(e) && w < |s'.workers|
    requires w < |s.workers| ==> NotCredited(s, w)
    ensures NotCredited(s', w)
  {
  }

  lemma CreditStaysWork(job: Job, s: State, e: Event, s': State, w: nat)
    requires Good(job, s) && Step(job, s, e, s') && !TableEvent(e) && w < |s'.workers|
    requires w < |s.workers| ==> NotCredited(s, w)
    ensures NotCredited(s', w)
  {
  }

  lemma NewcomerCovers(job: Job, s: State, s': State, w: nat, r: nat)
    requires LossFree(job, s) && Step(job, s, Register, s') && w == |s.workers| && r < job.nReduce
    ensures w < |s'.workers| && Covers(job, s', w, r)
  {
    NoTasks(job, s', w, r);
    SumNone(Parts(job, r), |job.files|);
  }

  /** Every step whatsoever keeps it. */
  lemma StepLossFree(job: Job, s: State, e: Event, s': State)
    requires LossFree(job, s) && Step(job, s, e, s')
    ensures LossFree(job, s')
  {
    StepGood(job, s, e, s');
    forall w: nat | w < |s'.workers| ensures NotCredited(s', w) {
      CreditStays(job, s, e, s', w);
    }
    forall w: nat, r: nat | w < |s'.workers| && r < job.nReduce ensures Covers(job, s', w, r) {
      StepCovers(job, s, e, s', w, r);
    }
  }

  lemma StepCovers(job: Job, s: State, e: Event, s': State, w: nat, r: nat)
    requires LossFree(job, s) && Step(job, s, e, s') && w < |s'.workers| && r < job.nReduce
    ensures Covers(job, s', w, r)
  {
    if w >= |s.workers| {
      assert e.Register?;
      NewcomerCovers(job, s, s', w, r);
    } else if e == Write(w) && s.workers[w].written == r {
      WriteCovers(job, s, w, s');
    } else {
      CreditShrinks(job, s, e, s', w, r);
      FilesStay(job, s, e, s', w, r);
      assert Covers(job, s, w, r);
      StillCovers(job, s, s', w, r);
    }
  }

  lemma {:induction false} RunLossFree(job: Job, run: seq<State>, events: seq<Event>, k: nat)
    requires IsRun(job, run, events) && job.nReduce > 0 && k < |run|
    ensures LossFree(job, run[k])
  {
    if k > 0 {
      RunLossFree(job, run, events, k - 1);
      StepLossFree(job, run[k - 1], events[k - 1], run[k - 1 + 1]);
    }
  }

  lemma {:induction false} GatherCovers(job: Job, s: State, workers: seq<nat>, r: nat)
    requires LossFree(job, s) && MapComplete(s.c) && r < job.nReduce && Distinct(workers)
    requires forall w | w in workers :: w < |s.workers|
    ensures Sum(Parts(job, r), TasksOf(s.c, workers), |job.files|) <= Gather(s.files, workers, r)
    decreases |workers|
  {
    if workers == [] {
      SumNone(Parts(job, r), |job.files|);
      assert TasksOf(s.c, workers) == {};
    } else {
      var init, w := workers[..|workers| - 1], workers[|workers| - 1];
      assert workers == init + [w];
      assert forall v | v in init :: v in workers;
      GatherCovers(job, s, init, r);
      assert w in workers && w !in init;
      TasksOfSnoc(s.c, init, w);
      SumUnion(Parts(job, r), TasksOf(s.c, init), TasksOf(s.c, [w]), |job.files|);
      assert Gather(s.files, workers, r) == Gather(s.files, init, r) + Bag(s.files, w, r);
      OwnCovered(job, s, w, r);
    }
  }

  lemma OwnCovered(job: Job, s: State, w: nat, r: nat)
    requires LossFree(job, s) && MapComplete(s.c) && w < |s.workers| && r < job.nReduce
    ensures Sum(Parts(job, r), TasksOf(s.c, [w]), |job.files|) <= Bag(s.files, w, r)
  {
    assert Covers(job, s, w, r);
    forall t | t in TasksOf(s.c, [w]) ensures t in WroteSet(s, w, r) {
      assert s.c.tasks[t].status == Completed;
      assert Wrote(s, w, t, r);
    }
    SumMonotone(Parts(job, r), TasksOf(s.c, [w]), WroteSet(s, w, r));
  }

  /** The files of the listed workers are there. */
  lemma ListedFilesExist(job: Job, s: State, workers: seq<nat>, w: nat, r: nat)
    requires LossFree(job, s) && MapComplete(s.c) && ListsWorkers(s.c, workers) && w in workers && r < job.nReduce
    ensures w < |s.workers| && (w, r) in s.files
  {
    ListedAreLive(s.c, workers, w);
    assert Covers(job, s, w, r);
    var t: nat :| t < |s.c.tasks| && s.c.tasks[t].worker == w;
    assert s.c.tasks[t].status == Completed;
    assert t in WroteSet(s, w, r);
  }

  /** At least once: in every run, at the moment MapDone answers true, and every listed file is there. */
  lemma MapOutputAtLeastOnce(job: Job, run: seq<State>, events: seq<Event>, k: nat, workers: seq<nat>, r: nat)
    requires IsRun(job, run, events) && job.nReduce > 0 && k < |run|
    requires MapComplete(run[k].c) && ListsWorkers(run[k].c, workers) && r < job.nReduce
    ensures Everything(job, r) <= Gather(run[k].files, workers, r)
    ensures forall w | w in workers :: (w, r) in run[k].files
  {
    var s := run[k];
    RunLossFree(job, run, events, k);
    forall w | w in workers ensures w < |s.workers| && (w, r) in s.files {
      ListedFilesExist(job, s, workers, w, r);
    }
    GatherCovers(job, s, workers, r);
    ListedDidEverything(s.c, workers);
  }
}
