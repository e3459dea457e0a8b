/**
  How much work the scheduler hands out when nobody is marked dead: every map task at most once,
  and at most two effective coordinator steps per task (src/mr/coordinator.go: AssignTask,
  CompleteTask).
 */
module Scheduler {
  import opened Linearizability
  import opened Coordinator
  import opened Cluster

  // ---------- the potential of a task table ----------

  function Rank(t: Task): nat {
    match t.status
    case Idle => 2
    case Processing => 1
    case Completed => 0
  }

  function Potential(ts: seq<Task>): nat {
    if ts == [] then 0 else Potential(ts[..|ts| - 1]) + Rank(ts[|ts| - 1])
  }

  lemma {:induction false} PotentialUpdate(ts: seq<Task>, i: nat, t: Task)
    requires i < |ts|
    ensures Potential(ts[i := t]) + Rank(ts[i]) == Potential(ts) + Rank(t)
  {
    var last := |ts| - 1;
    if i < last {
      PotentialUpdate(ts[..last], i, t);
      assert ts[i := t][..last] == ts[..last][i := t];
    } else {
      assert ts[i := t][..last] == ts[..last];
    }
  }

  lemma {:induction false} PotentialIdle(n: nat)
    ensures Potential(seq(n, _ => Task(Idle, 0))) == 2 * n
  {
    if n > 0 {
      PotentialIdle(n - 1);
      assert seq(n, _ => Task(Idle, 0))[..n - 1] == seq(n - 1, _ => Task(Idle, 0));
    }
  }

  /** The steps that hand out or complete a task. */
  predicate Effective(e: Event) {
    match e
    case GetMap(_, reply) => reply.Some?
    case GetReduce(_, reply) => reply.Some?
    case FinishMap(_) => true
    case FinishReduce(_) => true
    case _ => false
  }

  function EffectiveSteps(events: seq<Event>): nat {
    if events == [] then 0 else
      EffectiveSteps(events[..|events| - 1]) + (if Effective(events[|events| - 1]) then 1 else 0)
  }

  // ---------- who works on what, when everybody is alive ----------

  /** The task a worker works on is its own in the tables. */
  ghost predicate Holds(c: Tables, w: nat, x: Worker) {
    match x
    case Mapping(t, _) => t < |c.tasks| && c.tasks[t] == Task(Processing, w)
    case Reducing(r, _, _, _) => r < |c.rtasks| && c.rtasks[r] == Task(Processing, w)
    case Reduced(r) => r < |c.rtasks| && c.rtasks[r] == Task(Processing, w)
    case _ => true
  }

  ghost predicate Inv(job: Job, s: State) {
    && Good(job, s) && (forall w: nat | w < |s.c.alive| :: s.c.alive[w])
    && forall w: nat | w < |s.workers| :: Holds(s.c, w, s.workers[w])
  }

  lemma HandOutKeeps(job: Job, s: State, e: Event, s': State)
    requires Inv(job, s) && Step(job, s, e, s') && (e.GetMap? || e.GetReduce?)
    ensures Inv(job, s')
  {
    StepGood(job, s, e, s');
    forall v: nat | v < |s'.workers| ensures Holds(s'.c, v, s'.workers[v]) {
      assert Holds(s.c, v, s.workers[v]);
    }
  }

  lemma CompletionKeeps(job: Job, s: State, e: Event, s': State)
    requires Inv(job, s) && Step(job, s, e, s') && (e.FinishMap? || e.FinishReduce?)
    ensures Inv(job, s')
  {
    StepGood(job, s, e, s');
    assert Holds(s.c, e.w, s.workers[e.w]);
    forall v: nat | v < |s'.workers| ensures Holds(s'.c, v, s'.workers[v]) {
      assert Holds(s.c, v, s.workers[v]);
    }
  }

  lemma OtherKeeps(job: Job, s: State, e: Event, s': State)
    requires Inv(job, s) && Step(job, s, e, s') && !e.Die?
    requires !e.GetMap? && !e.GetReduce? && !e.FinishMap? && !e.FinishReduce?
    ensures Inv(job, s')
  {
    StepGood(job, s, e, s');
    forall v: nat | v < |s'.workers| ensures Holds(s'.c, v, s'.workers[v]) {
      assert v < |s.workers| ==> Holds(s.c, v, s.workers[v]);
    }
  }

  lemma StepInv(job: Job, s: State, e: Event, s': State)
    requires Inv(job, s) && Step(job, s, e, s') && !e.Die?
    ensures Inv(job, s')
  {
    if e.GetMap? || e.GetReduce? {
      HandOutKeeps(job, s, e, s');
    } else if e.FinishMap? || e.FinishReduce? {
      CompletionKeeps(job, s, e, s');
    } else {
      OtherKeeps(job, s, e, s');
    }
  }

  ghost predicate NobodyDies(events: seq<Event>) {
    forall k: nat | k < |events| :: !events[k].Die?
  }

  lemma {:induction false} RunInv(job: Job, run: seq<State>, events: seq<Event>, k: nat)
    requires IsRun(job, run, events) && NobodyDies(events) && k < |run|
    ensures Inv(job, run[k])
  {
    if k > 0 {
      RunInv(job, run, events, k - 1);
      StepInv(job, run[k - 1], events[k - 1], run[k - 1 + 1]);
    }
  }

  // ---------- bounded work ----------

  ghost function Left(s: State): nat {
    Potential(s.c.tasks) + Potential(s.c.rtasks)
  }

  lemma HandOutPotential(job: Job, s: State, e: Event, s': State)
    requires Inv(job, s) && Step(job, s, e, s') && (e.GetMap? || e.GetReduce?)
    ensures Left(s) == Left(s') + (if e.reply.Some? then 1 else 0)
  {
    if e.reply.Some? {
      if e.GetMap? {
        assert s.c.tasks[e.reply.value].status == Idle;
        PotentialUpdate(s.c.tasks, e.reply.value, Task(Processing, e.w));
      } else {
        assert s.c.rtasks[e.reply.value].status == Idle;
        PotentialUpdate(s.c.rtasks, e.reply.value, Task(Processing, e.w));
      }
    }
  }

  lemma CompletionPotential(job: Job, s: State, e: Event, s': State)
    requires Inv(job, s) && Step(job, s, e, s') && (e.FinishMap? || e.FinishReduce?)
    ensures Left(s) == Left(s') + 1
  {
    assert Holds(s.c, e.w, s.workers[e.w]);
    if e.FinishMap? {
      PotentialUpdate(s.c.tasks, s.workers[e.w].task, Task(Completed, e.w));
    } else {
      PotentialUpdate(s.c.rtasks, s.workers[e.w].task, Task(Completed, e.w));
    }
  }

  /** Every effective step uses up one unit of potential, and no other step changes it. */
  lemma StepPotential(job: Job, s: State, e: Event, s': State)
    requires Inv(job, s) && Step(job, s, e, s') && !e.Die?
    ensures Left(s) == Left(s') + (if Effective(e) then 1 else 0)
  {
    if e.GetMap? || e.GetReduce? {
      HandOutPotential(job, s, e, s');
    } else if e.FinishMap? || e.FinishReduce? {
      CompletionPotential(job, s, e, s');
    } else {
      assert s'.c.tasks == s.c.tasks && s'.c.rtasks == s.c.rtasks;
    }
  }

  /** Hand-outs and completions so far, plus what is left, make exactly two per task. */
  lemma {:induction false} WorkIsBounded(job: Job, run: seq<State>, events: seq<Event>, k: nat)
    requires IsRun(job, run, events) && NobodyDies(events) && k < |run|
    ensures EffectiveSteps(events[..k]) + Left(run[k]) == 2 * (|job.files| + job.nReduce)
  {
    if k == 0 {
      PotentialIdle(|job.files|);
      PotentialIdle(job.nReduce);
    } else {
      WorkIsBounded(job, run, events, k - 1);
      RunInv(job, run, events, k - 1);
      StepPotential(job, run[k - 1], events[k - 1], run[k - 1 + 1]);
      assert events[..k][..k - 1] == events[..k - 1];
    }
  }

  lemma StepTaken(job: Job, s: State, e: Event, s': State, t: nat)
    requires Inv(job, s) && Step(job, s, e, s') && !e.Die? && t < |s.c.tasks|
    ensures s.c.tasks[t].status != Idle ==> s'.c.tasks[t].status != Idle
    ensures e.GetMap? && e.reply == Some(t) ==> s.c.tasks[t].status == Idle && s'.c.tasks[t].status != Idle
  {
  }

  lemma {:induction false} TakenForever(job: Job, run: seq<State>, events: seq<Event>, j: nat, k: nat, t: nat)
    requires IsRun(job, run, events) && NobodyDies(events) && j <= k < |run| && t < |job.files|
    ensures Good(job, run[j]) && Good(job, run[k])
    ensures run[j].c.tasks[t].status != Idle ==> run[k].c.tasks[t].status != Idle
    decreases k
  {
    RunInv(job, run, events, j);
    RunInv(job, run, events, k);
    if j < k {
      TakenForever(job, run, events, j, k - 1, t);
      RunInv(job, run, events, k - 1);
      StepTaken(job, run[k - 1], events[k - 1], run[k - 1 + 1], t);
    }
  }

  /** With nobody marked dead, no map task is handed out twice. */
  lemma HandedOutOnce(job: Job, run: seq<State>, events: seq<Event>, i: nat, j: nat, t: nat)
    requires IsRun(job, run, events) && NobodyDies(events) && i < j < |events| && t < |job.files|
    requires events[i].GetMap? && events[i].reply == Some(t)
    ensures !(events[j].GetMap? && events[j].reply == Some(t))
  {
    RunInv(job, run, events, i);
    RunInv(job, run, events, j);
    StepTaken(job, run[i], events[i], run[i + 1], t);
    TakenForever(job, run, events, i + 1, j, t);
    StepTaken(job, run[j], events[j], run[j + 1], t);
  }
}
