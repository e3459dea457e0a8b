/**
  The MapReduce coordinator (src/mr/coordinator.go): the locked sections of its RPC handlers as
  methods that change its tables, each proved against a relation on table values.  The relations
  are what the cluster model steps with.
 */
module Coordinator {
  import opened Linearizability

  datatype Status = Idle | Processing | Completed

  datatype Task = Task(status: Status, worker: nat)

  /** The tables: map tasks, reduce tasks, and which machines are believed alive. */
  datatype Tables = Tables(tasks: seq<Task>, rtasks: seq<Task>, alive: seq<bool>)

  predicate Assigned(t: Task, n: nat) {
    t.status != Idle ==> t.worker < n
  }

  ghost predicate Valid(c: Tables) {
    && (forall i | 0 <= i < |c.tasks| :: Assigned(c.tasks[i], |c.alive|))
    && (forall i | 0 <= i < |c.rtasks| :: Assigned(c.rtasks[i], |c.alive|))
  }

  predicate OnLive(c: Tables, t: Task) {
    t.worker < |c.alive| && c.alive[t.worker]
  }

  /** A map task may be handed out unless a live machine has it or has done it. */
  predicate MapFree(c: Tables, i: nat)
    requires i < |c.tasks|
  {
    c.tasks[i].status == Idle || !OnLive(c, c.tasks[i])
  }

  /** A reduce task may be handed out unless it is done or a live machine has it. */
  predicate ReduceFree(c: Tables, i: nat)
    requires i < |c.rtasks|
  {
    c.rtasks[i].status == Idle || (c.rtasks[i].status == Processing && !OnLive(c, c.rtasks[i]))
  }

  /** Every map task was completed by a machine believed alive. */
  ghost predicate MapComplete(c: Tables) {
    forall i: nat | i < |c.tasks| :: c.tasks[i].status == Completed && OnLive(c, c.tasks[i])
  }

  ghost predicate ReduceComplete(c: Tables) {
    forall i: nat | i < |c.rtasks| :: c.rtasks[i].status == Completed
  }

  /** `workers` names, once each, the machines that completed the map tasks. */
  ghost predicate ListsWorkers(c: Tables, workers: seq<nat>) {
    && Distinct(workers)
    && forall w: nat :: w in workers <==> exists i: nat :: i < |c.tasks| && c.tasks[i].worker == w
  }

  ghost predicate AssignsMap(c: Tables, w: nat, reply: Option<nat>, c': Tables) {
    match reply
    case None => c' == c && forall i: nat | i < |c.tasks| :: !MapFree(c, i)
    case Some(i) =>
      && i < |c.tasks| && MapFree(c, i) && (forall j: nat | j < i :: !MapFree(c, j))
      && c' == c.(tasks := c.tasks[i := Task(Processing, w)])
  }

  ghost predicate AssignsReduce(c: Tables, w: nat, reply: Option<nat>, c': Tables) {
    match reply
    case None => c' == c && forall i: nat | i < |c.rtasks| :: !ReduceFree(c, i)
    case Some(i) =>
      && i < |c.rtasks| && ReduceFree(c, i) && (forall j: nat | j < i :: !ReduceFree(c, j))
      && c' == c.(rtasks := c.rtasks[i := Task(Processing, w)])
  }

  datatype Class = Map | Reduce

  function Complete(c: Tables, w: nat, kind: Class, id: nat): Tables
    requires id < if kind.Map? then |c.tasks| else |c.rtasks|
  {
    match kind
    case Map => c.(tasks := c.tasks[id := Task(Completed, w)])
    case Reduce => c.(rtasks := c.rtasks[id := Task(Completed, w)])
  }

  class Coordinator {
    var tasks: seq<Task>
    var rtasks: seq<Task>
    var machines: seq<bool>  // IsAlive
    var machinesNumber: nat
    const nReduce: nat

    function View(): Tables
      reads this
    {
      Tables(tasks, rtasks, machines)
    }

    ghost predicate Ok()
      reads this
    {
      Valid(View()) && machinesNumber == |machines| && |rtasks| == nReduce
    }

    constructor (files: nat, nReduce: nat)
      ensures Ok() && this.nReduce == nReduce
      ensures View() == Tables(seq(files, _ => Task(Idle, 0)), seq(nReduce, _ => Task(Idle, 0)), [])
    {
      this.nReduce := nReduce;
      tasks := seq(files, _ => Task(Idle, 0));
      rtasks := seq(nReduce, _ => Task(Idle, 0));
      machines, machinesNumber := [], 0;
    }

    method Register() returns (id: nat)
      requires Ok()
      modifies this
      ensures Ok() && id == |old(View()).alive|
      ensures View() == old(View()).(alive := old(View()).alive + [true])
    {
      id := machinesNumber;
      machines := machines + [true];
      machinesNumber := machinesNumber + 1;
    }

    method MapDone() returns (done: bool, workers: seq<nat>)
      requires Ok()
      ensures done <==> forall i: nat | i < |tasks| :: tasks[i].status == Completed && machines[tasks[i].worker]
      ensures done ==> Distinct(workers)
      ensures done ==> forall w: nat :: w in workers <==> exists i: nat :: i < |tasks| && tasks[i].worker == w
      ensures done <==> MapComplete(View())
      ensures done ==> ListsWorkers(View(), workers)
    {
      var mp: set<nat> := {};
      workers := [];
      for i := 0 to |tasks|
        invariant forall j: nat | j < i :: tasks[j].status == Completed && OnLive(View(), tasks[j])
        invariant forall w: nat :: w in mp <==> exists j: nat :: j < i && tasks[j].worker == w
      {
        if tasks[i].status == Completed && machines[tasks[i].worker] {
          mp := mp + {tasks[i].worker};
        } else {
          return false, [];
        }
      }
      done := true;
      workers := ListSet(mp);
    }

    method AssignMap(workerID: nat) returns (reply: Option<nat>)
      requires Ok() && workerID < |machines|
      modifies this
      ensures Ok() && rtasks == old(rtasks) && machines == old(machines)
      // without a task, live machines have or have done them all
      ensures reply == None ==>
        tasks == old(tasks) && forall i: nat | i < |tasks| :: tasks[i].status != Idle && machines[tasks[i].worker]
      // a task is the first one of which this is not so, and now it is this machine's
      ensures reply.Some? ==>
        && reply.value < |old(tasks)| && tasks == old(tasks)[reply.value := Task(Processing, workerID)]
        && (old(tasks)[reply.value].status == Idle || !machines[old(tasks)[reply.value].worker])
        && forall i: nat | i < reply.value :: tasks[i].status != Idle && machines[tasks[i].worker]
      ensures AssignsMap(old(View()), workerID, reply, View())
    {
      reply := None;
      for i := 0 to |tasks|
        invariant tasks == old(tasks) && rtasks == old(rtasks) && machines == old(machines)
          && machinesNumber == old(machinesNumber)
        invariant forall j: nat | j < i :: tasks[j].status != Idle && machines[tasks[j].worker]
        invariant forall j: nat | j < i :: !MapFree(View(), j)
      {
        if tasks[i].status == Processing && machines[tasks[i].worker] {
          continue;
        }
        if tasks[i].status == Completed && machines[tasks[i].worker] {
          continue;
        }
        tasks := tasks[i := Task(Processing, workerID)];
        return Some(i);
      }
    }

    method ReduceDone() returns (done: bool)
      ensures done <==> forall i: nat | i < |rtasks| :: rtasks[i].status == Completed
      ensures done <==> ReduceComplete(View())
    {
      for i := 0 to |rtasks|
        invariant forall j: nat | j < i :: rtasks[j].status == Completed
      {
        if rtasks[i].status != Completed {
          return false;
        }
      }
      return true;
    }

    method AssignReduce(workerID: nat) returns (reply: Option<nat>)
      requires Ok() && workerID < |machines|
      modifies this
      ensures Ok() && tasks == old(tasks) && machines == old(machines)
      // without a task, every one is completed or with a live machine
      ensures reply == None ==> rtasks == old(rtasks) && forall i: nat | i < |rtasks| ::
        rtasks[i].status == Completed || (rtasks[i].status == Processing && machines[rtasks[i].worker])
      // a task is the first one that is idle or stranded at a dead machine, and now it is this machine's
      ensures reply.Some? ==>
        && reply.value < |old(rtasks)| && rtasks == old(rtasks)[reply.value := Task(Processing, workerID)]
        && var t := old(rtasks)[reply.value];
           t.status == Idle || (t.status == Processing && !machines[t.worker])
      ensures reply.Some? ==> forall i: nat | i < reply.value ::
        rtasks[i].status == Completed || (rtasks[i].status == Processing && machines[rtasks[i].worker])
      ensures AssignsReduce(old(View()), workerID, reply, View())
    {
      reply := None;
      for i := 0 to |rtasks|
        invariant tasks == old(tasks) && rtasks == old(rtasks) && machines == old(machines)
          && machinesNumber == old(machinesNumber)
        invariant forall j: nat | j < i ::
          rtasks[j].status == Completed || (rtasks[j].status == Processing && machines[rtasks[j].worker])
        invariant forall j: nat | j < i :: !ReduceFree(View(), j)
      {
        if rtasks[i].status == Completed {
          continue;
        }
        if rtasks[i].status == Processing && machines[rtasks[i].worker] {
          continue;
        }
        rtasks := rtasks[i := Task(Processing, workerID)];
        return Some(i);
      }
    }

    method CompleteTask(workerID: nat, kind: Class, taskID: nat)
      requires Ok() && workerID < |machines|
      requires taskID < if kind.Map? then |tasks| else |rtasks|
      modifies this
      ensures Ok() && machines == old(machines)
      ensures tasks == if kind.Map? then old(tasks)[taskID := Task(Completed, workerID)] else old(tasks)
      ensures rtasks == if kind.Map? then old(rtasks) else old(rtasks)[taskID := Task(Completed, workerID)]
      ensures View() == Complete(old(View()), workerID, kind, taskID)
    {
      if kind == Map {
        tasks := tasks[taskID := Task(Completed, workerID)];
      } else {
        rtasks := rtasks[taskID := Task(Completed, workerID)];
      }
    }

    method Done() returns (ret: bool)
      ensures ret <==> forall i: nat | i < |rtasks| :: rtasks[i].status == Completed
      ensures ret <==> ReduceComplete(View())
    {
      ret := false;
      var done := ReduceDone();
      if done {
        ret := true;
      }
    }

    /** One round of the liveness check: machines silent for too long are marked dead for good. */
    method CheckAliveMachine(late: nat -> bool)
      requires Ok()
      modifies this
      ensures Ok() && tasks == old(tasks) && rtasks == old(rtasks) && |machines| == |old(machines)|
      ensures forall i: nat | i < |machines| :: machines[i] == (old(machines)[i] && !late(i))
    {
      for i := 0 to |machines|
        invariant tasks == old(tasks) && rtasks == old(rtasks) && |machines| == |old(machines)|
          && machinesNumber == |machines|
        invariant forall j: nat | j < |machines| :: machines[j] == (old(machines)[j] && (j < i ==> !late(j)))
      {
        if late(i) && machines[i] {
          machines := machines[i := false];
        }
      }
    }
  }

  /** The elements of a set in some order, as a range over a Go map yields them. */
  method ListSet(s: set<nat>) returns (l: seq<nat>)
    ensures Distinct(l) && forall x: nat :: x in l <==> x in s
  {
    l := [];
    var left := s;
    while left != {}
      invariant Distinct(l) && left <= s
      invariant forall x: nat :: x in l <==> x in s && x !in left
      decreases |left|
    {
      var x :| x in left;
      l := l + [x];
      left := left - {x};
    }
  }
}
