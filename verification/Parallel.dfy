/**
  Combining the verdicts of the partitions (src/porcupine/checker.go: checkParallel), as a state
  machine: the searches finish in any order, the results wait in a channel, the aggregator
  receives them one by one, and a timeout may strike at any moment.
 */
module Parallel {
  import opened Linearizability

  /** What is fixed for a whole run; `truth[i]` says whether partition `i` is linearizable. */
  datatype Job = Job(truth: seq<bool>, computeInfo: bool, hasTimeout: bool)

  datatype Search = Running | Sent(result: bool) | Received(result: bool)

  datatype Verdict = Ok | Illegal | Unknown

  datatype Phase = Looping | Draining | Returned(verdict: Verdict)

  datatype State = State(searches: seq<Search>, kill: bool, ok: bool, timedOut: bool, count: nat, phase: Phase)

  datatype Event = Finish(i: nat, result: bool) | Receive(i: nat) | Timeout | Drain(i: nat) | Finished

  function Init(job: Job): State {
    State(seq(|job.truth|, _ => Running), false, true, false, 0, Looping)
  }

  function FinalVerdict(s: State): Verdict {
    if !s.ok then Illegal else if s.timedOut then Unknown else Ok
  }

  /** Leaving the select loop: wait for the stragglers if partial linearizations are wanted. */
  function Leave(job: Job, s: State): State {
    s.(phase := if job.computeInfo then Draining else Returned(FinalVerdict(s)))
  }

  /** A search reports what is true, except that a set kill flag may make it report failure. */
  predicate MayReport(job: Job, s: State, i: nat, result: bool)
    requires i < |job.truth|
  {
    if result then job.truth[i] else !job.truth[i] || s.kill
  }

  ghost predicate Step(job: Job, s: State, e: Event, s': State) {
    && |s.searches| == |job.truth|
    && match e
       case Finish(i, result) =>
         && i < |s.searches| && s.searches[i].Running? && MayReport(job, s, i, result)
         && s' == s.(searches := s.searches[i := Sent(result)])
       case Receive(i) =>
         && s.phase.Looping? && i < |s.searches| && s.searches[i].Sent?
         && var r := s.searches[i].result;
            var s1 := s.(searches := s.searches[i := Received(r)], count := s.count + 1, ok := s.ok && r);
            s' == if !s1.ok && !job.computeInfo then Leave(job, s1.(kill := true))
                  else if s1.count >= |job.truth| then Leave(job, s1)
                  else s1
       case Timeout =>
         && s.phase.Looping? && job.hasTimeout
         && s' == Leave(job, s.(timedOut := true, kill := true))
       case Drain(i) =>
         && s.phase.Draining? && s.count < |job.truth| && i < |s.searches| && s.searches[i].Sent?
         && s' == s.(searches := s.searches[i := Received(s.searches[i].result)], count := s.count + 1)
       case Finished =>
         && s.phase.Draining? && s.count >= |job.truth|
         && s' == s.(phase := Returned(FinalVerdict(s)))
  }

  ghost predicate Next(job: Job, s: State, s': State) {
    exists e :: Step(job, s, e, s')
  }

  ghost predicate CanMove(job: Job, s: State) {
    exists s' :: Next(job, s, s')
  }

  ghost predicate IsRun(job: Job, run: seq<State>) {
    && |run| > 0 && run[0] == Init(job)
    && forall k | 0 <= k < |run| - 1 :: Next(job, run[k], run[k + 1])
  }

  // ---------- the invariant ----------

  ghost function ReceivedSet(s: State): set<nat> {
    set i: nat | i < |s.searches| && s.searches[i].Received?
  }

  /** Until the kill flag is set, everything reported is true. */
  ghost predicate Honest(job: Job, s: State)
    requires |s.searches| == |job.truth|
  {
    forall i: nat | i < |s.searches| && !s.searches[i].Running? :: s.searches[i].result == job.truth[i]
  }

  ghost predicate AllTrue(job: Job) {
    forall i: nat | i < |job.truth| :: job.truth[i]
  }

  ghost predicate ReceivedTrue(job: Job, s: State) {
    forall i | i in ReceivedSet(s) :: i < |job.truth| && job.truth[i]
  }

  ghost predicate Inv(job: Job, s: State) {
    && |s.searches| == |job.truth|
    && (!s.kill ==> Honest(job, s))
    && (s.kill ==> !s.phase.Looping?)
    && s.count == |ReceivedSet(s)|
    && (s.phase.Looping? ==>
         !s.timedOut && (s.ok ==> ReceivedTrue(job, s)) && (|job.truth| > 0 ==> s.count < |job.truth|))
    && (!s.ok ==> !AllTrue(job))
    && (!s.phase.Looping? && s.ok && !s.timedOut ==> AllTrue(job))
    && (s.timedOut ==> job.hasTimeout)
    && (s.phase.Returned? ==> s.phase.verdict == FinalVerdict(s))
  }

  lemma InitInv(job: Job)
    ensures Inv(job, Init(job))
  {
    assert ReceivedSet(Init(job)) == {};
  }

  /** With all results received and none false, every partition is linearizable. */
  lemma AllReceived(job: Job, s: State)
    requires |s.searches| == |job.truth| && |ReceivedSet(s)| >= |job.truth| && ReceivedTrue(job, s)
    ensures AllTrue(job)
  {
    assert ReceivedSet(s) <= Below(|job.truth|);
    SubsetCard(ReceivedSet(s), Below(|job.truth|));
    SubsetSameCard(ReceivedSet(s), Below(|job.truth|));
    forall i: nat | i < |job.truth| ensures job.truth[i] {
      assert i in Below(|job.truth|);
    }
  }

  lemma ReceivedMore(job: Job, s: State, i: nat, s1: State)
    requires |s.searches| == |job.truth| && i < |s.searches| && s.searches[i].Sent?
    requires s1.searches == s.searches[i := Received(s.searches[i].result)]
    ensures ReceivedSet(s1) == ReceivedSet(s) + {i} && i !in ReceivedSet(s)
    ensures Honest(job, s) ==> Honest(job, s1)
  {
  }

  lemma ReceiveInv(job: Job, s: State, i: nat, s': State)
    requires Inv(job, s) && Step(job, s, Receive(i), s')
    ensures Inv(job, s')
  {
    var r := s.searches[i].result;
    var s1 := s.(searches := s.searches[i := Received(r)], count := s.count + 1, ok := s.ok && r);
    ReceivedMore(job, s, i, s1);
    assert ReceivedSet(s') == ReceivedSet(s1);
    if s1.ok && s1.count >= |job.truth| {
      AllReceived(job, s1);
    }
  }

  lemma FinishInv(job: Job, s: State, i: nat, result: bool, s': State)
    requires Inv(job, s) && Step(job, s, Finish(i, result), s')
    ensures Inv(job, s')
  {
    assert ReceivedSet(s') == ReceivedSet(s);
  }

  lemma TimeoutInv(job: Job, s: State, s': State)
    requires Inv(job, s) && Step(job, s, Timeout, s')
    ensures Inv(job, s')
  {
    assert ReceivedSet(s') == ReceivedSet(s);
  }

  lemma DrainInv(job: Job, s: State, i: nat, s': State)
    requires Inv(job, s) && Step(job, s, Drain(i), s')
    ensures Inv(job, s')
  {
    assert ReceivedSet(s') == ReceivedSet(s) + {i};
  }

  lemma FinishedInv(job: Job, s: State, s': State)
    requires Inv(job, s) && Step(job, s, Finished, s')
    ensures Inv(job, s')
  {
    assert ReceivedSet(s') == ReceivedSet(s);
  }

  lemma StepInv(job: Job, s: State, e: Event, s': State)
    requires Inv(job, s) && Step(job, s, e, s')
    ensures Inv(job, s')
  {
    match e
    case Finish(i, result) => FinishInv(job, s, i, result, s');
    case Receive(i) => ReceiveInv(job, s, i, s');
    case Timeout => TimeoutInv(job, s, s');
    case Drain(i) => DrainInv(job, s, i, s');
    case Finished => FinishedInv(job, s, s');
  }

  lemma {:induction false} RunInv(job: Job, run: seq<State>, k: nat)
    requires IsRun(job, run) && k < |run|
    ensures Inv(job, run[k])
  {
    if k == 0 {
      InitInv(job);
    } else {
      RunInv(job, run, k - 1);
      assert Next(job, run[k - 1], run[k - 1 + 1]);
      var e :| Step(job, run[k - 1], e, run[k]);
      StepInv(job, run[k - 1], e, run[k]);
    }
  }

  /** In every run, whatever the interleaving of results, kill and timeout, the verdict is right. */
  lemma VerdictIsRight(job: Job, run: seq<State>, k: nat)
    requires IsRun(job, run) && k < |run| && run[k].phase.Returned?
    ensures run[k].phase.verdict == Ok ==> AllTrue(job)
    ensures run[k].phase.verdict == Illegal ==> !AllTrue(job)
    ensures run[k].phase.verdict == Unknown ==> job.hasTimeout
  {
    RunInv(job, run, k);
  }

  // ---------- exactly which verdict ----------

  /** A run together with the steps that make it. */
  ghost predicate IsTrace(job: Job, run: seq<State>, events: seq<Event>) {
    && |run| == |events| + 1 && run[0] == Init(job)
    && forall k: nat | k < |events| :: Step(job, run[k], events[k], run[k + 1])
  }

  /** Step `j` takes a false result out of the channel while the aggregator is in its select loop. */
  predicate ReceivesFalse(run: seq<State>, events: seq<Event>, j: nat) {
    && j < |run| && j < |events| && events[j].Receive? && run[j].phase.Looping?
    && events[j].i < |run[j].searches| && run[j].searches[events[j].i] == Sent(false)
  }

  ghost predicate Refuted(run: seq<State>, events: seq<Event>, k: nat) {
    exists j: nat :: j < k && ReceivesFalse(run, events, j)
  }

  ghost predicate TimesOut(events: seq<Event>, k: nat)
    requires k <= |events|
  {
    exists j: nat :: j < k && events[j] == Timeout
  }

  /** The flags and the phase after `k` steps, in terms of the steps. */
  ghost predicate FlagsTell(run: seq<State>, events: seq<Event>, k: nat)
    requires k <= |events| < |run|
  {
    && (!run[k].ok <==> Refuted(run, events, k))
    && (run[k].timedOut <==> TimesOut(events, k))
    && (run[k].phase.Returned? ==>
          && (run[k].phase.verdict == Illegal <==> Refuted(run, events, k))
          && (run[k].phase.verdict == Unknown <==> TimesOut(events, k) && !Refuted(run, events, k)))
  }

  /** One more step. */
  lemma RefutedSnoc(run: seq<State>, events: seq<Event>, k: nat)
    requires k < |events| < |run|
    ensures Refuted(run, events, k + 1) <==> Refuted(run, events, k) || ReceivesFalse(run, events, k)
    ensures TimesOut(events, k + 1) <==> TimesOut(events, k) || events[k] == Timeout
  {
  }

  lemma {:induction false} TraceFlags(job: Job, run: seq<State>, events: seq<Event>, k: nat)
    requires IsTrace(job, run, events) && k < |run|
    ensures FlagsTell(run, events, k)
  {
    if k > 0 {
      var j := k - 1;
      TraceFlags(job, run, events, j);
      RefutedSnoc(run, events, j);
      assert Step(job, run[j], events[j], run[j + 1]);
      StepFlags(job, run[j], events[j], run[j + 1]);
    }
  }

  /** How a step changes the flags, and that the verdict is settled when it is given. */
  lemma StepFlags(job: Job, s: State, e: Event, s': State)
    requires Step(job, s, e, s')
    ensures s'.ok == (s.ok && !(e.Receive? && s.searches[e.i] == Sent(false)))
    ensures e.Receive? ==> s.phase.Looping?
    ensures s'.timedOut == (s.timedOut || e == Timeout)
    ensures s'.phase.Returned? ==> if s.phase.Returned? then s' == s.(searches := s'.searches) else
      s'.phase.verdict == if !s'.ok then Illegal else if s'.timedOut then Unknown else Ok
  {
  }

  /** The verdict is Illegal exactly if a false result was received in the select loop; otherwise it
      is Unknown exactly if the timeout struck, and Ok exactly if it did not. */
  lemma VerdictIsExact(job: Job, run: seq<State>, events: seq<Event>, k: nat)
    requires IsTrace(job, run, events) && k < |run| && run[k].phase.Returned?
    ensures run[k].phase.verdict == Illegal <==> Refuted(run, events, k)
    ensures run[k].phase.verdict == Unknown <==> TimesOut(events, k) && !Refuted(run, events, k)
    ensures run[k].phase.verdict == Ok <==> !TimesOut(events, k) && !Refuted(run, events, k)
  {
    TraceFlags(job, run, events, k);
  }

  /** Something has ended the select loop. */
  ghost predicate Ended(job: Job, run: seq<State>, events: seq<Event>, k: nat)
    requires k <= |events| < |run|
  {
    TimesOut(events, k) || (Refuted(run, events, k) && !job.computeInfo)
  }

  /** The searches are told to stop exactly by a timeout, or by a false result when partials are not
      wanted; the select loop goes on exactly until then or until all results are in. */
  lemma {:induction false} LeavesExactlyWhen(job: Job, run: seq<State>, events: seq<Event>, k: nat)
    requires IsTrace(job, run, events) && k < |run|
    ensures run[k].kill <==> Ended(job, run, events, k)
    ensures run[k].phase.Looping? <==>
      !Ended(job, run, events, k) && (run[k].count == 0 || run[k].count < |job.truth|)
  {
    TraceFlags(job, run, events, k);
    if k > 0 {
      var j := k - 1;
      LeavesExactlyWhen(job, run, events, j);
      TraceFlags(job, run, events, j);
      RefutedSnoc(run, events, j);
      StepLeaves(job, run[j], events[j], run[j + 1]);
    }
  }

  lemma StepLeaves(job: Job, s: State, e: Event, s': State)
    requires Step(job, s, e, s')
    requires s.kill <==> s.timedOut || (!s.ok && !job.computeInfo)
    requires s.phase.Looping? <==> !s.kill && (s.count == 0 || s.count < |job.truth|)
    ensures s'.kill <==> s'.timedOut || (!s'.ok && !job.computeInfo)
    ensures s'.phase.Looping? <==> !s'.kill && (s'.count == 0 || s'.count < |job.truth|)
  {
  }

  lemma NextKeepsKill(job: Job, s: State, s': State)
    requires Next(job, s, s') && s.kill
    ensures s'.kill
  {
  }

  /** The kill flag is never taken back. */
  lemma {:induction false} KillStays(job: Job, run: seq<State>, j: nat, k: nat)
    requires IsRun(job, run) && j <= k < |run|
    ensures run[j].kill ==> run[k].kill
  {
    if j < k {
      KillStays(job, run, j, k - 1);
      assert Next(job, run[k - 1], run[k - 1 + 1]);
      if run[k - 1].kill {
        NextKeepsKill(job, run[k - 1], run[k]);
      }
    }
  }

  lemma NextKeepsCount(job: Job, s: State, s': State)
    requires Next(job, s, s') && job.computeInfo && (s.phase.Returned? ==> s.count >= |job.truth|)
    ensures s'.phase.Returned? ==> s'.count >= |job.truth|
  {
  }

  lemma {:induction false} CountAtReturn(job: Job, run: seq<State>, k: nat)
    requires IsRun(job, run) && k < |run| && job.computeInfo
    ensures run[k].phase.Returned? ==> run[k].count >= |job.truth|
  {
    if k > 0 {
      CountAtReturn(job, run, k - 1);
      assert Next(job, run[k - 1], run[k - 1 + 1]);
      NextKeepsCount(job, run[k - 1], run[k]);
    }
  }

  /** When partial linearizations are wanted, every search has reported before the verdict, so none
      of them still writes its partials. */
  lemma NobodyRunsAtReturn(job: Job, run: seq<State>, k: nat, i: nat)
    requires IsRun(job, run) && k < |run| && job.computeInfo && run[k].phase.Returned? && i < |job.truth|
    ensures |run[k].searches| == |job.truth| && run[k].searches[i].Received?
  {
    RunInv(job, run, k);
    CountAtReturn(job, run, k);
    SubsetCard(ReceivedSet(run[k]), Below(|job.truth|));
    SubsetSameCard(ReceivedSet(run[k]), Below(|job.truth|));
    assert i in Below(|job.truth|);
  }

  // ---------- when the aggregator returns ----------

  lemma NothingHappens(job: Job, s': State)
    requires |job.truth| == 0 && !job.hasTimeout
    ensures !Next(job, Init(job), s')
  {
    forall e ensures !Step(job, Init(job), e, s') {
    }
  }

  /** Without a timeout, no partitions means no answer, ever. */
  lemma NothingToCheckNeverReturns(job: Job, run: seq<State>, k: nat)
    requires IsRun(job, run) && k < |run| && |job.truth| == 0 && !job.hasTimeout
    ensures |run| == 1 && run[k] == Init(job)
  {
    assert |run| > 1 ==> Next(job, run[0], run[0 + 1]);
    forall s' ensures !Next(job, Init(job), s') {
      NothingHappens(job, s');
    }
  }

  /** With a partition to wait for, there is a move until it has returned. */
  lemma MoveExists(job: Job, s: State) returns (s': State)
    requires Inv(job, s) && !s.phase.Returned? && |job.truth| > 0
    ensures Next(job, s, s')
  {
    var e: Event;
    if s.count >= |job.truth| {
      e, s' := Finished, s.(phase := Returned(FinalVerdict(s)));
    } else {
      var i := SomeOutstanding(s);
      match s.searches[i] {
        case Running =>
          e, s' := Finish(i, job.truth[i]), s.(searches := s.searches[i := Sent(job.truth[i])]);
        case Sent(r) =>
          if s.phase.Draining? {
            e, s' := Drain(i), s.(searches := s.searches[i := Received(r)], count := s.count + 1);
          } else {
            var s1 := s.(searches := s.searches[i := Received(r)], count := s.count + 1, ok := s.ok && r);
            e := Receive(i);
            s' := if !s1.ok && !job.computeInfo then Leave(job, s1.(kill := true))
                  else if s1.count >= |job.truth| then Leave(job, s1) else s1;
          }
      }
    }
    assert Step(job, s, e, s');
  }

  lemma LeavesOnlyWithReason(job: Job, run: seq<State>, k: nat)
    requires IsRun(job, run) && k < |run| && !run[k].phase.Looping?
    ensures |job.truth| > 0 || job.hasTimeout
  {
    if |job.truth| == 0 && !job.hasTimeout {
      NothingToCheckNeverReturns(job, run, k);
    }
  }

  /** In a reachable state without a verdict a move exists if and only if there is a partition or a timeout. */
  lemma MovesExactlyWhen(job: Job, run: seq<State>, k: nat)
    requires IsRun(job, run) && k < |run| && !run[k].phase.Returned?
    ensures CanMove(job, run[k]) <==> |job.truth| > 0 || job.hasTimeout
  {
    var s := run[k];
    RunInv(job, run, k);
    if |job.truth| > 0 {
      var s' := MoveExists(job, s);
    } else if s.phase.Draining? {
      LeavesOnlyWithReason(job, run, k);
      assert Step(job, s, Finished, s.(phase := Returned(FinalVerdict(s))));
      assert Next(job, s, s.(phase := Returned(FinalVerdict(s))));
    } else if job.hasTimeout {
      var s' := Leave(job, s.(timedOut := true, kill := true));
      assert Step(job, s, Timeout, s');
      assert Next(job, s, s');
    } else {
      forall s' ensures !Next(job, s, s') {
        forall e ensures !Step(job, s, e, s') {
        }
      }
    }
  }

  function Load(searches: seq<Search>): nat {
    if searches == [] then 0 else
      var last := |searches| - 1;
      Load(searches[..last]) + (if searches[last].Running? then 2 else if searches[last].Sent? then 1 else 0)
  }

  /** Two moves for each running search, one for each result on its way, and two to leave and return. */
  function MovesLeft(s: State): nat {
    Load(s.searches) + (match s.phase case Looping => 2 case Draining => 1 case Returned(_) => 0)
  }

  lemma {:induction false} LoadDrops(searches: seq<Search>, i: nat, x: Search)
    requires i < |searches| && ((searches[i].Running? && x.Sent?) || (searches[i].Sent? && x.Received?))
    ensures Load(searches[i := x]) == Load(searches) - 1
  {
    var last := |searches| - 1;
    if i < last {
      LoadDrops(searches[..last], i, x);
      assert searches[i := x][..last] == searches[..last][i := x];
    } else {
      assert searches[i := x][..last] == searches[..last];
    }
  }

  lemma StepUsesAMove(job: Job, s: State, e: Event, s': State)
    requires Step(job, s, e, s')
    ensures MovesLeft(s') < MovesLeft(s)
  {
    match e
    case Finish(i, result) => LoadDrops(s.searches, i, Sent(result));
    case Receive(i) => LoadDrops(s.searches, i, Received(s.searches[i].result));
    case Drain(i) => LoadDrops(s.searches, i, Received(s.searches[i].result));
    case _ =>
  }

  lemma {:induction false} LoadAtStart(n: nat)
    ensures Load(seq(n, _ => Running)) == 2 * n
  {
    if n > 0 {
      LoadAtStart(n - 1);
      assert seq(n, _ => Running)[..n - 1] == seq(n - 1, _ => Running);
    }
  }

  /** No run has more than two moves per partition and two more. */
  lemma {:induction false} RunsAreBounded(job: Job, run: seq<State>, k: nat)
    requires IsRun(job, run) && k < |run|
    ensures k + MovesLeft(run[k]) <= 2 * |job.truth| + 2
  {
    if k == 0 {
      LoadAtStart(|job.truth|);
    } else {
      RunsAreBounded(job, run, k - 1);
      assert Next(job, run[k - 1], run[k - 1 + 1]);
      var e :| Step(job, run[k - 1], e, run[k]);
      StepUsesAMove(job, run[k - 1], e, run[k]);
    }
  }

  /** Runs are finite, and a run that cannot go on has returned if and only if there was a partition or a timeout. */
  lemma ReturnsExactlyWhen(job: Job, run: seq<State>)
    requires IsRun(job, run) && !CanMove(job, run[|run| - 1])
    ensures |run| <= 2 * |job.truth| + 3
    ensures run[|run| - 1].phase.Returned? <==> |job.truth| > 0 || job.hasTimeout
  {
    var last := |run| - 1;
    RunInv(job, run, last);
    RunsAreBounded(job, run, last);
    if run[last].phase.Returned? {
      LeavesOnlyWithReason(job, run, last);
    } else {
      MovesExactlyWhen(job, run, last);
    }
  }

  /** Some result has not been received while the count is short. */
  lemma SomeOutstanding(s: State) returns (i: nat)
    requires |ReceivedSet(s)| < |s.searches|
    ensures i < |s.searches| && !s.searches[i].Received?
  {
    if forall j: nat | j < |s.searches| :: s.searches[j].Received? {
      assert Below(|s.searches|) <= ReceivedSet(s);
      SubsetCard(Below(|s.searches|), ReceivedSet(s));
      assert false;
    }
    i :| i < |s.searches| && !s.searches[i].Received?;
  }
}
