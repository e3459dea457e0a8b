/**
  The checker from end to end: operations with timestamps in, a verdict out
  (src/porcupine/checker.go: checkOperations; src/porcupine/visualization.go: replaying the
  partial linearizations).
 */
module CheckOperations {
  import opened Linearizability
  import opened Events
  import opened Search
  import opened Checker
  import opened MakeEntries
  import Kv
  import Locality
  import StoreLaw
  import Parallel

  /** One partition: the events are laid out and searched. */
  method CheckHistory<S(==), I(!new), O(!new)>(m: Model<S, I, O>, history: seq<Operation<I, O>>,
                                               computePartial: bool, kill: nat -> bool)
    returns (ok: bool, longest: seq<Option<seq<nat>>>, ghost stopped: Option<nat>)
    requires WellFormed(history)
    ensures stopped == None ==> (ok <==> Linearizable(m, history))
    ensures stopped.Some? ==> !ok && kill(stopped.value)
    ensures LongestSound(m, history, longest)
    ensures ok ==> forall id: nat | id < |history| ::
      longest[id].Some? && IsLinearization(m, history, longest[id].value)
    ensures !ok && computePartial && stopped == None ==> LongestOptimal(m, history, longest)
    ensures forall id: nat | id < |history| && longest[id].Some? :: Replays(m, history, longest[id].value)
  {
    var es := MakeEntries.MakeEntries(history);
    SameHistory(m, history, es);
    ghost var h := History(es, |history|);
    ok, longest, stopped := CheckSingle(m, es, |history|, computePartial, kill);
    SameLongest(m, h, history, longest);
    if ok {
      forall id: nat | id < |history| ensures IsLinearization(m, history, longest[id].value) {
        SameLinearization(m, h, history, longest[id].value);
      }
    }
  }

  /** The longest partials of one history are those of the other. */
  lemma SameLongest<S, I, O>(m: Model<S, I, O>, h: seq<Operation<I, O>>, g: seq<Operation<I, O>>,
                             longest: seq<Option<seq<nat>>>)
    requires SameUpToClock(h, g)
    ensures LongestSound(m, h, longest) <==> LongestSound(m, g, longest)
    ensures LongestOptimal(m, h, longest) <==> LongestOptimal(m, g, longest)
  {
    forall p: seq<nat> ensures IsPartial(m, h, p) <==> IsPartial(m, g, p) {
      SamePartial(m, h, g, p);
    }
  }

  /** Every step along `partial` is allowed. */
  ghost predicate Replays<S, I, O>(m: Model<S, I, O>, history: seq<Operation<I, O>>, partial: seq<nat>) {
    InRange(|history|, partial) && Run(m, history, partial).Some?
  }

  /** `s` is the state after the first `j` steps of `partial`. */
  ghost predicate Reaches<S, I, O>(m: Model<S, I, O>, history: seq<Operation<I, O>>, partial: seq<nat>, j: nat, s: S) {
    j <= |partial| && Runs(m, history, partial[..j]) && Run(m, history, partial[..j]) == Some(s)
  }

  /** The visualizer replays a partial linearization and would panic on a step that is refused. */
  method Replay<S, I, O>(m: Model<S, I, O>, history: seq<Operation<I, O>>, partial: seq<nat>) returns (states: seq<S>)
    requires Replays(m, history, partial)
    ensures |states| == |partial|
    ensures forall j: nat | j < |partial| :: Reaches(m, history, partial, j + 1, states[j])
  {
    states := [];
    var state := m.init;
    for j := 0 to |partial|
      invariant |states| == j
      invariant Reaches(m, history, partial, j, state)
      invariant forall i: nat | i < j :: Reaches(m, history, partial, i + 1, states[i])
    {
      RunPrefix(m, history, partial, j + 1);
      assert partial[..j + 1][..j] == partial[..j];
      var op := history[partial[j]];
      var (ok, state') := m.step(state, op.input, op.output);
      assert ok;  // no panic
      state := state';
      states := states + [state];
    }
  }

  /** What a search reports is what the aggregator expects of it: a search that was stopped read a
      set kill flag at some moment of the run before it finished at moment `k`. */
  lemma SearchMayReport<S, I, O>(m: Model<S, I, O>, history: seq<Operation<I, O>>, ok: bool, stopped: Option<nat>,
                                 kill: nat -> bool, job: Parallel.Job, run: seq<Parallel.State>, k: nat, i: nat)
    requires Parallel.IsRun(job, run) && k < |run| && i < |job.truth| && (job.truth[i] <==> Linearizable(m, history))
    requires stopped.Some? ==> exists j: nat :: j <= k && run[j].kill == kill(stopped.value)
    // what CheckHistory ensures
    requires stopped == None ==> (ok <==> Linearizable(m, history))
    requires stopped.Some? ==> !ok && kill(stopped.value)
    ensures Parallel.MayReport(job, run[k], i, ok)
  {
    if stopped.Some? {
      var j: nat :| j <= k && run[j].kill == kill(stopped.value);
      Parallel.KillStays(job, run, j, k);
    }
  }

  /** A key/value history checked key by key: whatever the interleaving, Ok and Illegal are right
      about the whole store. */
  lemma KvVerdictIsRight(h: seq<Kv.Op>, keys: seq<string>, job: Parallel.Job, run: seq<Parallel.State>, k: nat)
    requires WellFormed(h)
    requires forall key :: key in keys <==> Kv.HasKey(h, key)
    requires |job.truth| == |keys|
    requires forall i: nat | i < |keys| :: job.truth[i] <==> Linearizable(Kv.KvModel, Kv.OfKey(h, keys[i]))
    requires Parallel.IsRun(job, run) && k < |run| && run[k].phase.Returned?
    ensures run[k].phase.verdict == Parallel.Ok ==> Linearizable(Kv.StoreModel, h) && StoreLaw.Explainable(h)
    ensures run[k].phase.verdict == Parallel.Illegal ==> !Linearizable(Kv.StoreModel, h) && !StoreLaw.Explainable(h)
  {
    StoreLaw.LinearizableMeansGetsAreRight(h);
    Parallel.VerdictIsRight(job, run, k);
    Locality.Locality(h);
    if Parallel.AllTrue(job) {
      forall key: string ensures Linearizable(Kv.KvModel, Kv.OfKey(h, key)) {
        if key in keys {
          var i :| 0 <= i < |keys| && keys[i] == key;
          assert job.truth[i];
        } else {
          Kv.NoKey(h, key);
          assert IsLinearization(Kv.KvModel, Kv.OfKey(h, key), []);
        }
      }
    }
  }
}
