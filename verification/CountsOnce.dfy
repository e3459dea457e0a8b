/**
  Exactly when map output counts once, in every run and whatever dead machines do: whenever
  `MapDone` answers true, the files of the listed workers hold each map task's output once in a
  partition if and only if no listed worker has appended a non-empty part of a task that it is
  not credited with, and none twice
  (src/mr/coordinator.go: MapDone, CompleteTask; src/mr/worker.go: saveIntermediate).
 */
module CountsOnce {
  import opened Linearizability
  import opened Pairs
  import opened Coordinator
  import opened Cluster
  import opened ExactlyOnce
  import opened NothingLost

  // ---------- the worker files are what was appended ----------

  /** The task whose part event `e` appends to worker `w`'s file for partition `r`, if it does. */
  function AppendedTask(s: State, e: Event, w: nat, r: nat): Option<nat> {
    if e == Write(w) && w < |s.workers| && s.workers[w].Mapping? && s.workers[w].written == r
    then Some(s.workers[w].task) else None
  }

  /** The same for every step of a run. */
  ghost function AppendedTasks(run: seq<State>, events: seq<Event>, w: nat, r: nat): (which: seq<Option<nat>>)
    requires |events| < |run|
    ensures |which| == |events| && forall j: nat | j < |events| :: which[j] == AppendedTask(run[j], events[j], w, r)
  {
    seq(|events|, j requires 0 <= j < |events| => AppendedTask(run[j], events[j], w, r))
  }

  /** How often `t` is appended in the first `k` steps. */
  ghost function Occurrences(which: seq<Option<nat>>, t: nat, k: nat): nat
    requires k <= |which|
  {
    if k == 0 then 0 else Occurrences(which, t, k - 1) + (if which[k - 1] == Some(t) then 1 else 0)
  }

  ghost function AllOccurrences(which: seq<Option<nat>>, n: nat, k: nat): (counts: seq<nat>)
    requires k <= |which|
    ensures |counts| == n && forall t: nat | t < n :: counts[t] == Occurrences(which, t, k)
  {
    seq(n, t requires 0 <= t < n => Occurrences(which, t, k))
  }

  /** `n` copies of `a`. */
  ghost function Copies<T>(a: multiset<T>, n: nat): multiset<T> {
    if n == 0 then multiset{} else Copies(a, n - 1) + a
  }

  /** The sum of the first `m` parts, part `t` taken `counts[t]` times. */
  ghost function Weighted<T>(parts: seq<multiset<T>>, counts: seq<nat>, m: nat): multiset<T>
    requires m <= |parts| == |counts|
  {
    if m == 0 then multiset{} else Weighted(parts, counts, m - 1) + Copies(parts[m - 1], counts[m - 1])
  }

  lemma {:induction false} WeightedNone<T>(parts: seq<multiset<T>>, counts: seq<nat>, m: nat)
    requires m <= |parts| == |counts| && forall t: nat | t < m :: counts[t] == 0
    ensures Weighted(parts, counts, m) == multiset{}
  {
    if m > 0 {
      WeightedNone(parts, counts, m - 1);
    }
  }

  lemma {:induction false} WeightedSame<T>(parts: seq<multiset<T>>, counts: seq<nat>, counts': seq<nat>, m: nat)
    requires m <= |parts| == |counts| == |counts'| && forall t: nat | t < m :: counts[t] == counts'[t]
    ensures Weighted(parts, counts, m) == Weighted(parts, counts', m)
  {
    if m > 0 {
      WeightedSame(parts, counts, counts', m - 1);
    }
  }

  lemma {:induction false} WeightedMore<T>(parts: seq<multiset<T>>, counts: seq<nat>, t: nat, m: nat)
    requires t < m <= |parts| == |counts|
    ensures Weighted(parts, counts[t := counts[t] + 1], m) == Weighted(parts, counts, m) + parts[t]
  {
    var counts' := counts[t := counts[t] + 1];
    if t < m - 1 {
      WeightedMore(parts, counts, t, m - 1);
    } else {
      WeightedSame(parts, counts, counts', m - 1);
      assert Copies(parts[t], counts'[t]) == Copies(parts[t], counts[t]) + parts[t];
    }
  }

  /** Bags that start empty and grow by one part at a time hold each part as often as it was added. */
  lemma {:induction false} BagsAddUp<T>(parts: seq<multiset<T>>, bags: seq<multiset<T>>, which: seq<Option<nat>>,
                                        k: nat)
    requires k < |bags| == |which| + 1 && bags[0] == multiset{}
    requires forall j: nat | j < |which| :: Grows(parts, bags[j], which[j], bags[j + 1])
    ensures bags[k] == Weighted(parts, AllOccurrences(which, |parts|, k), |parts|)
  {
    var counts := AllOccurrences(which, |parts|, k);
    if k == 0 {
      WeightedNone(parts, counts, |parts|);
    } else {
      var j := k - 1;
      var before := AllOccurrences(which, |parts|, j);
      BagsAddUp(parts, bags, which, j);
      assert Grows(parts, bags[j], which[j], bags[j + 1]);
      match which[j]
      case None => assert counts == before;
      case Some(t) =>
        assert counts == before[t := before[t] + 1];
        WeightedMore(parts, before, t, |parts|);
    }
  }

  ghost predicate Grows<T>(parts: seq<multiset<T>>, bag: multiset<T>, added: Option<nat>, bag': multiset<T>) {
    match added
    case None => bag' == bag
    case Some(t) => t < |parts| && bag' == bag + parts[t]
  }

  lemma OnlyWritesAppend(job: Job, s: State, e: Event, s': State)
    requires Step(job, s, e, s') && !e.Write?
    ensures s'.files == s.files
  {
  }

  lemma WriteAppends(job: Job, s: State, v: nat, s': State)
    requires Step(job, s, Write(v), s')
    ensures v < |s.workers| && s.workers[v].Mapping? && s.workers[v].task < |job.files|
    ensures var t, k := s.workers[v].task, s.workers[v].written; s'.files == Appended(s.files, v, k, Part(job, t, k))
  {
  }

  /** A step changes worker `w`'s file for `r` only by appending one part to it. */
  lemma FileGrows(job: Job, s: State, e: Event, s': State, w: nat, r: nat)
    requires job.nReduce > 0 && Step(job, s, e, s') && r < job.nReduce
    ensures Grows(Parts(job, r), Bag(s.files, w, r), AppendedTask(s, e, w, r), Bag(s'.files, w, r))
  {
    if e.Write? {
      var v := e.w;
      WriteAppends(job, s, v, s');
      var t, k := s.workers[v].task, s.workers[v].written;
      AppendedBag(s.files, v, k, Part(job, t, k), r);
      if v == w && k == r {
        assert Parts(job, r)[t] == multiset(Part(job, t, r));
      } else {
        assert AppendedTask(s, e, w, r) == None && Bag(s'.files, w, r) == Bag(s.files, w, r);
      }
    } else {
      OnlyWritesAppend(job, s, e, s');
    }
  }

  /** Every file holds exactly what its worker appended to it. */
  lemma FilesAreAppends(job: Job, run: seq<State>, events: seq<Event>, w: nat, r: nat, k: nat)
    requires IsRun(job, run, events) && job.nReduce > 0 && r < job.nReduce && k < |run|
    ensures Bag(run[k].files, w, r) ==
      Weighted(Parts(job, r), AllOccurrences(AppendedTasks(run, events, w, r), |job.files|, k), |job.files|)
  {
    var parts, which := Parts(job, r), AppendedTasks(run, events, w, r);
    var bags := seq(|run|, j requires 0 <= j < |run| => Bag(run[j].files, w, r));
    forall j: nat | j < |which| ensures Grows(parts, bags[j], which[j], bags[j + 1]) {
      FileGrows(job, run[j], events[j], run[j + 1], w, r);
    }
    BagsAddUp(parts, bags, which, k);
  }

  /** A worker that is credited with a task has appended it to every partition. */
  lemma {:induction false} CreditedAppended(job: Job, run: seq<State>, events: seq<Event>, w: nat, t: nat, r: nat,
                                            k: nat)
    requires IsRun(job, run, events) && r < job.nReduce && k < |run|
    requires w < |run[k].workers| && t < |run[k].c.tasks| && Wrote(run[k], w, t, r)
    ensures Occurrences(AppendedTasks(run, events, w, r), t, k) > 0
  {
    if k > 0 {
      RunGood(job, run, events, k - 1);
      RunGood(job, run, events, k);
      CreditFrom(job, run[k - 1], events[k - 1], run[k - 1 + 1], w, t, r);
      if AppendedTask(run[k - 1], events[k - 1], w, r) != Some(t) {
        CreditedAppended(job, run, events, w, t, r, k - 1);
      }
    }
  }

  lemma CreditFrom(job: Job, s: State, e: Event, s': State, w: nat, t: nat, r: nat)
    requires Good(job, s) && Good(job, s') && Step(job, s, e, s') && r < job.nReduce
    requires w < |s'.workers| && t < |s'.c.tasks| && Wrote(s', w, t, r)
    ensures AppendedTask(s, e, w, r) == Some(t) || (w < |s.workers| && t < |s.c.tasks| && Wrote(s, w, t, r))
  {
    if w < |s.workers| && !(e == Write(w) && s.workers[w].written == r) {
      CreditShrinks(job, s, e, s', w, r);
      assert t in WroteSet(s', w, r);
    }
  }

  // ---------- surplus ----------

  /** Copies beyond what is due are visible unless they are copies of nothing. */
  lemma {:induction false} CopiesExact<T>(a: multiset<T>, n: nat, due: nat)
    requires due <= 1 && due <= n
    ensures Copies(a, due) <= Copies(a, n)
    ensures Copies(a, n) == Copies(a, due) <==> a == multiset{} || n == due
  {
    if n > due {
      CopiesExact(a, n - 1, due);
      assert Copies(a, n) == Copies(a, n - 1) + a;
      if a != multiset{} {
        assert |Copies(a, n)| > |Copies(a, n - 1)| >= |Copies(a, due)|;
      }
    }
  }

  /** Two sums with smaller and larger summands agree exactly if the summands do. */
  lemma SumsAgree<T>(a: multiset<T>, b: multiset<T>, a': multiset<T>, b': multiset<T>)
    requires a <= a' && b <= b'
    ensures a + b <= a' + b'
    ensures a' + b' == a + b <==> a' == a && b' == b
  {
    if a' + b' == a + b {
      forall x ensures a'[x] == a[x] && b'[x] == b[x] {
        assert (a' + b')[x] == a'[x] + b'[x] && (a + b)[x] == a[x] + b[x];
        assert a[x] <= a'[x] && b[x] <= b'[x];
      }
    }
  }

  /** Part `t` is taken once if it is in `done`, and otherwise not at all, unless it is empty. */
  ghost predicate Due<T>(parts: seq<multiset<T>>, counts: seq<nat>, done: set<nat>, t: nat)
    requires t < |parts| == |counts|
  {
    parts[t] == multiset{} || counts[t] == if t in done then 1 else 0
  }

  ghost predicate AllDue<T>(parts: seq<multiset<T>>, counts: seq<nat>, done: set<nat>, m: nat)
    requires m <= |parts| == |counts|
  {
    forall t: nat | t < m :: Due(parts, counts, done, t)
  }

  lemma {:induction false} WeightedExact<T>(parts: seq<multiset<T>>, counts: seq<nat>, done: set<nat>, m: nat)
    requires m <= |parts| == |counts| && forall t: nat | t < m && t in done :: counts[t] > 0
    ensures Sum(parts, done, m) <= Weighted(parts, counts, m)
    ensures Weighted(parts, counts, m) == Sum(parts, done, m) <==> AllDue(parts, counts, done, m)
  {
    if m > 0 {
      var last := m - 1;
      var due := if last in done then 1 else 0;
      WeightedExact(parts, counts, done, last);
      CopiesExact(parts[last], counts[last], due);
      CopiesDue(parts[last], due);
      SumsAgree(Sum(parts, done, last), Copies(parts[last], due),
                Weighted(parts, counts, last), Copies(parts[last], counts[last]));
      assert AllDue(parts, counts, done, m) <==> AllDue(parts, counts, done, last) && Due(parts, counts, done, last);
    }
  }

  lemma CopiesDue<T>(a: multiset<T>, due: nat)
    requires due <= 1
    ensures Copies(a, due) == if due == 1 then a else multiset{}
  {
    if due == 1 {
      assert Copies(a, 0) == multiset{};
    }
  }

  // ---------- the exact condition ----------

  /** Up to step `k` worker `w` has appended, of the parts of `r` that are not empty, exactly those
      of the tasks it is credited with, once each. */
  ghost predicate AppendedOnce(job: Job, run: seq<State>, events: seq<Event>, w: nat, r: nat, k: nat)
    requires job.nReduce > 0 && k <= |events| < |run| && |run[k].c.tasks| == |job.files|
  {
    forall t: nat | t < |job.files| && Part(job, t, r) != [] ::
      Occurrences(AppendedTasks(run, events, w, r), t, k) == if run[k].c.tasks[t].worker == w then 1 else 0
  }

  lemma OwnExactly(job: Job, run: seq<State>, events: seq<Event>, w: nat, r: nat, k: nat)
    requires IsRun(job, run, events) && job.nReduce > 0 && r < job.nReduce && k < |run| && w < |run[k].workers|
    requires MapComplete(run[k].c)
    ensures |run[k].c.tasks| == |job.files|
    ensures Bag(run[k].files, w, r) == Sum(Parts(job, r), TasksOf(run[k].c, [w]), |job.files|) <==>
      AppendedOnce(job, run, events, w, r, k)
  {
    RunGood(job, run, events, k);
    var parts, done := Parts(job, r), TasksOf(run[k].c, [w]);
    var counts := AllOccurrences(AppendedTasks(run, events, w, r), |job.files|, k);
    FilesAreAppends(job, run, events, w, r, k);
    forall t: nat | t < |job.files| && t in done ensures counts[t] > 0 {
      assert run[k].c.tasks[t].status == Completed;
      CreditedAppended(job, run, events, w, t, r, k);
    }
    WeightedExact(parts, counts, done, |job.files|);
    DueMeansOnce(job, run, events, w, r, k);
  }

  lemma DueMeansOnce(job: Job, run: seq<State>, events: seq<Event>, w: nat, r: nat, k: nat)
    requires job.nReduce > 0 && k <= |events| < |run| && |run[k].c.tasks| == |job.files|
    ensures AllDue(Parts(job, r), AllOccurrences(AppendedTasks(run, events, w, r), |job.files|, k),
                   TasksOf(run[k].c, [w]), |job.files|) <==>
      AppendedOnce(job, run, events, w, r, k)
  {
    var parts, done := Parts(job, r), TasksOf(run[k].c, [w]);
    var counts := AllOccurrences(AppendedTasks(run, events, w, r), |job.files|, k);
    forall t: nat | t < |job.files|
      ensures Due(parts, counts, done, t) <==>
        (Part(job, t, r) == []
          || Occurrences(AppendedTasks(run, events, w, r), t, k) == if run[k].c.tasks[t].worker == w then 1 else 0)
    {
      assert |parts[t]| == |Part(job, t, r)|;
    }
  }

  /** All listed files together are right exactly if each of them is. */
  lemma {:induction false} GatherExactly(job: Job, s: State, workers: seq<nat>, r: nat)
    requires LossFree(job, s) && MapComplete(s.c) && r < job.nReduce && Distinct(workers)
    requires forall w | w in workers :: w < |s.workers|
    ensures Gather(s.files, workers, r) == Sum(Parts(job, r), TasksOf(s.c, workers), |job.files|) <==>
      forall w | w in workers :: Bag(s.files, w, r) == Sum(Parts(job, r), TasksOf(s.c, [w]), |job.files|)
    decreases |workers|
  {
    if workers == [] {
      SumNone(Parts(job, r), |job.files|);
      assert TasksOf(s.c, workers) == {};
    } else {
      var init, w := workers[..|workers| - 1], workers[|workers| - 1];
      assert workers == init + [w];
      assert forall v :: v in workers <==> v in init || v == w;
      GatherExactly(job, s, init, r);
      GatherCovers(job, s, init, r);
      OwnCovered(job, s, w, r);
      assert w !in init;
      TasksOfSnoc(s.c, init, w);
      SumUnion(Parts(job, r), TasksOf(s.c, init), TasksOf(s.c, [w]), |job.files|);
      assert Gather(s.files, workers, r) == Gather(s.files, init, r) + Bag(s.files, w, r);
      SumsAgree(Sum(Parts(job, r), TasksOf(s.c, init), |job.files|), Sum(Parts(job, r), TasksOf(s.c, [w]), |job.files|),
                Gather(s.files, init, r), Bag(s.files, w, r));
    }
  }

  /** In every run, at the moment MapDone answers true: partition `r` holds each map task's output
      exactly once if and only if every listed worker has appended its own tasks to it once and,
      except for empty parts, nothing else. */
  lemma CountsOnceExactlyWhen(job: Job, run: seq<State>, events: seq<Event>, k: nat, workers: seq<nat>, r: nat)
    requires IsRun(job, run, events) && job.nReduce > 0 && k < |run|
    requires MapComplete(run[k].c) && ListsWorkers(run[k].c, workers) && r < job.nReduce
    ensures |run[k].c.tasks| == |job.files|
    ensures Gather(run[k].files, workers, r) == Everything(job, r) <==>
      forall w | w in workers :: AppendedOnce(job, run, events, w, r, k)
  {
    var s := run[k];
    RunLossFree(job, run, events, k);
    forall w | w in workers
      ensures w < |s.workers|
      ensures Bag(s.files, w, r) == Sum(Parts(job, r), TasksOf(s.c, [w]), |job.files|) <==>
        AppendedOnce(job, run, events, w, r, k)
    {
      ListedAreLive(s.c, workers, w);
      OwnExactly(job, run, events, w, r, k);
    }
    GatherExactly(job, s, workers, r);
    ListedDidEverything(s.c, workers);
  }
}
