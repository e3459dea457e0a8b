/**
  Turning operations with timestamps into the event list that the search scans
  (src/porcupine/checker.go: byTime.Less, makeEntries).
 */
module MakeEntries {
  import opened Linearizability
  import opened Events
  import opened Sorting

  /** By time; at the same time, calls come before returns. */
  predicate Less<I, O>(a: Entry<I, O>, b: Entry<I, O>) {
    if a.time != b.time then a.time < b.time else a.CallEntry? && b.ReturnEntry?
  }

  lemma LessIsStrictWeak<I(!new), O(!new)>()
    ensures StrictWeakOrder<Entry<I, O>>(Less)
  {
  }

  function CallOf<I, O>(history: seq<Operation<I, O>>, id: nat): Entry<I, O>
    requires id < |history|
  {
    CallEntry(history[id].input, id, history[id].call)
  }

  function ReturnOf<I, O>(history: seq<Operation<I, O>>, id: nat): Entry<I, O>
    requires id < |history|
  {
    ReturnEntry(history[id].output, id, history[id].ret)
  }

  /** A call and a return for each operation, before sorting. */
  ghost predicate IsRaw<I, O>(history: seq<Operation<I, O>>, raw: seq<Entry<I, O>>, n: nat)
    requires n <= |history|
  {
    && |raw| == 2 * n
    && forall i: nat | i < n :: raw[2 * i] == CallOf(history, i) && raw[2 * i + 1] == ReturnOf(history, i)
  }

  ghost predicate IsEntryOf<I, O>(history: seq<Operation<I, O>>, e: Entry<I, O>) {
    0 <= e.id < |history| && (e == CallOf(history, e.id) || e == ReturnOf(history, e.id))
  }

  /** `es` holds exactly the calls and returns of `history`, once each. */
  ghost predicate Lists<I, O>(history: seq<Operation<I, O>>, es: seq<Entry<I, O>>) {
    && |es| == 2 * |history|
    && (forall e | e in es :: IsEntryOf(history, e))
    && (forall id: nat | id < |history| :: CallOf(history, id) in es && ReturnOf(history, id) in es)
    && (forall p, q | 0 <= p < q < |es| :: es[p] != es[q])
  }

  method MakeEntries<I(!new), O(!new)>(history: seq<Operation<I, O>>) returns (es: seq<Entry<I, O>>)
    ensures Lists(history, es) && Sorted<Entry<I, O>>(es, Less)
  {
    var entries: seq<Entry<I, O>> := [];
    for id := 0 to |history|
      invariant IsRaw(history, entries, id)
    {
      entries := entries + [CallEntry(history[id].input, id, history[id].call)];
      entries := entries + [ReturnEntry(history[id].output, id, history[id].ret)];
    }
    LessIsStrictWeak<I, O>();
    es := Sort(entries, Less);
    PermutationLists(history, entries, es);
  }

  lemma PermutationLists<I, O>(history: seq<Operation<I, O>>, raw: seq<Entry<I, O>>, es: seq<Entry<I, O>>)
    requires IsRaw(history, raw, |history|) && multiset(es) == multiset(raw)
    ensures Lists(history, es)
  {
    forall p, q | 0 <= p < q < |raw| ensures raw[p] != raw[q] {
      RawAt(history, raw, p);
      RawAt(history, raw, q);
    }
    DistinctPermutation(raw, es);
    assert |es| == |multiset(es)| == |multiset(raw)| == |raw|;
    forall e | e in es ensures IsEntryOf(history, e) {
      assert e in multiset(raw);
      var p :| 0 <= p < |raw| && raw[p] == e;
      RawAt(history, raw, p);
    }
    forall id: nat | id < |history| ensures CallOf(history, id) in es && ReturnOf(history, id) in es {
      assert raw[2 * id] in multiset(es) && raw[2 * id + 1] in multiset(es);
    }
  }

  lemma RawAt<I, O>(history: seq<Operation<I, O>>, raw: seq<Entry<I, O>>, p: nat)
    requires IsRaw(history, raw, |history|) && p < |raw|
    ensures p / 2 < |history|
    ensures raw[p] == if p % 2 == 0 then CallOf(history, p / 2) else ReturnOf(history, p / 2)
  {
    assert p == 2 * (p / 2) + p % 2;
  }

  // ---------- the order of the entries is real time ----------

  /** Return `a` comes before call `b` in the entries exactly when `a` returned before `b` was called. */
  lemma OrderIsRealTime<I, O>(history: seq<Operation<I, O>>, es: seq<Entry<I, O>>, p: nat, a: nat, q: nat, b: nat)
    requires Lists(history, es) && Sorted<Entry<I, O>>(es, Less)
    requires IsReturn(es, p, a) && IsCall(es, q, b)
    ensures a < |history| && b < |history|
    ensures p < q <==> history[a].ret < history[b].call
  {
    assert es[p] in es && es[q] in es;
    assert p != q;
  }

  lemma EntriesWellFormed<I, O>(history: seq<Operation<I, O>>, es: seq<Entry<I, O>>)
    requires WellFormed(history) && Lists(history, es) && Sorted<Entry<I, O>>(es, Less)
    ensures WellFormedEntries(es, |history|)
  {
    var n := |history|;
    forall p | 0 <= p < |es| ensures 0 <= es[p].id < n {
      assert es[p] in es;
    }
    forall id: nat | id < n ensures HasCall(es, id) && HasReturn(es, id) {
      var p :| 0 <= p < |es| && es[p] == CallOf(history, id);
      var q :| 0 <= q < |es| && es[q] == ReturnOf(history, id);
      assert IsCall(es, p, id) && IsReturn(es, q, id);
    }
    forall p, q, id | IsCall(es, p, id) && IsCall(es, q, id) ensures p == q {
      assert es[p] in es && es[q] in es;
    }
    forall p, q, id | IsReturn(es, p, id) && IsReturn(es, q, id) ensures p == q {
      assert es[p] in es && es[q] in es;
    }
    forall p, q, id | IsCall(es, p, id) && IsReturn(es, q, id) ensures p < q {
      assert es[p] in es && es[q] in es;
      OrderIsRealTime(history, es, q, id, p, id);
    }
  }

  lemma SameValues<I, O>(history: seq<Operation<I, O>>, es: seq<Entry<I, O>>, id: nat)
    requires Lists(history, es) && WellFormedEntries(es, |history|) && id < |history|
    ensures var op := History(es, |history|)[id]; op.input == history[id].input && op.output == history[id].output
  {
    var op := History(es, |history|)[id];
    assert IsOperation(es, op, id);
    assert es[op.call] in es && es[op.ret] in es;
  }

  lemma SamePrecedence<I, O>(history: seq<Operation<I, O>>, es: seq<Entry<I, O>>, a: nat, b: nat)
    requires Lists(history, es) && Sorted<Entry<I, O>>(es, Less) && WellFormedEntries(es, |history|)
    requires a < |history| && b < |history|
    ensures Precedes(History(es, |history|), a, b) <==> Precedes(history, a, b)
  {
    var h := History(es, |history|);
    assert IsOperation(es, h[a], a) && IsOperation(es, h[b], b);
    OrderIsRealTime(history, es, h[a].ret, a, h[b].call, b);
  }

  /** The entries are linearizable exactly when the operations are. */
  lemma SameHistory<S, I, O>(m: Model<S, I, O>, history: seq<Operation<I, O>>, es: seq<Entry<I, O>>)
    requires WellFormed(history) && Lists(history, es) && Sorted<Entry<I, O>>(es, Less)
    ensures WellFormedEntries(es, |history|)
    ensures Linearizable(m, History(es, |history|)) <==> Linearizable(m, history)
    ensures SameUpToClock(History(es, |history|), history)
  {
    EntriesWellFormed(history, es);
    var h := History(es, |history|);
    forall id: nat | id < |history| ensures h[id].input == history[id].input && h[id].output == history[id].output {
      SameValues(history, es, id);
    }
    forall a: nat, b: nat | a < |history| && b < |history| ensures Precedes(h, a, b) <==> Precedes(history, a, b) {
      SamePrecedence(history, es, a, b);
    }
    ClockIsIrrelevant(m, h, history);
  }
}
