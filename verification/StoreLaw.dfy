/**
  What get, put and append mean (src/models/kv.go: Step), said without the step function: the
  value of a key is the last value put, followed by everything appended to it since, and an order
  of operations is legal exactly if every get in it returned that value.
 */
module StoreLaw {
  import opened Linearizability
  import opened Kv

  predicate IsGet(h: seq<Op>, id: nat)
    requires id < |h|
  {
    h[id].input.op == 0
  }

  predicate PutsTo(h: seq<Op>, id: nat, key: string)
    requires id < |h|
  {
    h[id].input.op == 1 && h[id].input.key == key
  }

  predicate AppendsTo(h: seq<Op>, id: nat, key: string)
    requires id < |h|
  {
    h[id].input.op >= 2 && h[id].input.key == key
  }

  /** The position of the last put to `key`, or -1. */
  function LastPut(h: seq<Op>, key: string, order: seq<nat>): (p: int)
    requires InRange(|h|, order)
    ensures -1 <= p < |order|
    ensures p >= 0 ==> PutsTo(h, order[p], key)
    ensures forall i | p < i < |order| :: !PutsTo(h, order[i], key)
    decreases |order|
  {
    if order == [] then -1
    else if PutsTo(h, order[|order| - 1], key) then |order| - 1
    else LastPut(h, key, order[..|order| - 1])
  }

  /** What is appended to `key` at the positions from `from` on, one after the other. */
  function AppendedFrom(h: seq<Op>, key: string, order: seq<nat>, from: nat): string
    requires InRange(|h|, order) && from <= |order|
    decreases |order| - from
  {
    if from == |order| then "" else
      var rest := AppendedFrom(h, key, order, from + 1);
      if AppendsTo(h, order[from], key) then h[order[from]].input.value + rest else rest
  }

  function ValueAfter(h: seq<Op>, key: string, order: seq<nat>): string
    requires InRange(|h|, order)
  {
    var p := LastPut(h, key, order);
    (if p >= 0 then h[order[p]].input.value else "") + AppendedFrom(h, key, order, p + 1)
  }

  /** Every get returned the value that its key had. */
  ghost predicate GetsAreRight(h: seq<Op>, order: seq<nat>)
    requires InRange(|h|, order)
  {
    forall i: nat | i < |order| && IsGet(h, order[i]) ::
      h[order[i]].output.value == ValueAfter(h, h[order[i]].input.key, order[..i])
  }

  lemma {:induction false} AppendedSnoc(h: seq<Op>, key: string, order: seq<nat>, x: nat, from: nat)
    requires InRange(|h|, order) && x < |h| && from <= |order|
    ensures AppendedFrom(h, key, order + [x], from) ==
      AppendedFrom(h, key, order, from) + (if AppendsTo(h, x, key) then h[x].input.value else "")
    decreases |order| - from
  {
    var order' := order + [x];
    if from < |order| {
      AppendedSnoc(h, key, order, x, from + 1);
      assert order'[from] == order[from];
    } else {
      assert order'[from] == x;
      assert AppendedFrom(h, key, order', from + 1) == "";
    }
  }

  lemma LastPutSnoc(h: seq<Op>, key: string, order: seq<nat>, x: nat)
    requires InRange(|h|, order) && x < |h|
    ensures LastPut(h, key, order + [x]) == if PutsTo(h, x, key) then |order| else LastPut(h, key, order)
  {
    assert (order + [x])[..|order|] == order;
  }

  /** One more operation. */
  lemma ValueSnoc(h: seq<Op>, key: string, order: seq<nat>, x: nat)
    requires InRange(|h|, order) && x < |h|
    ensures ValueAfter(h, key, order + [x]) ==
      if PutsTo(h, x, key) then h[x].input.value
      else if AppendsTo(h, x, key) then ValueAfter(h, key, order) + h[x].input.value
      else ValueAfter(h, key, order)
  {
    LastPutSnoc(h, key, order, x);
    if !PutsTo(h, x, key) {
      AppendedSnoc(h, key, order, x, LastPut(h, key, order) + 1);
    } else {
      assert AppendedFrom(h, key, order + [x], |order| + 1) == "";
    }
  }

  lemma GetsSnoc(h: seq<Op>, order: seq<nat>, x: nat)
    requires InRange(|h|, order) && x < |h|
    ensures GetsAreRight(h, order + [x]) <==>
      GetsAreRight(h, order) && (IsGet(h, x) ==> h[x].output.value == ValueAfter(h, h[x].input.key, order))
  {
    var order' := order + [x];
    assert order'[|order|] == x && order'[..|order|] == order;
    forall i: nat | i < |order| ensures order'[i] == order[i] && order'[..i] == order[..i] {
    }
    if GetsAreRight(h, order') {
      forall i: nat | i < |order| && IsGet(h, order[i])
        ensures h[order[i]].output.value == ValueAfter(h, h[order[i]].input.key, order[..i])
      {
        assert order'[i] == order[i] && order'[..i] == order[..i];
      }
    }
  }

  /** What one operation does to the value of one key. */
  lemma StepLawAt(h: seq<Op>, order: seq<nat>, x: nat, st: Store, st': Store, key: string)
    requires InRange(|h|, order) && x < |h| && Get(st, key) == ValueAfter(h, key, order)
    requires StoreStep(st, h[x].input, h[x].output) == (true, st')
    ensures Get(st', key) == ValueAfter(h, key, order + [x])
  {
    ValueSnoc(h, key, order, x);
  }

  /** Every key of the store holds its value. */
  ghost predicate HoldsValues(h: seq<Op>, order: seq<nat>, st: Store)
    requires InRange(|h|, order)
  {
    forall key {:trigger Get(st, key)} :: Get(st, key) == ValueAfter(h, key, order)
  }

  lemma StepLaw(h: seq<Op>, order: seq<nat>, x: nat, st: Store, st': Store)
    requires InRange(|h|, order) && x < |h| && HoldsValues(h, order, st)
    requires StoreStep(st, h[x].input, h[x].output) == (true, st')
    ensures HoldsValues(h, order + [x], st')
  {
    forall key ensures Get(st', key) == ValueAfter(h, key, order + [x]) {
      assert Get(st, key) == ValueAfter(h, key, order);
      StepLawAt(h, order, x, st, st', key);
    }
  }

  lemma StepAllowed(h: seq<Op>, order: seq<nat>, x: nat, st: Store)
    requires InRange(|h|, order) && x < |h| && HoldsValues(h, order, st)
    ensures StoreStep(st, h[x].input, h[x].output).0 <==>
      (IsGet(h, x) ==> h[x].output.value == ValueAfter(h, h[x].input.key, order))
  {
    assert Get(st, h[x].input.key) == ValueAfter(h, h[x].input.key, order);
  }

  /** An order is legal for the store if and only if every get in it is right, and then every key
      holds what was last put to it and appended since. */
  lemma {:induction false} StoreLaw(h: seq<Op>, order: seq<nat>)
    requires InRange(|h|, order)
    ensures Run(StoreModel, h, order).Some? <==> GetsAreRight(h, order)
    ensures Run(StoreModel, h, order).Some? ==> HoldsValues(h, order, Run(StoreModel, h, order).value)
    decreases |order|
  {
    if order != [] {
      var last := |order| - 1;
      var init, x := order[..last], order[last];
      assert order == init + [x];
      StoreLaw(h, init);
      GetsSnoc(h, init, x);
      if Run(StoreModel, h, init).Some? {
        var st := Run(StoreModel, h, init).value;
        StepAllowed(h, init, x, st);
        var (ok, st') := StoreStep(st, h[x].input, h[x].output);
        if ok {
          StepLaw(h, init, x, st, st');
        }
      }
    }
  }

  /** The store's history is linearizable exactly if some real-time order makes every get right. */
  lemma LinearizableMeansGetsAreRight(h: seq<Op>)
    ensures Linearizable(StoreModel, h) <==> Explainable(h)
  {
    forall order: seq<nat> | InRange(|h|, order) ensures Run(StoreModel, h, order).Some? <==> GetsAreRight(h, order) {
      StoreLaw(h, order);
    }
    if order: seq<nat> :| IsLinearization(StoreModel, h, order) {
      assert IsCandidate(h, order);
    }
    if order: seq<nat> :| IsCandidate(h, order) && GetsAreRight(h, order) {
      assert IsLinearization(StoreModel, h, order);
    }
  }

  ghost predicate Explainable(h: seq<Op>) {
    exists order: seq<nat> :: IsCandidate(h, order) && GetsAreRight(h, order)
  }

  /** An order of all operations that respects real time. */
  ghost predicate IsCandidate(h: seq<Op>, order: seq<nat>) {
    && InRange(|h|, order) && Distinct(order) && |order| == |h|
    && forall i, j {:trigger Precedes(h, order[j], order[i])} | 0 <= i < j < |order| :: !Precedes(h, order[j], order[i])
  }
}
