/**
  Event lists: the calls and returns of a history in the order in which the search scans them.
  `History` reads such a list back as operations whose call and return times are list positions.
 */
module Events {
  import opened Linearizability

  datatype Entry<I, O> =
    | CallEntry(input: I, id: int, time: int)
    | ReturnEntry(output: O, id: int, time: int)

  predicate IsCall<I, O>(es: seq<Entry<I, O>>, p: int, id: int) {
    0 <= p < |es| && es[p].CallEntry? && es[p].id == id
  }

  predicate IsReturn<I, O>(es: seq<Entry<I, O>>, p: int, id: int) {
    0 <= p < |es| && es[p].ReturnEntry? && es[p].id == id
  }

  ghost predicate HasCall<I, O>(es: seq<Entry<I, O>>, id: nat) {
    exists p :: IsCall(es, p, id)
  }

  ghost predicate HasReturn<I, O>(es: seq<Entry<I, O>>, id: nat) {
    exists p :: IsReturn(es, p, id)
  }

  /** Ids are exactly 0..n-1; each has one call and, later, one return. */
  ghost predicate WellFormedEntries<I, O>(es: seq<Entry<I, O>>, n: nat) {
    && |es| == 2 * n
    && (forall p | 0 <= p < |es| :: 0 <= es[p].id < n)
    && (forall id: nat | id < n :: HasCall(es, id) && HasReturn(es, id))
    && (forall p, q, id | IsCall(es, p, id) && IsCall(es, q, id) :: p == q)
    && (forall p, q, id | IsReturn(es, p, id) && IsReturn(es, q, id) :: p == q)
    && (forall p, q, id | IsCall(es, p, id) && IsReturn(es, q, id) :: p < q)
  }

  ghost function CallPos<I, O>(es: seq<Entry<I, O>>, n: nat, id: nat): (p: nat)
    requires WellFormedEntries(es, n) && id < n
    ensures IsCall(es, p, id)
  {
    assert HasCall(es, id);
    var p :| IsCall(es, p, id);
    p
  }

  ghost function ReturnPos<I, O>(es: seq<Entry<I, O>>, n: nat, id: nat): (p: nat)
    requires WellFormedEntries(es, n) && id < n
    ensures IsReturn(es, p, id)
  {
    assert HasReturn(es, id);
    var p :| IsReturn(es, p, id);
    p
  }

  ghost predicate IsOperation<I, O>(es: seq<Entry<I, O>>, op: Operation<I, O>, id: nat) {
    && IsCall(es, op.call, id) && op.input == es[op.call].input
    && IsReturn(es, op.ret, id) && op.output == es[op.ret].output
    && op.call < op.ret
  }

  /** The first `k` operations, their times being list positions. */
  ghost function Operations<I, O>(es: seq<Entry<I, O>>, n: nat, k: nat): (h: seq<Operation<I, O>>)
    requires WellFormedEntries(es, n) && k <= n
    ensures |h| == k
    ensures forall id: nat | id < k :: IsOperation(es, h[id], id)
  {
    if k == 0 then [] else
      var c, r := CallPos(es, n, k - 1), ReturnPos(es, n, k - 1);
      Operations(es, n, k - 1) + [Operation(es[c].input, c, es[r].output, r)]
  }

  ghost function History<I, O>(es: seq<Entry<I, O>>, n: nat): (h: seq<Operation<I, O>>)
    requires WellFormedEntries(es, n)
    ensures |h| == n
    ensures forall id: nat | id < n :: IsOperation(es, h[id], id)
  {
    Operations(es, n, n)
  }

  /** Every position is the call or the return of the operation it names. */
  lemma EventAt<I, O>(es: seq<Entry<I, O>>, n: nat, p: nat)
    requires WellFormedEntries(es, n) && p < |es|
    ensures es[p].id < n
    ensures es[p].CallEntry? ==> History(es, n)[es[p].id].call == p
    ensures es[p].ReturnEntry? ==>
      History(es, n)[es[p].id].ret == p && forall b: nat | b < n :: History(es, n)[b].call != p
  {
    var h := History(es, n);
    var id := es[p].id;
    if es[p].CallEntry? {
      assert IsCall(es, p, id) && IsCall(es, h[id].call, id);
    } else {
      assert IsReturn(es, p, id) && IsReturn(es, h[id].ret, id);
    }
  }
}
