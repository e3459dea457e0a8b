/**
  What it means for a concurrent history to be linearizable with respect to a
  sequential model.  Operations are named by their index in the history, and a
  candidate linearization is a sequence of such names.

  Nothing in this module mentions how the checker searches: it is the reference
  that the search is proved against.
 */
module Linearizability {

  datatype Option<+T> = None | Some(value: T)

  /** One operation of a history: what was asked, what came back, and when. */
  datatype Operation<I, O> = Operation(input: I, call: int, output: O, ret: int)

  /** The sequential specification; equality on states is real equality. */
  datatype Model<!S, !I, !O> = Model(init: S, step: (S, I, O) -> (bool, S))

  predicate WellFormed<I, O>(h: seq<Operation<I, O>>) {
    forall i | 0 <= i < |h| :: h[i].call <= h[i].ret
  }

  predicate InRange(n: nat, order: seq<nat>) {
    forall i | 0 <= i < |order| :: order[i] < n
  }

  predicate Distinct<T(==)>(s: seq<T>) {
    forall i, j | 0 <= i < j < |s| :: s[i] != s[j]
  }

  function Elems<T>(s: seq<T>): set<T> {
    set x | x in s
  }

  /** Real-time precedence: `a` had returned before `b` was called. */
  predicate Precedes<I, O>(h: seq<Operation<I, O>>, a: nat, b: nat)
    requires a < |h| && b < |h|
  {
    h[a].ret < h[b].call
  }

  function StepOp<S, I, O>(m: Model<S, I, O>, h: seq<Operation<I, O>>, s: S, id: nat): Option<S>
    requires id < |h|
  {
    var (ok, s') := m.step(s, h[id].input, h[id].output);
    if ok then Some(s') else None
  }

  /** The state after running `order` from the initial state, if every step is allowed. */
  function Run<S, I, O>(m: Model<S, I, O>, h: seq<Operation<I, O>>, order: seq<nat>): Option<S>
    requires InRange(|h|, order)
    decreases |order|
  {
    if order == [] then Some(m.init) else
      var last := |order| - 1;
      match Run(m, h, order[..last])
      case None => None
      case Some(s) => StepOp(m, h, s, order[last])
  }

  /** Herlihy and Wing: some legal permutation in which nothing is ordered after an
      operation that was called only once it had returned. */
  ghost predicate IsLinearization<S, I, O>(m: Model<S, I, O>, h: seq<Operation<I, O>>, order: seq<nat>) {
    && InRange(|h|, order) && Distinct(order) && |order| == |h|
    && Run(m, h, order).Some?
    && forall i, j {:trigger Precedes(h, order[j], order[i])} | 0 <= i < j < |order| :: !Precedes(h, order[j], order[i])
  }

  ghost predicate Linearizable<S, I, O>(m: Model<S, I, O>, h: seq<Operation<I, O>>) {
    exists order: seq<nat> :: IsLinearization(m, h, order)
  }

  /** A prefix of a linearization attempt: legal, and every operation in it comes after
      all operations that real time places before it. */
  ghost predicate PredecessorsFirst<I, O>(h: seq<Operation<I, O>>, order: seq<nat>)
    requires InRange(|h|, order)
  {
    forall i: nat, b: nat {:trigger Precedes(h, b, order[i])} | i < |order| && b < |h| && Precedes(h, b, order[i]) ::
      b in order[..i]
  }

  ghost predicate IsPartial<S, I, O>(m: Model<S, I, O>, h: seq<Operation<I, O>>, order: seq<nat>) {
    && InRange(|h|, order) && Distinct(order)
    && PredecessorsFirst(h, order)
    && Run(m, h, order).Some?
  }

  /** `out` holds the elements of `s` with property `p`, in order; they are at the positions `at`. */
  ghost predicate Selects<T>(s: seq<T>, out: seq<T>, at: seq<nat>, p: T -> bool) {
    && |at| == |out| && InRange(|s|, at)
    && (forall i, j | 0 <= i < j < |at| :: at[i] < at[j])
    && (forall i | 0 <= i < |at| :: out[i] == s[at[i]])
    && (forall x: nat | x < |s| :: x in at <==> p(s[x]))
  }

  lemma SelectsSnoc<T>(s: seq<T>, x: T, out: seq<T>, at: seq<nat>, p: T -> bool)
    requires Selects(s, out, at, p)
    ensures if p(x) then Selects(s + [x], out + [x], at + [|s|], p) else Selects(s + [x], out, at, p)
  {
    forall y: nat | y < |s| ensures (s + [x])[y] == s[y] {
    }
  }

  // ---------- counting ----------

  lemma {:induction false} ElemsCard<T>(s: seq<T>)
    requires Distinct(s)
    ensures |Elems(s)| == |s|
  {
    if s != [] {
      var last := |s| - 1;
      ElemsCard(s[..last]);
      ElemsSnoc(s);
    }
  }

  lemma ElemsSnoc<T>(s: seq<T>)
    requires s != []
    ensures Elems(s) == Elems(s[..|s| - 1]) + {s[|s| - 1]}
  {
    assert s == s[..|s| - 1] + [s[|s| - 1]];
  }

  /** The numbers below `n`. */
  function Below(n: nat): (r: set<nat>)
    ensures forall x: nat :: x in r <==> x < n
    ensures |r| == n
  {
    if n == 0 then {} else Below(n - 1) + {n - 1}
  }

  /** A duplicate-free list of `n` numbers below `n` contains them all. */
  lemma Pigeonhole(n: nat, order: seq<nat>)
    requires InRange(n, order) && Distinct(order) && |order| == n
    ensures forall x: nat | x < n :: x in order
  {
    ElemsCard(order);
    SubsetSameCard(Elems(order), Below(n));
    forall x: nat | x < n ensures x in order {
      assert x in Below(n);
    }
  }

  lemma SubsetSameCard<T>(a: set<T>, b: set<T>)
    requires a <= b && |a| == |b|
    ensures a == b
  {
    assert |b - a| == |b| - |a|;
    assert b == a + (b - a);
  }

  lemma {:induction false} SubsetCard<T>(a: set<T>, b: set<T>)
    requires a <= b
    ensures |a| <= |b|
  {
    assert b == a + (b - a);
  }

  // ---------- permutations of duplicate-free lists ----------

  lemma {:induction false} DistinctCounts<T>(s: seq<T>, x: T)
    requires Distinct(s)
    ensures multiset(s)[x] <= 1
  {
    if s != [] {
      var last := |s| - 1;
      assert s == s[..last] + [s[last]];
      DistinctCounts(s[..last], x);
      if x == s[last] {
        assert x !in s[..last];
      }
    }
  }

  lemma DistinctPermutation<T>(s: seq<T>, t: seq<T>)
    requires Distinct(s) && multiset(s) == multiset(t)
    ensures Distinct(t)
  {
    forall p, q | 0 <= p < q < |t| ensures t[p] != t[q] {
      if t[p] == t[q] {
        assert t == t[..q] + t[q..];
        assert t[p] == t[..q][p] && t[q] == t[q..][0];
        assert multiset(t)[t[p]] == multiset(t[..q])[t[p]] + multiset(t[q..])[t[p]];
        DistinctCounts(s, t[p]);
        assert false;
      }
    }
  }

  // ---------- the two readings of real-time order agree ----------

  /** For complete orders the prefix-closed reading and the Herlihy-Wing reading coincide. */
  lemma CompletePartialIsLinearization<S, I, O>(m: Model<S, I, O>, h: seq<Operation<I, O>>, order: seq<nat>)
    requires WellFormed(h) && |order| == |h|
    ensures IsPartial(m, h, order) <==> IsLinearization(m, h, order)
  {
    if IsPartial(m, h, order) {
      forall i, j | 0 <= i < j < |order| ensures !Precedes(h, order[j], order[i]) {
        assert order[j] !in order[..i];
      }
    }
    if IsLinearization(m, h, order) {
      Pigeonhole(|h|, order);
      forall i: nat, b: nat | i < |order| && b < |h| && Precedes(h, b, order[i]) ensures b in order[..i] {
        assert b in order;
        var j :| 0 <= j < |order| && order[j] == b;
        assert order[i] != b;
        assert !(i < j);
        assert order[..i][j] == b;
      }
    }
  }

  /** The same values and the same precedence; the clocks may differ. */
  ghost predicate SameUpToClock<I, O>(h: seq<Operation<I, O>>, g: seq<Operation<I, O>>) {
    && |h| == |g|
    && (forall i | 0 <= i < |h| :: h[i].input == g[i].input && h[i].output == g[i].output)
    && (forall a: nat, b: nat | a < |h| && b < |h| :: Precedes(h, a, b) <==> Precedes(g, a, b))
  }

  lemma SamePartial<S, I, O>(m: Model<S, I, O>, h: seq<Operation<I, O>>, g: seq<Operation<I, O>>, order: seq<nat>)
    requires SameUpToClock(h, g)
    ensures IsPartial(m, h, order) <==> IsPartial(m, g, order)
  {
    if InRange(|h|, order) {
      SameRun(m, h, g, order);
    }
  }

  lemma SameLinearization<S, I, O>(m: Model<S, I, O>, h: seq<Operation<I, O>>, g: seq<Operation<I, O>>, order: seq<nat>)
    requires SameUpToClock(h, g)
    ensures IsLinearization(m, h, order) <==> IsLinearization(m, g, order)
  {
    if InRange(|h|, order) {
      SameRun(m, h, g, order);
    }
  }

  /** Linearizability depends only on the values and on the precedence relation, not on the clock. */
  lemma ClockIsIrrelevant<S, I, O>(m: Model<S, I, O>, h: seq<Operation<I, O>>, g: seq<Operation<I, O>>)
    requires SameUpToClock(h, g)
    ensures Linearizable(m, h) <==> Linearizable(m, g)
  {
    forall order: seq<nat> ensures IsLinearization(m, h, order) <==> IsLinearization(m, g, order) {
      SameLinearization(m, h, g, order);
    }
  }

  lemma {:induction false} SameRun<S, I, O>(m: Model<S, I, O>, h: seq<Operation<I, O>>, g: seq<Operation<I, O>>,
                                            order: seq<nat>)
    requires |h| == |g| && InRange(|h|, order)
    requires forall i | 0 <= i < |h| :: h[i].input == g[i].input && h[i].output == g[i].output
    ensures Run(m, h, order) == Run(m, g, order)
  {
    if order != [] {
      SameRun(m, h, g, order[..|order| - 1]);
    }
  }
}
