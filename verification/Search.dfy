/**
  The invariant of the linearizability search, on values only.

  A search state is the order linearized so far (the undo stack, oldest first), the memo
  cache of (set of linearized operations, model state) pairs, and the position in the event
  list that is looked at next.  The lemmas say what each of the four moves of the search loop
  (push, skip, backtrack, give up) keeps and what the invariant means when the loop ends.
 */
module Search {
  import opened Linearizability

  /** What the memo cache remembers. */
  datatype Config<S> = Config(ids: set<nat>, state: S)

  ghost predicate Runs<S, I, O>(m: Model<S, I, O>, h: seq<Operation<I, O>>, order: seq<nat>) {
    InRange(|h|, order) && Run(m, h, order).Some?
  }

  ghost function ConfigOf<S, I, O>(m: Model<S, I, O>, h: seq<Operation<I, O>>, order: seq<nat>): Config<S>
    requires Runs(m, h, order)
  {
    Config(Elems(order), Run(m, h, order).value)
  }

  /** No unlinearized operation returned before `id` was called. */
  ghost predicate Ready<I, O>(h: seq<Operation<I, O>>, done: set<nat>, id: nat) {
    id < |h| && id !in done && forall b: nat | b < |h| && b !in done :: !Precedes(h, b, id)
  }

  /** `id` can be linearized next, from configuration `c`. */
  ghost predicate Enabled<S, I, O>(m: Model<S, I, O>, h: seq<Operation<I, O>>, c: Config<S>, id: nat) {
    Ready(h, c.ids, id) && StepOp(m, h, c.state, id).Some?
  }

  ghost function Succ<S, I, O>(m: Model<S, I, O>, h: seq<Operation<I, O>>, c: Config<S>, id: nat): Config<S>
    requires Enabled(m, h, c, id)
  {
    Config(c.ids + {id}, StepOp(m, h, c.state, id).value)
  }

  ghost predicate OnStack<S, I, O>(m: Model<S, I, O>, h: seq<Operation<I, O>>, order: seq<nat>, c: Config<S>)
    requires IsPartial(m, h, order)
  {
    exists k: nat :: k <= |order| && At(m, h, order, k) == c
  }

  /** The configuration after the first `k` operations of the stack. */
  ghost function At<S, I, O>(m: Model<S, I, O>, h: seq<Operation<I, O>>, order: seq<nat>, k: nat): Config<S>
    requires IsPartial(m, h, order) && k <= |order|
  {
    PartialPrefix(m, h, order, k);
    ConfigOf(m, h, order[..k])
  }

  /** Some partial linearization reaches `c`. */
  ghost predicate Reachable<S, I, O>(m: Model<S, I, O>, h: seq<Operation<I, O>>, c: Config<S>) {
    exists order: seq<nat> :: IsPartial(m, h, order) && c == ConfigOf(m, h, order)
  }

  /** How far the event list has been scanned at stack level `k`: at the top, everything before
      the current position; below it, everything up to the operation that was pushed there. */
  ghost function Scanned<I, O>(h: seq<Operation<I, O>>, order: seq<nat>, pos: int, k: nat): int
    requires InRange(|h|, order) && k <= |order|
  {
    if k < |order| then h[order[k]].call + 1 else pos
  }

  // ---------- the invariant, clause by clause ----------

  /** Every stack level above the root is cached. */
  ghost predicate StackCached<S, I, O>(m: Model<S, I, O>, h: seq<Operation<I, O>>, order: seq<nat>,
                                       cache: set<Config<S>>)
    requires IsPartial(m, h, order)
  {
    forall k: nat {:trigger At(m, h, order, k)} | 0 < k <= |order| :: At(m, h, order, k) in cache
  }

  /** Cached configurations are reachable, and a complete one can only be the top of the stack. */
  ghost predicate CacheSound<S, I, O>(m: Model<S, I, O>, h: seq<Operation<I, O>>, order: seq<nat>,
                                      cache: set<Config<S>>)
    requires IsPartial(m, h, order)
  {
    && (forall c {:trigger Reachable(m, h, c)} | c in cache :: Reachable(m, h, c))
    && (forall c {:trigger OnStack(m, h, order, c)} | c in cache && |c.ids| == |h| :: OnStack(m, h, order, c))
  }

  /** A cached configuration that is off the stack has all its successors cached and off the stack. */
  ghost predicate CacheClosed<S, I, O>(m: Model<S, I, O>, h: seq<Operation<I, O>>, order: seq<nat>,
                                       cache: set<Config<S>>)
    requires IsPartial(m, h, order)
  {
    forall c, id: nat {:trigger Succ(m, h, c, id)} | c in cache && !OnStack(m, h, order, c) && Enabled(m, h, c, id) ::
      Succ(m, h, c, id) in cache && !OnStack(m, h, order, Succ(m, h, c, id))
  }

  /** At every stack level, whatever was scanned and could be linearized has been. */
  ghost predicate LevelsScanned<S, I, O>(m: Model<S, I, O>, h: seq<Operation<I, O>>, order: seq<nat>,
                                         cache: set<Config<S>>, pos: int)
    requires IsPartial(m, h, order)
  {
    forall k: nat, id: nat {:trigger Succ(m, h, At(m, h, order, k), id)} | k <= |order|
      && Enabled(m, h, At(m, h, order, k), id) && h[id].call < Scanned(h, order, pos, k) ::
      Succ(m, h, At(m, h, order, k), id) in cache
  }

  /** No remaining operation returned before the current position. */
  ghost predicate NoReturnBefore<I, O>(h: seq<Operation<I, O>>, order: seq<nat>, pos: int) {
    forall b: nat | b < |h| && b !in order :: pos <= h[b].ret
  }

  ghost predicate Inv<S, I, O>(m: Model<S, I, O>, h: seq<Operation<I, O>>, order: seq<nat>, cache: set<Config<S>>,
                               pos: int) {
    && IsPartial(m, h, order)
    && StackCached(m, h, order, cache)
    && CacheSound(m, h, order, cache)
    && CacheClosed(m, h, order, cache)
    && LevelsScanned(m, h, order, cache, pos)
    && NoReturnBefore(h, order, pos)
  }

  // ---------- prefixes and extensions of partial linearizations ----------

  lemma {:induction false} RunPrefix<S, I, O>(m: Model<S, I, O>, h: seq<Operation<I, O>>, order: seq<nat>, k: nat)
    requires Runs(m, h, order) && k <= |order|
    ensures Runs(m, h, order[..k])
    decreases |order|
  {
    if k < |order| {
      var last := |order| - 1;
      assert order[..last][..k] == order[..k];
      RunPrefix(m, h, order[..last], k);
    } else {
      assert order[..k] == order;
    }
  }

  lemma PartialPrefix<S, I, O>(m: Model<S, I, O>, h: seq<Operation<I, O>>, order: seq<nat>, k: nat)
    requires IsPartial(m, h, order) && k <= |order|
    ensures IsPartial(m, h, order[..k])
  {
    RunPrefix(m, h, order, k);
    var p := order[..k];
    forall i: nat, b: nat | i < |p| && b < |h| && Precedes(h, b, p[i]) ensures b in p[..i] {
      assert p[i] == order[i];
      assert p[..i] == order[..i];
    }
  }

  lemma Snoc<S, I, O>(m: Model<S, I, O>, h: seq<Operation<I, O>>, order: seq<nat>, id: nat)
    requires IsPartial(m, h, order)
    requires Enabled(m, h, ConfigOf(m, h, order), id)
    ensures IsPartial(m, h, order + [id])
    ensures ConfigOf(m, h, order + [id]) == Succ(m, h, ConfigOf(m, h, order), id)
  {
    var p := order + [id];
    assert p[..|order|] == order;
    forall i: nat, b: nat | i < |p| && b < |h| && Precedes(h, b, p[i]) ensures b in p[..i] {
      if i < |order| {
        assert p[..i] == order[..i];
      } else {
        assert p[..i] == order;
        assert b in Elems(order);
      }
    }
  }

  /** Taking the last operation off a partial linearization: it was enabled there. */
  lemma Unsnoc<S, I, O>(m: Model<S, I, O>, h: seq<Operation<I, O>>, order: seq<nat>)
    requires IsPartial(m, h, order) && order != []
    ensures IsPartial(m, h, order[..|order| - 1])
    ensures Enabled(m, h, ConfigOf(m, h, order[..|order| - 1]), order[|order| - 1])
    ensures ConfigOf(m, h, order) == Succ(m, h, ConfigOf(m, h, order[..|order| - 1]), order[|order| - 1])
  {
    var last := |order| - 1;
    PartialPrefix(m, h, order, last);
    ElemsSnoc(order);
    forall b: nat | b < |h| && b !in Elems(order[..last]) ensures !Precedes(h, b, order[last]) {
      assert b !in order[..last];
    }
  }

  lemma AtSize<S, I, O>(m: Model<S, I, O>, h: seq<Operation<I, O>>, order: seq<nat>, k: nat)
    requires IsPartial(m, h, order) && k <= |order|
    ensures |At(m, h, order, k).ids| == k
  {
    ElemsCard(order[..k]);
  }

  lemma AtPrefix<S, I, O>(m: Model<S, I, O>, h: seq<Operation<I, O>>, order: seq<nat>, j: nat, k: nat)
    requires IsPartial(m, h, order) && k <= j <= |order|
    ensures IsPartial(m, h, order[..j])
    ensures At(m, h, order[..j], k) == At(m, h, order, k)
  {
    PartialPrefix(m, h, order, j);
    assert order[..j][..k] == order[..k];
  }

  /** The level just below the top leads to the top by the operation on top of the stack. */
  lemma AtStep<S, I, O>(m: Model<S, I, O>, h: seq<Operation<I, O>>, order: seq<nat>, k: nat)
    requires IsPartial(m, h, order) && k < |order|
    ensures Enabled(m, h, At(m, h, order, k), order[k])
    ensures Succ(m, h, At(m, h, order, k), order[k]) == At(m, h, order, k + 1)
  {
    PartialPrefix(m, h, order, k + 1);
    Unsnoc(m, h, order[..k + 1]);
    assert order[..k + 1][..k] == order[..k];
  }

  /** Configurations on a longer stack that are not its top are on the shorter one. */
  lemma OnStackSnoc<S, I, O>(m: Model<S, I, O>, h: seq<Operation<I, O>>, order: seq<nat>, c: Config<S>)
    requires IsPartial(m, h, order) && order != []
    ensures IsPartial(m, h, order[..|order| - 1])
    ensures OnStack(m, h, order, c) <==> c == At(m, h, order, |order|) || OnStack(m, h, order[..|order| - 1], c)
  {
    var last := |order| - 1;
    PartialPrefix(m, h, order, last);
    forall k: nat | k <= last ensures At(m, h, order[..last], k) == At(m, h, order, k) {
      AtPrefix(m, h, order, last, k);
    }
    if OnStack(m, h, order, c) {
      var k: nat :| k <= |order| && At(m, h, order, k) == c;
      assert k <= last ==> At(m, h, order[..last], k) == c;
    }
    if OnStack(m, h, order[..last], c) {
      var k: nat :| k <= last && At(m, h, order[..last], k) == c;
      assert At(m, h, order, k) == c;
    }
  }

  /** A configuration on the stack has at most as many operations as the stack. */
  lemma OnStackSize<S, I, O>(m: Model<S, I, O>, h: seq<Operation<I, O>>, order: seq<nat>, c: Config<S>)
    requires IsPartial(m, h, order) && OnStack(m, h, order, c)
    ensures |c.ids| <= |order|
  {
    var k: nat :| k <= |order| && At(m, h, order, k) == c;
    AtSize(m, h, order, k);
  }

  // ---------- the moves of the search ----------

  lemma InvInit<S, I, O>(m: Model<S, I, O>, h: seq<Operation<I, O>>, pos: int)
    requires forall b: nat | b < |h| :: pos <= h[b].call && pos <= h[b].ret
    ensures Inv(m, h, [], {}, pos)
  {
    assert IsPartial(m, h, []);
  }

  /** Every event has its own position. */
  ghost predicate DistinctCalls<I, O>(h: seq<Operation<I, O>>) {
    forall a: nat, b: nat | a < |h| && b < |h| && h[a].call == h[b].call :: a == b
  }

  /** The scan stands at `pos` and no operation outside `done` was called before it. */
  ghost predicate AtFirst<I, O>(h: seq<Operation<I, O>>, done: seq<nat>, pos: int) {
    forall b: nat | b < |h| && b !in done :: pos <= h[b].call && pos <= h[b].ret
  }

  /** Moving the cursor from the call of `id` to `pos` passes no other remaining event. */
  ghost predicate Passed<I, O>(h: seq<Operation<I, O>>, order: seq<nat>, id: nat, pos: int)
    requires id < |h|
  {
    && (forall b: nat | b < |h| && b !in order && b != id && h[id].call <= h[b].call :: pos <= h[b].call)
    && NoReturnBefore(h, order, pos)
  }

  lemma TopEnabled<S, I, O>(m: Model<S, I, O>, h: seq<Operation<I, O>>, order: seq<nat>, pos: int, id: nat)
    requires IsPartial(m, h, order) && NoReturnBefore(h, order, pos)
    requires id < |h| && id !in order && h[id].call == pos
    requires StepOp(m, h, Run(m, h, order).value, id).Some?
    ensures Enabled(m, h, ConfigOf(m, h, order), id)
    ensures At(m, h, order, |order|) == ConfigOf(m, h, order)
  {
    assert order[..|order|] == order;
    forall b: nat | b < |h| && b !in Elems(order) ensures !Precedes(h, b, id) {
      assert b !in order;
    }
  }

  /** Linearizing the operation under the cursor and starting again from the front of the list. */
  lemma Push<S, I, O>(m: Model<S, I, O>, h: seq<Operation<I, O>>, order: seq<nat>, cache: set<Config<S>>, pos: int,
                      id: nat, pos': int)
    requires DistinctCalls(h) && Inv(m, h, order, cache, pos)
    requires id < |h| && id !in order && h[id].call == pos
    requires StepOp(m, h, Run(m, h, order).value, id).Some?
    requires Config(Elems(order) + {id}, StepOp(m, h, Run(m, h, order).value, id).value) !in cache
    requires AtFirst(h, order + [id], pos')
    ensures Inv(m, h, order + [id],
                cache + {Config(Elems(order) + {id}, StepOp(m, h, Run(m, h, order).value, id).value)}, pos')
  {
    TopEnabled(m, h, order, pos, id);
    var c := ConfigOf(m, h, order);
    var succ := Succ(m, h, c, id);
    var order' := order + [id];
    Snoc(m, h, order, id);
    assert order'[..|order|] == order;
    PushStack(m, h, order, cache, id, succ);
    PushLevels(m, h, order, cache, pos, id, succ, pos');
    PushClosed(m, h, order, cache, id, succ);
    PushSound(m, h, order, cache, id, succ);
  }

  lemma PushStack<S, I, O>(m: Model<S, I, O>, h: seq<Operation<I, O>>, order: seq<nat>, cache: set<Config<S>>,
                           id: nat, succ: Config<S>)
    requires IsPartial(m, h, order) && IsPartial(m, h, order + [id])
    requires StackCached(m, h, order, cache) && succ == ConfigOf(m, h, order + [id])
    ensures StackCached(m, h, order + [id], cache + {succ})
  {
    var order' := order + [id];
    assert order'[..|order|] == order;
    forall k: nat | 0 < k <= |order'| ensures At(m, h, order', k) in cache + {succ} {
      if k <= |order| {
        AtPrefix(m, h, order', |order|, k);
      } else {
        assert order'[..k] == order';
      }
    }
  }

  /** While an operation is left over, no cached configuration is complete. */
  lemma NoneComplete<S, I, O>(m: Model<S, I, O>, h: seq<Operation<I, O>>, order: seq<nat>, cache: set<Config<S>>,
                              id: nat)
    requires IsPartial(m, h, order) && CacheSound(m, h, order, cache)
    requires id < |h| && id !in order
    ensures forall c | c in cache :: |c.ids| != |h|
  {
    ElemsCard(order);
    SubsetCard(Elems(order) + {id}, Below(|h|));
    forall c | c in cache ensures |c.ids| != |h| {
      if |c.ids| == |h| {
        OnStackSize(m, h, order, c);
        assert false;
      }
    }
  }

  lemma PushSound<S, I, O>(m: Model<S, I, O>, h: seq<Operation<I, O>>, order: seq<nat>, cache: set<Config<S>>,
                           id: nat, succ: Config<S>)
    requires IsPartial(m, h, order) && IsPartial(m, h, order + [id]) && id !in order
    requires CacheSound(m, h, order, cache) && succ == ConfigOf(m, h, order + [id])
    ensures CacheSound(m, h, order + [id], cache + {succ})
  {
    var order' := order + [id];
    assert order'[..|order'|] == order';
    assert At(m, h, order', |order'|) == succ;
    assert OnStack(m, h, order', succ);
    NoneComplete(m, h, order, cache, id);
  }

  lemma PushClosed<S, I, O>(m: Model<S, I, O>, h: seq<Operation<I, O>>, order: seq<nat>, cache: set<Config<S>>,
                            id: nat, succ: Config<S>)
    requires IsPartial(m, h, order) && IsPartial(m, h, order + [id])
    requires CacheClosed(m, h, order, cache) && succ == ConfigOf(m, h, order + [id]) && succ !in cache
    ensures CacheClosed(m, h, order + [id], cache + {succ})
  {
    var order' := order + [id];
    assert order'[..|order|] == order && order'[..|order'|] == order';
    forall c, x: nat | c in cache + {succ} && !OnStack(m, h, order', c) && Enabled(m, h, c, x)
      ensures Succ(m, h, c, x) in cache + {succ} && !OnStack(m, h, order', Succ(m, h, c, x))
    {
      OnStackSnoc(m, h, order', c);
      OnStackSnoc(m, h, order', Succ(m, h, c, x));
    }
  }

  lemma PushLevels<S, I, O>(m: Model<S, I, O>, h: seq<Operation<I, O>>, order: seq<nat>, cache: set<Config<S>>,
                            pos: int, id: nat, succ: Config<S>, pos': int)
    requires IsPartial(m, h, order) && IsPartial(m, h, order + [id])
    requires DistinctCalls(h) && LevelsScanned(m, h, order, cache, pos) && h[id].call == pos
    requires Enabled(m, h, ConfigOf(m, h, order), id) && succ == Succ(m, h, ConfigOf(m, h, order), id)
    requires AtFirst(h, order + [id], pos')
    ensures LevelsScanned(m, h, order + [id], cache + {succ}, pos')
  {
    var order' := order + [id];
    assert order'[..|order|] == order && order[..|order|] == order;
    forall k: nat, x: nat | k <= |order'| && Enabled(m, h, At(m, h, order', k), x)
      && h[x].call < Scanned(h, order', pos', k)
      ensures Succ(m, h, At(m, h, order', k), x) in cache + {succ}
    {
      if k <= |order| {
        AtPrefix(m, h, order', |order|, k);
        if x != id || k < |order| {
          assert h[x].call < Scanned(h, order, pos, k);
        }
      }
    }
  }

  /** Stepping over an operation that cannot be linearized now, or whose result is cached. */
  lemma Skip<S, I, O>(m: Model<S, I, O>, h: seq<Operation<I, O>>, order: seq<nat>, cache: set<Config<S>>, pos: int,
                      id: nat, pos': int)
    requires Inv(m, h, order, cache, pos)
    requires id < |h| && id !in order && h[id].call == pos
    requires StepOp(m, h, Run(m, h, order).value, id).Some? ==>
      Config(Elems(order) + {id}, StepOp(m, h, Run(m, h, order).value, id).value) in cache
    requires Passed(h, order, id, pos')
    ensures Inv(m, h, order, cache, pos')
  {
    assert order[..|order|] == order;
    SkipLevels(m, h, order, cache, pos, id, pos');
  }

  lemma SkipLevels<S, I, O>(m: Model<S, I, O>, h: seq<Operation<I, O>>, order: seq<nat>, cache: set<Config<S>>,
                            pos: int, id: nat, pos': int)
    requires IsPartial(m, h, order) && LevelsScanned(m, h, order, cache, pos) && order[..|order|] == order
    requires id < |h| && h[id].call == pos && Passed(h, order, id, pos')
    requires Enabled(m, h, ConfigOf(m, h, order), id) ==> Succ(m, h, ConfigOf(m, h, order), id) in cache
    ensures LevelsScanned(m, h, order, cache, pos')
  {
    forall k: nat, x: nat | k <= |order| && Enabled(m, h, At(m, h, order, k), x)
      && h[x].call < Scanned(h, order, pos', k)
      ensures Succ(m, h, At(m, h, order, k), x) in cache
    {
      if k == |order| && x != id {
        assert x !in Elems(order);
        assert x !in order;
        assert h[x].call < Scanned(h, order, pos, k);
      } else if k < |order| {
        assert h[x].call < Scanned(h, order, pos, k);
      }
    }
  }

  ghost predicate NoCallAt<I, O>(h: seq<Operation<I, O>>, pos: int) {
    forall b: nat | b < |h| :: h[b].call != pos
  }

  /** The cursor is on the return of the remaining operation `r`. */
  ghost predicate OnReturn<I, O>(h: seq<Operation<I, O>>, order: seq<nat>, pos: int, r: nat) {
    r < |h| && r !in order && h[r].ret == pos && NoCallAt(h, pos)
  }

  /** The calls met before the first remaining return are exactly the operations that may come next. */
  lemma CallsBeforeFirstReturn<I, O>(h: seq<Operation<I, O>>, order: seq<nat>, pos: int, r: nat, id: nat)
    requires OnReturn(h, order, pos, r) && NoReturnBefore(h, order, pos) && id < |h| && id !in order
    ensures h[id].call < pos <==> Ready(h, Elems(order), id)
  {
    if h[id].call < pos {
      forall b: nat | b < |h| && b !in Elems(order) ensures !Precedes(h, b, id) {
        assert b !in order;
      }
    } else {
      assert r !in Elems(order) && Precedes(h, r, id);
    }
  }

  /** When the cursor is on a return, every operation that could come next has been tried. */
  lemma TopExhausted<S, I, O>(m: Model<S, I, O>, h: seq<Operation<I, O>>, order: seq<nat>, cache: set<Config<S>>,
                              pos: int, r: nat)
    requires Inv(m, h, order, cache, pos)
    requires OnReturn(h, order, pos, r)
    ensures forall x: nat | Enabled(m, h, At(m, h, order, |order|), x) ::
      Succ(m, h, At(m, h, order, |order|), x) in cache
  {
    assert order[..|order|] == order;
    forall x: nat | Enabled(m, h, At(m, h, order, |order|), x)
      ensures Succ(m, h, At(m, h, order, |order|), x) in cache
    {
      assert r !in Elems(order);
      assert !Precedes(h, r, x);
      assert h[x].call < Scanned(h, order, pos, |order|);
    }
  }

  /** Undoing the last linearized operation and moving on to the event after its call. */
  lemma Backtrack<S, I, O>(m: Model<S, I, O>, h: seq<Operation<I, O>>, order: seq<nat>, cache: set<Config<S>>,
                           pos: int, r: nat, pos': int)
    requires Inv(m, h, order, cache, pos) && order != []
    requires OnReturn(h, order, pos, r)
    requires Passed(h, order[..|order| - 1], order[|order| - 1], pos')
    ensures Inv(m, h, order[..|order| - 1], cache, pos')
  {
    var last := |order| - 1;
    var order', id := order[..last], order[last];
    PartialPrefix(m, h, order, last);
    forall k: nat | k <= last ensures At(m, h, order', k) == At(m, h, order, k) {
      AtPrefix(m, h, order, last, k);
    }
    BacktrackClosed(m, h, order, cache, pos, r);
    BacktrackLevels(m, h, order, cache, pos, pos');
    NoneComplete(m, h, order, cache, r);
  }

  lemma BacktrackClosed<S, I, O>(m: Model<S, I, O>, h: seq<Operation<I, O>>, order: seq<nat>, cache: set<Config<S>>,
                                 pos: int, r: nat)
    requires Inv(m, h, order, cache, pos) && order != []
    requires OnReturn(h, order, pos, r)
    requires IsPartial(m, h, order[..|order| - 1])
    ensures CacheClosed(m, h, order[..|order| - 1], cache)
  {
    var order' := order[..|order| - 1];
    var top := At(m, h, order, |order|);
    AtSize(m, h, order, |order|);
    TopExhausted(m, h, order, cache, pos, r);
    forall c, x: nat | c in cache && !OnStack(m, h, order', c) && Enabled(m, h, c, x)
      ensures Succ(m, h, c, x) in cache && !OnStack(m, h, order', Succ(m, h, c, x))
    {
      var d := Succ(m, h, c, x);
      OnStackSnoc(m, h, order, c);
      OnStackSnoc(m, h, order, d);
      if c == top {
        if OnStack(m, h, order', d) {
          OnStackSize(m, h, order', d);
          assert false;
        }
      }
    }
  }

  lemma BacktrackLevels<S, I, O>(m: Model<S, I, O>, h: seq<Operation<I, O>>, order: seq<nat>, cache: set<Config<S>>,
                                 pos: int, pos': int)
    requires IsPartial(m, h, order) && order != []
    requires LevelsScanned(m, h, order, cache, pos)
    requires IsPartial(m, h, order[..|order| - 1])
    requires Passed(h, order[..|order| - 1], order[|order| - 1], pos')
    ensures LevelsScanned(m, h, order[..|order| - 1], cache, pos')
  {
    var last := |order| - 1;
    var order', id := order[..last], order[last];
    forall k: nat, x: nat | k <= last && Enabled(m, h, At(m, h, order', k), x)
      && h[x].call < Scanned(h, order', pos', k)
      ensures Succ(m, h, At(m, h, order', k), x) in cache
    {
      AtPrefix(m, h, order, last, k);
      if k == last {
        assert order'[..k] == order';
        assert x !in Elems(order');
      }
      assert h[x].call < Scanned(h, order, pos, k);
    }
  }

  // ---------- what the invariant means ----------

  /** Completions of a configuration: the remaining operations can all be linearized from it. */
  ghost predicate Completable<S, I, O>(m: Model<S, I, O>, h: seq<Operation<I, O>>, c: Config<S>, left: nat)
    decreases left
  {
    if left == 0 then |c.ids| == |h| else
      exists x: nat :: Enabled(m, h, c, x) && Completable(m, h, Succ(m, h, c, x), left - 1)
  }

  /** A cached configuration that is no longer on the stack leads nowhere. */
  lemma CachedOffStackHasNoCompletion<S, I, O>(m: Model<S, I, O>, h: seq<Operation<I, O>>, order: seq<nat>,
                                               cache: set<Config<S>>, pos: int, c: Config<S>, left: nat)
    requires Inv(m, h, order, cache, pos)
    requires c in cache && !OnStack(m, h, order, c)
    ensures !Completable(m, h, c, left)
  {
    NoCompletion(m, h, order, cache, c, left);
  }

  lemma {:induction false} NoCompletion<S, I, O>(m: Model<S, I, O>, h: seq<Operation<I, O>>, order: seq<nat>,
                                                 cache: set<Config<S>>, c: Config<S>, left: nat)
    requires IsPartial(m, h, order) && CacheClosed(m, h, order, cache) && CacheSound(m, h, order, cache)
    requires c in cache && !OnStack(m, h, order, c)
    ensures !Completable(m, h, c, left)
    decreases left
  {
    if left > 0 {
      forall x: nat | Enabled(m, h, c, x) ensures !Completable(m, h, Succ(m, h, c, x), left - 1) {
        NoCompletion(m, h, order, cache, Succ(m, h, c, x), left - 1);
      }
    }
  }

  /** If a partial linearization extends to a complete one, its configuration has a completion. */
  lemma {:induction false} ExtensionIsCompletion<S, I, O>(m: Model<S, I, O>, h: seq<Operation<I, O>>, full: seq<nat>,
                                                          k: nat)
    requires IsPartial(m, h, full) && |full| == |h| && k <= |full|
    ensures Completable(m, h, At(m, h, full, k), |full| - k)
    decreases |full| - k
  {
    if k < |full| {
      ExtensionIsCompletion(m, h, full, k + 1);
      AtStep(m, h, full, k);
    } else {
      AtSize(m, h, full, k);
    }
  }

  /** When the root is exhausted, every non-empty partial linearization has been visited. */
  lemma {:induction false} AllVisited<S, I, O>(m: Model<S, I, O>, h: seq<Operation<I, O>>, cache: set<Config<S>>,
                                               pos: int, r: nat, p: seq<nat>)
    requires Inv(m, h, [], cache, pos)
    requires OnReturn(h, [], pos, r)
    requires IsPartial(m, h, p) && p != []
    ensures ConfigOf(m, h, p) in cache
    decreases |p|
  {
    var last := |p| - 1;
    Unsnoc(m, h, p);
    var c := ConfigOf(m, h, p[..last]);
    if last == 0 {
      TopExhausted(m, h, [], cache, pos, r);
      assert p[..last] == [];
      assert c == At(m, h, [], 0);
    } else {
      AllVisited(m, h, cache, pos, r, p[..last]);
      ElemsCard(p[..last]);
      if OnStack(m, h, [], c) {
        OnStackSize(m, h, [], c);
        assert false;
      }
    }
  }

  /** Giving up with an empty stack is right: there is no linearization. */
  lemma GiveUp<S, I, O>(m: Model<S, I, O>, h: seq<Operation<I, O>>, cache: set<Config<S>>, pos: int, r: nat)
    requires WellFormed(h) && Inv(m, h, [], cache, pos)
    requires OnReturn(h, [], pos, r)
    ensures !Linearizable(m, h)
  {
    forall p: seq<nat> ensures !IsLinearization(m, h, p) {
      if IsLinearization(m, h, p) {
        CompletePartialIsLinearization(m, h, p);
        AllVisited(m, h, cache, pos, r, p);
        ElemsCard(p);
        NoneComplete(m, h, [], cache, r);
        assert false;
      }
    }
  }

  // ---------- the finite space of configurations, for termination ----------

  ghost function Append(ps: set<seq<nat>>, x: nat): set<seq<nat>> {
    set p | p in ps :: p + [x]
  }

  /** Every `p` in `ps`, extended by a number below `n`. */
  ghost function Extend(n: nat, ps: set<seq<nat>>): set<seq<nat>> {
    if n == 0 then {} else Extend(n - 1, ps) + Append(ps, n - 1)
  }

  lemma {:induction false} InExtend(n: nat, ps: set<seq<nat>>, p: seq<nat>, x: nat)
    requires p in ps && x < n
    ensures p + [x] in Extend(n, ps)
  {
    if x < n - 1 {
      InExtend(n - 1, ps, p, x);
    } else {
      assert p + [x] in Append(ps, x);
    }
  }

  /** The sequences of at most `k` numbers below `n`. */
  ghost function Words(n: nat, k: nat): set<seq<nat>> {
    if k == 0 then {[]} else Words(n, k - 1) + Extend(n, Words(n, k - 1))
  }

  lemma {:induction false} InWords(n: nat, p: seq<nat>, k: nat)
    requires InRange(n, p) && |p| <= k
    ensures p in Words(n, k)
    decreases k
  {
    if |p| < k {
      InWords(n, p, k - 1);
    } else if k > 0 {
      InWords(n, p[..k - 1], k - 1);
      InExtend(n, Words(n, k - 1), p[..k - 1], p[k - 1]);
      assert p == p[..k - 1] + [p[k - 1]];
    }
  }

  /** All configurations of partial linearizations: finitely many, whatever the states are. */
  ghost function AllConfigs<S, I, O>(m: Model<S, I, O>, h: seq<Operation<I, O>>): set<Config<S>> {
    set p | p in Words(|h|, |h|) && IsPartial(m, h, p) :: ConfigOf(m, h, p)
  }

  /** The cache can only ever hold finitely many different configurations. */
  lemma CacheBounded<S, I, O>(m: Model<S, I, O>, h: seq<Operation<I, O>>, order: seq<nat>, cache: set<Config<S>>)
    requires IsPartial(m, h, order) && CacheSound(m, h, order, cache)
    ensures cache <= AllConfigs(m, h)
  {
    forall c | c in cache ensures c in AllConfigs(m, h) {
      assert Reachable(m, h, c);
      var p: seq<nat> :| IsPartial(m, h, p) && c == ConfigOf(m, h, p);
      ElemsCard(p);
      SubsetCard(Elems(p), Below(|h|));
      InWords(|h|, p, |h|);
    }
  }

  // ---------- longest partial linearizations ----------

  /** What one backtrack records: the current stack, for every operation on it that has nothing as long yet. */
  ghost function Record(longest: seq<Option<seq<nat>>>, order: seq<nat>): (r: seq<Option<seq<nat>>>)
    ensures |r| == |longest|
  {
    seq(|longest|, i requires 0 <= i < |longest| =>
      if i in order && (longest[i].None? || |order| > |longest[i].value|) then Some(order) else longest[i])
  }

  ghost predicate LongestSound<S, I, O>(m: Model<S, I, O>, h: seq<Operation<I, O>>, longest: seq<Option<seq<nat>>>) {
    && |longest| == |h|
    && forall id: nat | id < |h| && longest[id].Some? :: IsPartial(m, h, longest[id].value) && id in longest[id].value
  }

  /** Every operation of `ids` has a recorded partial linearization at least that long. */
  ghost predicate Recorded(longest: seq<Option<seq<nat>>>, ids: set<nat>) {
    forall id | id in ids :: id < |longest| && longest[id].Some? && |ids| <= |longest[id].value|
  }

  ghost predicate LongestCovers<S, I, O>(m: Model<S, I, O>, h: seq<Operation<I, O>>, order: seq<nat>,
                                         cache: set<Config<S>>, longest: seq<Option<seq<nat>>>)
    requires IsPartial(m, h, order)
  {
    forall c | c in cache && !OnStack(m, h, order, c) :: Recorded(longest, c.ids)
  }

  /** Nothing longer exists, and nothing is recorded only where nothing exists. */
  ghost predicate LongestOptimal<S, I, O>(m: Model<S, I, O>, h: seq<Operation<I, O>>, longest: seq<Option<seq<nat>>>) {
    && LongestSound(m, h, longest)
    && forall id: nat, p: seq<nat> | id < |h| && IsPartial(m, h, p) && id in p ::
         longest[id].Some? && |p| <= |longest[id].value|
  }

  lemma PushCovers<S, I, O>(m: Model<S, I, O>, h: seq<Operation<I, O>>, order: seq<nat>, cache: set<Config<S>>,
                            id: nat, longest: seq<Option<seq<nat>>>)
    requires IsPartial(m, h, order) && IsPartial(m, h, order + [id])
    requires LongestCovers(m, h, order, cache, longest)
    ensures LongestCovers(m, h, order + [id], cache + {ConfigOf(m, h, order + [id])}, longest)
  {
    var order' := order + [id];
    assert order'[..|order|] == order && order'[..|order'|] == order';
    forall c | c in cache + {ConfigOf(m, h, order')} && !OnStack(m, h, order', c) ensures Recorded(longest, c.ids) {
      OnStackSnoc(m, h, order', c);
    }
  }

  lemma RecordKeeps<S, I, O>(m: Model<S, I, O>, h: seq<Operation<I, O>>, order: seq<nat>, cache: set<Config<S>>,
                             longest: seq<Option<seq<nat>>>)
    requires IsPartial(m, h, order) && order != [] && IsPartial(m, h, order[..|order| - 1])
    requires LongestSound(m, h, longest) && LongestCovers(m, h, order, cache, longest)
    ensures LongestSound(m, h, Record(longest, order))
    ensures LongestCovers(m, h, order[..|order| - 1], cache, Record(longest, order))
  {
    var longest' := Record(longest, order);
    forall c | c in cache && !OnStack(m, h, order[..|order| - 1], c) ensures Recorded(longest', c.ids) {
      if OnStack(m, h, order, c) {
        RecordStack(m, h, order, longest, c);
      }
    }
  }

  lemma RecordStack<S, I, O>(m: Model<S, I, O>, h: seq<Operation<I, O>>, order: seq<nat>,
                             longest: seq<Option<seq<nat>>>, c: Config<S>)
    requires IsPartial(m, h, order) && |longest| == |h| && OnStack(m, h, order, c)
    ensures Recorded(Record(longest, order), c.ids)
  {
    OnStackSize(m, h, order, c);
    var k: nat :| k <= |order| && At(m, h, order, k) == c;
    forall id | id in c.ids
      ensures id < |longest| && Record(longest, order)[id].Some? && |c.ids| <= |Record(longest, order)[id].value| {
      assert id in order[..k];
    }
  }

  /** After an exhausted search every recorded partial linearization is a longest one. */
  lemma ExhaustedIsOptimal<S, I, O>(m: Model<S, I, O>, h: seq<Operation<I, O>>, cache: set<Config<S>>, pos: int,
                                    r: nat, longest: seq<Option<seq<nat>>>)
    requires Inv(m, h, [], cache, pos)
    requires OnReturn(h, [], pos, r)
    requires LongestSound(m, h, longest) && LongestCovers(m, h, [], cache, longest)
    ensures LongestOptimal(m, h, longest)
  {
    forall id: nat, p: seq<nat> | id < |h| && IsPartial(m, h, p) && id in p
      ensures longest[id].Some? && |p| <= |longest[id].value|
    {
      var c := ConfigOf(m, h, p);
      AllVisited(m, h, cache, pos, r, p);
      ElemsCard(p);
      assert id in c.ids;
      if OnStack(m, h, [], c) {
        OnStackSize(m, h, [], c);
        assert false;
      }
    }
  }
}
