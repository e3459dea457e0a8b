/**
  The linearizability search itself (src/porcupine/checker.go: checkSingle), as it edits its
  event list, bitset, cache and undo stack, proved against the definition of linearizability.
 */
module Checker {
  import opened Linearizability
  import opened Events
  import opened LinkedEntries
  import opened Bitset
  import opened Search
  import opened Cache

  /** An undo record: the call that was linearized and the state before it. */
  datatype CallsEntry<S, I, O> = CallsEntry(entry: Node<I, O>, state: S)

  // ---------- moving along the list ----------

  /** What never changes: the events and the nodes that hold them. */
  ghost predicate Setup<I, O>(es: seq<Entry<I, O>>, n: nat, nodes: seq<Node<I, O>>) {
    WellFormedEntries(es, n) && Represents(nodes, es, n)
  }

  ghost predicate Fits(n: nat, order: seq<nat>) {
    InRange(n, order) && Distinct(order)
  }

  ghost function NextNode<I, O>(es: seq<Entry<I, O>>, n: nat, order: seq<nat>, k: nat): int
    requires WellFormedEntries(es, n) && Fits(n, order) && k <= |es|
  {
    LinksAfter(es, n, order).succ[k]
  }

  lemma RemainingLive<I, O>(es: seq<Entry<I, O>>, n: nat, order: seq<nat>, b: nat)
    requires WellFormedEntries(es, n) && Fits(n, order) && b < n && b !in order
    ensures CallNode(es, n, b) in Live(es, order) && ReturnNode(es, n, b) in Live(es, order)
  {
    assert IsLive(es, order, CallNode(es, n, b)) && IsLive(es, order, ReturnNode(es, n, b));
  }

  /** Node `v` is the front of what remains after `order`; `END` if nothing does. */
  ghost predicate Front<I, O>(es: seq<Entry<I, O>>, n: nat, order: seq<nat>, v: int)
    requires WellFormedEntries(es, n)
  {
    && (v == END ==> forall b: nat | b < n :: b in order)
    && (v != END ==> 0 < v <= |es| && es[v - 1].id !in order)
    && AtFirst(History(es, n), order, v - 1)
  }

  lemma First<I, O>(es: seq<Entry<I, O>>, n: nat, order: seq<nat>)
    requires WellFormedEntries(es, n) && Fits(n, order)
    ensures Front(es, n, order, NextNode(es, n, order, 0))
  {
    var live := Live(es, order);
    var v := NextNode(es, n, order, 0);
    assert Next(live, 0, v);
    assert v != END ==> IsLive(es, order, v);
    forall b: nat | b < n && b !in order ensures v != END && v <= CallNode(es, n, b) && v <= ReturnNode(es, n, b) {
      RemainingLive(es, n, order, b);
    }
  }

  /** Node `v` comes after the remaining call of `id`, and every remaining event before it has been passed. */
  ghost predicate Follows<I, O>(es: seq<Entry<I, O>>, n: nat, order: seq<nat>, id: nat, v: int)
    requires WellFormedEntries(es, n) && id < n
  {
    && CallNode(es, n, id) < v <= |es| && es[v - 1].id !in order
    && Passed(History(es, n), order, id, v - 1)
  }

  lemma Following<I, O>(es: seq<Entry<I, O>>, n: nat, order: seq<nat>, id: nat)
    requires WellFormedEntries(es, n) && Fits(n, order) && id < n && id !in order
    requires NoReturnBefore(History(es, n), order, History(es, n)[id].call)
    ensures Follows(es, n, order, id, NextNode(es, n, order, CallNode(es, n, id)))
  {
    var h := History(es, n);
    var live := Live(es, order);
    var c := CallNode(es, n, id);
    var v := NextNode(es, n, order, c);
    RemainingLive(es, n, order, id);
    assert Next(live, c, v);
    assert IsLive(es, order, v);
    forall b: nat | b < n && b !in order
      ensures b != id && h[id].call <= h[b].call ==> v - 1 <= h[b].call
      ensures v - 1 <= h[b].ret
    {
      RemainingLive(es, n, order, b);
      assert IsCall(es, h[id].call, id) && IsReturn(es, h[b].ret, b);
      assert b != id ==> h[b].call != h[id].call;
    }
  }

  // ---------- the data structures and what they stand for ----------

  /** The linked list is the one that lifting `order` leaves behind. */
  ghost predicate ListHolds<I, O>(es: seq<Entry<I, O>>, n: nat, nodes: seq<Node<I, O>>, order: seq<nat>)
    requires WellFormedEntries(es, n) && Fits(n, order)
    reads nodes
  {
    Mirror(nodes, LinksAfter(es, n, order))
  }

  /** The bitset is `done`, the cache is `abs`, and they share no words. */
  ghost predicate BitsHold<S>(n: nat, done: set<nat>, linearized: array<uint64>, cache: Buckets<S>,
                              abs: set<Config<S>>, stored: set<array<uint64>>)
    reads linearized, stored
  {
    && linearized.Length == (n + 63) / 64 && Members(linearized[..]) == done
    && linearized !in stored && Frozen(cache, stored) && Refines(cache, abs, linearized.Length)
  }

  /** The undo stack spells out `order` and the states along it. */
  ghost predicate StackHolds<S, I, O>(m: Model<S, I, O>, es: seq<Entry<I, O>>, n: nat, nodes: seq<Node<I, O>>,
                                      order: seq<nat>, calls: seq<CallsEntry<S, I, O>>)
    requires WellFormedEntries(es, n) && Fits(n, order) && |nodes| == |es| + 1
  {
    && |calls| == |order|
    && forall k: nat {:trigger calls[k]} | k < |order| ::
         && calls[k].entry == nodes[CallNode(es, n, order[k])]
         && calls[k].entry.id == order[k]
         && Run(m, History(es, n), order[..k]) == Some(calls[k].state)
  }

  lemma CallHolds<I, O>(nodes: seq<Node<I, O>>, es: seq<Entry<I, O>>, n: nat, id: nat)
    requires WellFormedEntries(es, n) && Represents(nodes, es, n) && id < n
    ensures var h := History(es, n); var x := nodes[CallNode(es, n, id)];
      && x.id == id && x.value == Input(h[id].input) && x.matching == nodes[ReturnNode(es, n, id)]
      && nodes[ReturnNode(es, n, id)].value == Output(h[id].output)
  {
    var c, r := CallNode(es, n, id), ReturnNode(es, n, id);
    assert IsCall(es, c - 1, id) && IsReturn(es, r - 1, id);
    assert NodeHolds(nodes, es, n, c) && NodeHolds(nodes, es, n, r);
  }

  /** Takes operation `id` off the list. */
  method LiftCall<I, O>(entry: Node<I, O>, ghost es: seq<Entry<I, O>>, ghost n: nat, ghost nodes: seq<Node<I, O>>,
                        ghost order: seq<nat>, ghost id: nat)
    requires Setup(es, n, nodes) && Fits(n, order) && ListHolds(es, n, nodes, order)
    requires id < n && id !in order && entry == nodes[CallNode(es, n, id)]
    modifies nodes
    ensures Fits(n, order + [id]) && ListHolds(es, n, nodes, order + [id])
  {
    LiftShows(es, n, order, LinksAfter(es, n, order), id);
    CallHolds(nodes, es, n, id);
    assert (order + [id])[..|order|] == order;
    Lift(entry, nodes, LinksAfter(es, n, order), CallNode(es, n, id), ReturnNode(es, n, id));
  }

  /** Puts the operation linearized last back on the list. */
  method UnliftCall<I, O>(entry: Node<I, O>, ghost es: seq<Entry<I, O>>, ghost n: nat, ghost nodes: seq<Node<I, O>>,
                          ghost order: seq<nat>, ghost id: nat)
    requires Setup(es, n, nodes) && Fits(n, order) && id < n && id !in order && Fits(n, order + [id])
      && ListHolds(es, n, nodes, order + [id])
    requires entry == nodes[CallNode(es, n, id)]
    modifies nodes
    ensures ListHolds(es, n, nodes, order)
  {
    LiftShows(es, n, order, LinksAfter(es, n, order), id);
    CallHolds(nodes, es, n, id);
    assert (order + [id])[..|order|] == order;
    Unlift(entry, nodes, LinksAfter(es, n, order), CallNode(es, n, id), ReturnNode(es, n, id));
  }

  /** Stores the new configuration and marks `id` as linearized. */
  method Store<S>(ghost n: nat, ghost done: set<nat>, linearized: array<uint64>, cache: Buckets<S>,
                  ghost abs: set<Config<S>>,
                  ghost stored: set<array<uint64>>, id: nat, newLinearized: array<uint64>, newState: S)
    returns (cache': Buckets<S>)
    requires BitsHold(n, done, linearized, cache, abs, stored) && id < n
    requires newLinearized != linearized && newLinearized !in stored
    requires newLinearized.Length == linearized.Length && Members(newLinearized[..]) == done + {id}
    modifies linearized
    ensures BitsHold(n, done + {id}, linearized, cache', abs + {Config(done + {id}, newState)},
                     stored + {newLinearized})
  {
    var hash := Hash(newLinearized);
    var newCacheEntry := CacheEntry(newLinearized, newState, newLinearized[..]);
    cache' := Add(cache, hash, newCacheEntry);
    AddRefines(cache, abs, linearized.Length, newCacheEntry);
    AddFrozen(cache, stored, hash, newCacheEntry);
    Set(linearized, id);
  }

  // ---------- the loop variables and their invariant ----------

  /** The variables of the search loop. */
  datatype Locals<S, I, O> = Locals(entry: Node?<I, O>, state: S, calls: seq<CallsEntry<S, I, O>>, cache: Buckets<S>,
                                    longest: seq<Option<seq<nat>>>)

  /** What they stand for: the order so far, the cached configurations, the stored bitsets, the cursor. */
  datatype View<S> = View(ghost order: seq<nat>, ghost abs: set<Config<S>>, ghost stored: set<array<uint64>>,
                          ghost pos: int)

  ghost predicate LongestHolds<S, I, O>(m: Model<S, I, O>, h: seq<Operation<I, O>>, order: seq<nat>,
                                        abs: set<Config<S>>,
                                        longest: seq<Option<seq<nat>>>, computePartial: bool)
    requires IsPartial(m, h, order)
  {
    && LongestSound(m, h, longest)
    && (if computePartial then LongestCovers(m, h, order, abs, longest)
        else forall i | 0 <= i < |longest| :: longest[i] == None)
  }

  /** The part of the invariant that does not look at the heap. */
  ghost predicate SearchHolds<S, I, O>(m: Model<S, I, O>, es: seq<Entry<I, O>>, n: nat, nodes: seq<Node<I, O>>,
                                       computePartial: bool, v: Locals<S, I, O>, g: View<S>)
    requires Setup(es, n, nodes)
  {
    && IsPartial(m, History(es, n), g.order)
    && StackHolds(m, es, n, nodes, g.order, v.calls)
    && Inv(m, History(es, n), g.order, g.abs, g.pos)
    && Run(m, History(es, n), g.order) == Some(v.state)
    && LongestHolds(m, History(es, n), g.order, g.abs, v.longest, computePartial)
    && AtCursor(es, n, nodes, v.entry, g.order, g.pos)
  }

  /** While anything remains, `entry` is the node at the cursor, and it remains too. */
  ghost predicate AtCursor<I, O>(es: seq<Entry<I, O>>, n: nat, nodes: seq<Node<I, O>>, entry: Node?<I, O>,
                                 order: seq<nat>, pos: int)
    requires |nodes| == |es| + 1
  {
    Remaining(n, order) ==> 0 <= pos < |es| && entry == nodes[pos + 1] && es[pos].id !in order
  }

  ghost predicate Remaining(n: nat, order: seq<nat>) {
    exists b: nat :: b < n && b !in order
  }

  ghost predicate LoopHolds<S, I, O>(m: Model<S, I, O>, es: seq<Entry<I, O>>, n: nat, nodes: seq<Node<I, O>>,
                                     linearized: array<uint64>, computePartial: bool, v: Locals<S, I, O>, g: View<S>)
    requires Setup(es, n, nodes)
    reads nodes, linearized, g.stored
  {
    && SearchHolds(m, es, n, nodes, computePartial, v, g)
    && ListHolds(es, n, nodes, g.order)
    && BitsHold(n, Elems(g.order), linearized, v.cache, g.abs, g.stored)
  }

  /** At the loop head: the bitset counts the stack, and the list, read from the sentinel on, is
      the original order without the operations on the stack, two nodes for each of the others. */
  lemma LoopHead<S, I, O>(m: Model<S, I, O>, es: seq<Entry<I, O>>, n: nat, nodes: seq<Node<I, O>>,
                          linearized: array<uint64>, computePartial: bool, v: Locals<S, I, O>, g: View<S>)
    requires Setup(es, n, nodes) && LoopHolds(m, es, n, nodes, linearized, computePartial, v, g)
    ensures |Members(linearized[..])| == |v.calls|
    ensures Mirror(nodes, LinksAfter(es, n, g.order)) && Shows(LinksAfter(es, n, g.order), Live(es, g.order), |nodes|)
    ensures |Live(es, g.order) - {0}| == 2 * (n - |v.calls|)
  {
    ElemsCard(g.order);
    LiveCount(es, n, g.order);
  }

  // ---------- recording the stack ----------

  method Ids<S, I, O>(calls: seq<CallsEntry<S, I, O>>, ghost order: seq<nat>) returns (ids: seq<nat>)
    requires |calls| == |order| && forall k: nat | k < |order| :: calls[k].entry.id == order[k]
    ensures ids == order
  {
    ids := [];
    for i := 0 to |calls|
      invariant ids == order[..i]
    {
      ids := ids + [calls[i].entry.id];
    }
  }

  method RecordLongest<S, I, O>(calls: seq<CallsEntry<S, I, O>>, longest: seq<Option<seq<nat>>>, ghost order: seq<nat>)
    returns (longest': seq<Option<seq<nat>>>)
    requires |calls| == |order| && forall k: nat | k < |order| :: calls[k].entry.id == order[k]
    requires InRange(|longest|, order) && Distinct(order)
    ensures longest' == Record(longest, order)
    // the stack is recorded for its operations that have nothing as long; everything else stays
    ensures |longest'| == |longest| && forall id: nat | id < |longest| ::
      if id in order && (longest[id].None? || |longest[id].value| < |order|) then longest'[id] == Some(order)
      else longest'[id] == longest[id]
  {
    longest' := longest;
    var ids := None;
    for i := 0 to |calls|
      invariant |longest'| == |longest|
      invariant ids.Some? ==> ids.value == order
      invariant forall x | 0 <= x < |longest| ::
        longest'[x] == if x in order[..i] then Record(longest, order)[x] else longest[x]
    {
      var id := calls[i].entry.id;
      assert id == order[i] && id !in order[..i];
      assert order[..i + 1] == order[..i] + [id];
      if longest'[id].None? || |calls| > |longest'[id].value| {
        if ids.None? {
          var all := Ids(calls, order);
          ids := Some(all);
        }
        longest' := longest'[id := ids];
      }
    }
    assert order[..|order|] == order;
  }

  // ---------- the moves keep the heap-free part of the invariant ----------

  lemma HistoryGood<I, O>(es: seq<Entry<I, O>>, n: nat)
    requires WellFormedEntries(es, n)
    ensures WellFormed(History(es, n)) && DistinctCalls(History(es, n))
  {
    var h := History(es, n);
    forall a: nat, b: nat | a < n && b < n && h[a].call == h[b].call ensures a == b {
      assert IsCall(es, h[a].call, a) && IsCall(es, h[b].call, b);
    }
  }

  lemma PushStackHolds<S, I, O>(m: Model<S, I, O>, es: seq<Entry<I, O>>, n: nat, nodes: seq<Node<I, O>>,
                                order: seq<nat>, calls: seq<CallsEntry<S, I, O>>, c: CallsEntry<S, I, O>, id: nat)
    requires WellFormedEntries(es, n) && Fits(n, order) && |nodes| == |es| + 1
      && StackHolds(m, es, n, nodes, order, calls)
    requires Fits(n, order + [id]) && id < n && c.entry == nodes[CallNode(es, n, id)] && c.entry.id == id
    requires Run(m, History(es, n), order) == Some(c.state)
    ensures StackHolds(m, es, n, nodes, order + [id], calls + [c])
  {
    var order' := order + [id];
    forall k: nat | k < |order'|
      ensures (calls + [c])[k].entry == nodes[CallNode(es, n, order'[k])]
      ensures (calls + [c])[k].entry.id == order'[k]
      ensures Run(m, History(es, n), order'[..k]) == Some((calls + [c])[k].state)
    {
      assert order'[..k] == order[..k];
      assert k == |order| ==> order[..k] == order;
    }
  }

  /** The configuration reached by linearizing `id` next. */
  ghost function NextConfig<S>(order: seq<nat>, id: nat, state: S): Config<S> {
    Config(Elems(order) + {id}, state)
  }

  lemma PushHolds<S, I, O>(m: Model<S, I, O>, es: seq<Entry<I, O>>, n: nat, nodes: seq<Node<I, O>>,
                           computePartial: bool,
                           v: Locals<S, I, O>, g: View<S>, v': Locals<S, I, O>, g': View<S>, id: nat, front: int)
    requires Setup(es, n, nodes) && SearchHolds(m, es, n, nodes, computePartial, v, g)
    requires id < n && id !in g.order && History(es, n)[id].call == g.pos && v.entry == nodes[CallNode(es, n, id)]
    requires StepOp(m, History(es, n), v.state, id) == Some(v'.state)
    requires NextConfig(g.order, id, v'.state) !in g.abs
    requires g'.order == g.order + [id] && g'.abs == g.abs + {NextConfig(g.order, id, v'.state)}
    requires Front(es, n, g'.order, front) && g'.pos == front - 1 && v'.entry == NodeAt(nodes, front)
    requires v'.calls == v.calls + [CallsEntry(v.entry, v.state)] && v'.longest == v.longest
    ensures SearchHolds(m, es, n, nodes, computePartial, v', g')
  {
    var h := History(es, n);
    HistoryGood(es, n);
    CallHolds(nodes, es, n, id);
    Push(m, h, g.order, g.abs, g.pos, id, g'.pos);
    PushStackHolds(m, es, n, nodes, g.order, v.calls, CallsEntry(v.entry, v.state), id);
    TopEnabled(m, h, g.order, g.pos, id);
    Snoc(m, h, g.order, id);
    if computePartial {
      PushCovers(m, h, g.order, g.abs, id, v.longest);
    }
  }

  lemma SkipHolds<S, I, O>(m: Model<S, I, O>, es: seq<Entry<I, O>>, n: nat, nodes: seq<Node<I, O>>,
                           computePartial: bool,
                           v: Locals<S, I, O>, g: View<S>, v': Locals<S, I, O>, g': View<S>, id: nat, next: int)
    requires Setup(es, n, nodes) && SearchHolds(m, es, n, nodes, computePartial, v, g)
    requires id < n && id !in g.order && History(es, n)[id].call == g.pos
    requires var r := StepOp(m, History(es, n), v.state, id); r.Some? ==> NextConfig(g.order, id, r.value) in g.abs
    requires Follows(es, n, g.order, id, next)
    requires v' == v.(entry := nodes[next]) && g' == g.(pos := next - 1)
    ensures SearchHolds(m, es, n, nodes, computePartial, v', g')
  {
    Skip(m, History(es, n), g.order, g.abs, g.pos, id, g'.pos);
  }

  /** The operation on top of the stack was called before anything that remains returned. */
  lemma TopReady<S, I, O>(m: Model<S, I, O>, es: seq<Entry<I, O>>, n: nat, order: seq<nat>)
    requires WellFormedEntries(es, n) && IsPartial(m, History(es, n), order) && order != []
    ensures Fits(n, order[..|order| - 1])
    ensures NoReturnBefore(History(es, n), order[..|order| - 1], History(es, n)[order[|order| - 1]].call)
  {
    var h := History(es, n);
    var done, id := order[..|order| - 1], order[|order| - 1];
    Unsnoc(m, h, order);
    forall b: nat | b < n && b !in done ensures h[id].call <= h[b].ret {
      assert b !in Elems(done);
      assert !Precedes(h, b, id);
    }
  }

  lemma ReturnAt<I, O>(es: seq<Entry<I, O>>, n: nat, order: seq<nat>, pos: int)
    requires WellFormedEntries(es, n) && 0 <= pos < |es| && es[pos].ReturnEntry? && es[pos].id !in order
    ensures OnReturn(History(es, n), order, pos, es[pos].id)
  {
    EventAt(es, n, pos);
  }

  lemma BacktrackInv<S, I, O>(m: Model<S, I, O>, es: seq<Entry<I, O>>, n: nat, order: seq<nat>, abs: set<Config<S>>,
                              pos: int, next: int)
    requires WellFormedEntries(es, n) && Inv(m, History(es, n), order, abs, pos) && order != []
    requires 0 <= pos < |es| && es[pos].ReturnEntry? && es[pos].id !in order
    requires Follows(es, n, order[..|order| - 1], order[|order| - 1], next)
    ensures Inv(m, History(es, n), order[..|order| - 1], abs, next - 1)
  {
    ReturnAt(es, n, order, pos);
    Backtrack(m, History(es, n), order, abs, pos, es[pos].id, next - 1);
  }

  lemma BacktrackHolds<S, I, O>(m: Model<S, I, O>, es: seq<Entry<I, O>>, n: nat, nodes: seq<Node<I, O>>,
                                computePartial: bool,
                                v: Locals<S, I, O>, g: View<S>, v': Locals<S, I, O>, g': View<S>, next: int)
    requires Setup(es, n, nodes) && SearchHolds(m, es, n, nodes, computePartial, v, g) && g.order != []
    requires 0 <= g.pos < |es| && es[g.pos].ReturnEntry? && es[g.pos].id !in g.order
    requires v'.longest == if computePartial then Record(v.longest, g.order) else v.longest
    requires var last := |g.order| - 1;
      && g'.order == g.order[..last] && g'.abs == g.abs
      && Follows(es, n, g'.order, g.order[last], next) && g'.pos == next - 1 && v'.entry == nodes[next]
      && v'.calls == v.calls[..last] && v'.state == v.calls[last].state
    ensures SearchHolds(m, es, n, nodes, computePartial, v', g')
  {
    var h := History(es, n);
    BacktrackInv(m, es, n, g.order, g.abs, g.pos, next);
    PopStackHolds(m, es, n, nodes, g.order, v.calls);
    RecordHolds(m, h, g.order, g.abs, v.longest, computePartial);
  }

  lemma RecordHolds<S, I, O>(m: Model<S, I, O>, h: seq<Operation<I, O>>, order: seq<nat>, abs: set<Config<S>>,
                             longest: seq<Option<seq<nat>>>, computePartial: bool)
    requires IsPartial(m, h, order) && order != [] && IsPartial(m, h, order[..|order| - 1])
    requires LongestHolds(m, h, order, abs, longest, computePartial)
    ensures LongestHolds(m, h, order[..|order| - 1], abs,
                         if computePartial then Record(longest, order) else longest, computePartial)
  {
    if computePartial {
      RecordKeeps(m, h, order, abs, longest);
    }
  }

  lemma PopStackHolds<S, I, O>(m: Model<S, I, O>, es: seq<Entry<I, O>>, n: nat, nodes: seq<Node<I, O>>,
                               order: seq<nat>, calls: seq<CallsEntry<S, I, O>>)
    requires WellFormedEntries(es, n) && Fits(n, order) && |nodes| == |es| + 1
      && StackHolds(m, es, n, nodes, order, calls) && order != []
    requires Fits(n, order[..|order| - 1])
    ensures StackHolds(m, es, n, nodes, order[..|order| - 1], calls[..|order| - 1])
    ensures Run(m, History(es, n), order[..|order| - 1]) == Some(calls[|order| - 1].state)
  {
    var last := |order| - 1;
    forall k: nat | k < last ensures order[..last][..k] == order[..k] {
    }
  }

  // ---------- the loop ----------

  /** `entry` is the remaining call of operation `id`. */
  ghost predicate OnCall<I, O>(es: seq<Entry<I, O>>, n: nat, nodes: seq<Node<I, O>>, entry: Node?<I, O>,
                               order: seq<nat>, pos: int, id: nat)
    requires WellFormedEntries(es, n) && |nodes| == |es| + 1
  {
    id < n && id !in order && History(es, n)[id].call == pos && entry == nodes[CallNode(es, n, id)]
  }

  /** Moves past a call that cannot be linearized, or whose result is already known. */
  method Pass<S, I, O>(ghost m: Model<S, I, O>, ghost es: seq<Entry<I, O>>, ghost n: nat, ghost nodes: seq<Node<I, O>>,
                       ghost linearized: array<uint64>, ghost computePartial: bool, v: Locals<S, I, O>,
                       ghost g: View<S>, ghost id: nat)
    returns (v': Locals<S, I, O>, ghost g': View<S>)
    requires Setup(es, n, nodes) && LoopHolds(m, es, n, nodes, linearized, computePartial, v, g)
    requires OnCall(es, n, nodes, v.entry, g.order, g.pos, id)
    requires var r := StepOp(m, History(es, n), v.state, id); r.Some? ==> NextConfig(g.order, id, r.value) in g.abs
    ensures LoopHolds(m, es, n, nodes, linearized, computePartial, v', g')
    ensures g'.order == g.order && g'.abs == g.abs && g.pos < g'.pos <= |es|
  {
    ghost var next := NextNode(es, n, g.order, CallNode(es, n, id));
    Following(es, n, g.order, id);
    assert v.entry.next == nodes[next];
    v' := v.(entry := v.entry.next);
    g' := g.(pos := next - 1);
    SkipHolds(m, es, n, nodes, computePartial, v, g, v', g', id, next);
  }

  /** Marks operation `id` as linearized: bitset, cache and list; returns the front of what remains. */
  method Apply<S, I, O>(ghost es: seq<Entry<I, O>>, ghost n: nat, ghost nodes: seq<Node<I, O>>, headEntry: Node<I, O>,
                        linearized: array<uint64>,
                        entry: Node<I, O>, cache: Buckets<S>, ghost g: View<S>, id: nat, newLinearized: array<uint64>,
                        newState: S)
    returns (cache': Buckets<S>, first: Node?<I, O>, ghost front: int)
    requires Setup(es, n, nodes) && Fits(n, g.order) && ListHolds(es, n, nodes, g.order) && headEntry == nodes[0]
    requires BitsHold(n, Elems(g.order), linearized, cache, g.abs, g.stored)
    requires id < n && id !in g.order && entry == nodes[CallNode(es, n, id)]
    requires newLinearized != linearized && newLinearized !in g.stored
    requires newLinearized.Length == linearized.Length && Members(newLinearized[..]) == Elems(g.order) + {id}
    modifies nodes, linearized
    ensures Fits(n, g.order + [id]) && ListHolds(es, n, nodes, g.order + [id])
    ensures BitsHold(n, Elems(g.order) + {id}, linearized, cache', g.abs + {NextConfig(g.order, id, newState)},
                     g.stored + {newLinearized})
    ensures first == NodeAt(nodes, front) && Front(es, n, g.order + [id], front)
  {
    cache' := Store(n, Elems(g.order), linearized, cache, g.abs, g.stored, id, newLinearized, newState);
    LiftCall(entry, es, n, nodes, g.order, id);
    front := NextNode(es, n, g.order + [id], 0);
    First(es, n, g.order + [id]);
    first := headEntry.next;
  }

  /** Linearizes the call under the cursor and goes back to the front of the list. */
  method Linearize<S, I, O>(ghost m: Model<S, I, O>, ghost es: seq<Entry<I, O>>, ghost n: nat,
                            ghost nodes: seq<Node<I, O>>, headEntry: Node<I, O>,
                            linearized: array<uint64>, ghost computePartial: bool, entry: Node<I, O>,
                            v: Locals<S, I, O>, ghost g: View<S>,
                            id: nat, newLinearized: array<uint64>, newState: S)
    returns (v': Locals<S, I, O>, ghost g': View<S>)
    requires Setup(es, n, nodes) && LoopHolds(m, es, n, nodes, linearized, computePartial, v, g)
      && headEntry == nodes[0]
    requires OnCall(es, n, nodes, v.entry, g.order, g.pos, id) && entry == v.entry
    requires StepOp(m, History(es, n), v.state, id) == Some(newState)
    requires NextConfig(g.order, id, newState) !in g.abs
    requires newLinearized != linearized && newLinearized !in g.stored
    requires newLinearized.Length == linearized.Length && Members(newLinearized[..]) == Elems(g.order) + {id}
    modifies nodes, linearized
    ensures LoopHolds(m, es, n, nodes, linearized, computePartial, v', g')
    ensures g'.abs == g.abs + {NextConfig(g.order, id, newState)}
  {
    var cache, first, front := Apply(es, n, nodes, headEntry, linearized, entry, v.cache, g, id, newLinearized,
                                     newState);
    v' := Locals(first, newState, v.calls + [CallsEntry(entry, v.state)], cache, v.longest);
    g' := View(g.order + [id], g.abs + {NextConfig(g.order, id, newState)}, g.stored + {newLinearized}, front - 1);
    PushHolds(m, es, n, nodes, computePartial, v, g, v', g', id, front);
    ElemsSnoc(g.order + [id]);
    assert (g.order + [id])[..|g.order|] == g.order;
  }

  /** The bitset after linearizing `id`, and whether it is cached with `newState`. */
  method Probe<S(==)>(ghost n: nat, ghost order: seq<nat>, linearized: array<uint64>, cache: Buckets<S>,
                      ghost abs: set<Config<S>>,
                      ghost stored: set<array<uint64>>, id: nat, newState: S)
    returns (newLinearized: array<uint64>, found: bool)
    requires BitsHold(n, Elems(order), linearized, cache, abs, stored) && id < n
    ensures fresh(newLinearized) && newLinearized.Length == linearized.Length
    ensures Members(newLinearized[..]) == Elems(order) + {id}
    ensures found <==> NextConfig(order, id, newState) in abs
  {
    newLinearized := Clone(linearized);
    Set(newLinearized, id);
    found := CacheContains(cache, newLinearized, newState, abs, stored);
  }

  /** The measure by which the call branch makes progress. */
  ghost predicate Progress<S>(g: View<S>, g': View<S>, size: nat) {
    g.abs < g'.abs || (g'.abs == g.abs && g'.order == g.order && g.pos < g'.pos <= size)
  }

  /** The loop body on a call that the model allows. */
  method Attempt<S(==), I, O>(ghost m: Model<S, I, O>, ghost es: seq<Entry<I, O>>, ghost n: nat,
                              ghost nodes: seq<Node<I, O>>, headEntry: Node<I, O>,
                              linearized: array<uint64>, ghost computePartial: bool, entry: Node<I, O>,
                              v: Locals<S, I, O>, ghost g: View<S>,
                              id: nat, newState: S)
    returns (v': Locals<S, I, O>, ghost g': View<S>)
    requires Setup(es, n, nodes) && LoopHolds(m, es, n, nodes, linearized, computePartial, v, g)
      && headEntry == nodes[0]
    requires OnCall(es, n, nodes, v.entry, g.order, g.pos, id) && entry == v.entry
    requires StepOp(m, History(es, n), v.state, id) == Some(newState)
    modifies nodes, linearized
    ensures LoopHolds(m, es, n, nodes, linearized, computePartial, v', g') && Progress(g, g', |es|)
  {
    var newLinearized, found := Probe(n, g.order, linearized, v.cache, g.abs, g.stored, id, newState);
    if !found {
      v', g' := Linearize(m, es, n, nodes, headEntry, linearized, computePartial, entry, v, g, id, newLinearized,
                          newState);
      assert NextConfig(g.order, id, newState) in g'.abs;
    } else {
      v', g' := Pass(m, es, n, nodes, linearized, computePartial, v, g, id);
    }
  }

  /** The loop body on a call. */
  method OnCallEntry<S(==), I, O>(m: Model<S, I, O>, ghost es: seq<Entry<I, O>>, ghost n: nat,
                                  ghost nodes: seq<Node<I, O>>, headEntry: Node<I, O>,
                                  linearized: array<uint64>, ghost computePartial: bool, v: Locals<S, I, O>,
                                  ghost g: View<S>, ghost id: nat)
    returns (v': Locals<S, I, O>, ghost g': View<S>)
    requires Setup(es, n, nodes) && LoopHolds(m, es, n, nodes, linearized, computePartial, v, g)
      && headEntry == nodes[0]
    requires OnCall(es, n, nodes, v.entry, g.order, g.pos, id)
    modifies nodes, linearized
    ensures LoopHolds(m, es, n, nodes, linearized, computePartial, v', g') && Progress(g, g', |es|)
  {
    var entry, matching := v.entry, v.entry.matching;
    CallHolds(nodes, es, n, id);
    var (ok, newState) := m.step(v.state, entry.value.input, matching.value.output);
    if ok {
      v', g' := Attempt(m, es, n, nodes, headEntry, linearized, computePartial, entry, v, g, entry.id, newState);
    } else {
      v', g' := Pass(m, es, n, nodes, linearized, computePartial, v, g, id);
    }
  }

  /** Takes back the operation linearized last: bitset and list; returns the node after its call. */
  method Undo<S, I, O>(ghost es: seq<Entry<I, O>>, ghost n: nat, ghost nodes: seq<Node<I, O>>,
                       linearized: array<uint64>,
                       entry: Node<I, O>, ghost cache: Buckets<S>, ghost g: View<S>, ghost done: seq<nat>, id: nat)
    returns (after: Node?<I, O>, ghost next: int)
    requires Setup(es, n, nodes) && Fits(n, done) && g.order == done + [id] && id < n && id !in done
      && Fits(n, done + [id])
    requires ListHolds(es, n, nodes, done + [id])
    requires BitsHold(n, Elems(done) + {id}, linearized, cache, g.abs, g.stored)
    requires entry == nodes[CallNode(es, n, id)]
    requires NoReturnBefore(History(es, n), done, History(es, n)[id].call)
    modifies nodes, linearized
    ensures ListHolds(es, n, nodes, done)
    ensures BitsHold(n, Elems(done), linearized, cache, g.abs, g.stored)
    ensures Follows(es, n, done, id, next) && after == nodes[next]
  {
    Clear(linearized, id);
    assert Elems(done) + {id} - {id} == Elems(done);
    UnliftCall(entry, es, n, nodes, done, id);
    next := NextNode(es, n, done, CallNode(es, n, id));
    Following(es, n, done, id);
    after := entry.next;
  }

  lemma TopOfStack<S, I, O>(m: Model<S, I, O>, es: seq<Entry<I, O>>, n: nat, nodes: seq<Node<I, O>>, order: seq<nat>,
                            calls: seq<CallsEntry<S, I, O>>)
    requires WellFormedEntries(es, n) && Fits(n, order) && |nodes| == |es| + 1
      && StackHolds(m, es, n, nodes, order, calls) && order != []
    requires IsPartial(m, History(es, n), order)
    ensures var last := |order| - 1; var done, id := order[..last], order[last];
      && Fits(n, done) && order == done + [id] && id < n && id !in done && Elems(order) == Elems(done) + {id}
      && calls[last].entry == nodes[CallNode(es, n, id)] && calls[last].entry.id == id
      && NoReturnBefore(History(es, n), done, History(es, n)[id].call)
  {
    TopReady(m, es, n, order);
    ElemsSnoc(order);
  }

  /** Undoes the operation on top of the stack. */
  method Rewind<S, I, O>(ghost m: Model<S, I, O>, ghost es: seq<Entry<I, O>>, ghost n: nat,
                         ghost nodes: seq<Node<I, O>>,
                         linearized: array<uint64>, calls: seq<CallsEntry<S, I, O>>, ghost cache: Buckets<S>,
                         ghost g: View<S>)
    returns (after: Node?<I, O>, ghost next: int)
    requires Setup(es, n, nodes) && Fits(n, g.order) && StackHolds(m, es, n, nodes, g.order, calls) && |calls| > 0
    requires IsPartial(m, History(es, n), g.order) && ListHolds(es, n, nodes, g.order)
    requires BitsHold(n, Elems(g.order), linearized, cache, g.abs, g.stored)
    modifies nodes, linearized
    ensures var last := |g.order| - 1;
      && Fits(n, g.order[..last]) && ListHolds(es, n, nodes, g.order[..last])
      && BitsHold(n, Elems(g.order[..last]), linearized, cache, g.abs, g.stored)
      && Follows(es, n, g.order[..last], g.order[last], next) && after == nodes[next]
  {
    var last := |calls| - 1;
    var callsTop := calls[last];
    TopOfStack(m, es, n, nodes, g.order, calls);
    after, next := Undo(es, n, nodes, linearized, callsTop.entry, cache, g, g.order[..last], callsTop.entry.id);
  }

  /** The loop body on a return: undo the last linearized operation. */
  method OnReturnEntry<S, I, O>(ghost m: Model<S, I, O>, ghost es: seq<Entry<I, O>>, ghost n: nat,
                                ghost nodes: seq<Node<I, O>>,
                                linearized: array<uint64>, computePartial: bool, v: Locals<S, I, O>, ghost g: View<S>)
    returns (v': Locals<S, I, O>, ghost g': View<S>)
    requires Setup(es, n, nodes) && LoopHolds(m, es, n, nodes, linearized, computePartial, v, g)
    requires 0 <= g.pos < |es| && es[g.pos].ReturnEntry? && es[g.pos].id !in g.order
    requires |v.calls| > 0
    modifies nodes, linearized
    ensures LoopHolds(m, es, n, nodes, linearized, computePartial, v', g')
    ensures g'.abs == g.abs && |g'.order| < |g.order|
  {
    var longest := v.longest;
    if computePartial {
      longest := RecordLongest(v.calls, v.longest, g.order);
    }
    var last := |v.calls| - 1;
    var after, next := Rewind(m, es, n, nodes, linearized, v.calls, v.cache, g);
    v' := Locals(after, v.calls[last].state, v.calls[..last], v.cache, longest);
    g' := g.(order := g.order[..last], pos := next - 1);
    BacktrackHolds(m, es, n, nodes, computePartial, v, g, v', g', next);
  }

  /** Where the cursor is while the list is not empty. */
  lemma Cursor<I, O>(es: seq<Entry<I, O>>, n: nat, nodes: seq<Node<I, O>>, entry: Node?<I, O>, order: seq<nat>,
                     pos: int, front: int)
    requires WellFormedEntries(es, n) && Represents(nodes, es, n) && AtCursor(es, n, nodes, entry, order, pos)
    requires Front(es, n, order, front) && front != END
    ensures 0 <= pos < |es| && es[pos].id !in order && entry == nodes[pos + 1]
    ensures entry.matching != null ==> OnCall(es, n, nodes, entry, order, pos, es[pos].id)
    ensures entry.matching == null ==> es[pos].ReturnEntry?
  {
    assert es[front - 1].id < n && Remaining(n, order);
    NodeKind(es, n, nodes, pos + 1);
  }

  lemma NodeKind<I, O>(es: seq<Entry<I, O>>, n: nat, nodes: seq<Node<I, O>>, k: nat)
    requires WellFormedEntries(es, n) && Represents(nodes, es, n) && 0 < k <= |es|
    ensures nodes[k].matching == null ==> es[k - 1].ReturnEntry?
    ensures nodes[k].matching != null ==>
      var id := es[k - 1].id; id < n && History(es, n)[id].call == k - 1 && CallNode(es, n, id) == k
  {
    EventAt(es, n, k - 1);
    assert NodeHolds(nodes, es, n, k);
  }

  /** An exhausted list means a complete linearization. */
  lemma Finished<S, I, O>(m: Model<S, I, O>, es: seq<Entry<I, O>>, n: nat, order: seq<nat>)
    requires WellFormedEntries(es, n) && IsPartial(m, History(es, n), order) && Front(es, n, order, END)
    ensures IsLinearization(m, History(es, n), order)
  {
    HistoryGood(es, n);
    ElemsCard(order);
    assert forall b: nat | b < n :: b in Elems(order);
    SubsetCard(Below(n), Elems(order));
    SubsetCard(Elems(order), Below(n));
    CompletePartialIsLinearization(m, History(es, n), order);
  }

  /** Stopping on a return with an empty stack means that there is no linearization. */
  lemma Refuted<S, I, O>(m: Model<S, I, O>, es: seq<Entry<I, O>>, n: nat, nodes: seq<Node<I, O>>,
                         computePartial: bool, v: Locals<S, I, O>, g: View<S>)
    requires Setup(es, n, nodes) && SearchHolds(m, es, n, nodes, computePartial, v, g) && g.order == []
    requires 0 <= g.pos < |es| && es[g.pos].ReturnEntry?
    ensures !Linearizable(m, History(es, n))
    ensures computePartial ==> LongestOptimal(m, History(es, n), v.longest)
  {
    var h := History(es, n);
    HistoryGood(es, n);
    ReturnAt(es, n, [], g.pos);
    GiveUp(m, h, g.abs, g.pos, es[g.pos].id);
    if computePartial {
      ExhaustedIsOptimal(m, h, g.abs, g.pos, es[g.pos].id, v.longest);
    }
  }

  lemma StartHolds<S, I, O>(m: Model<S, I, O>, es: seq<Entry<I, O>>, n: nat, nodes: seq<Node<I, O>>,
                            computePartial: bool, v: Locals<S, I, O>, g: View<S>, front: int)
    requires Setup(es, n, nodes)
    requires g.order == [] && g.abs == {} && Front(es, n, [], front) && g.pos == front - 1
      && v.entry == NodeAt(nodes, front)
    requires v.state == m.init && v.calls == [] && |v.longest| == n && forall i | 0 <= i < n :: v.longest[i] == None
    ensures SearchHolds(m, es, n, nodes, computePartial, v, g)
  {
    InvInit(m, History(es, n), g.pos);
  }

  /** The list with its sentinel, and the number of operations. */
  method Build<I, O>(es: seq<Entry<I, O>>, ghost n: nat)
    returns (headEntry: Node<I, O>, entry: Node?<I, O>, size: nat, ghost nodes: seq<Node<I, O>>, ghost front: int)
    requires WellFormedEntries(es, n)
    ensures Setup(es, n, nodes) && Fits(n, []) && ListHolds(es, n, nodes, []) && nodes[0] == headEntry && size == n
    ensures Front(es, n, [], front) && entry == NodeAt(nodes, front)
    ensures fresh(nodes)
  {
    ghost var slots;
    entry, slots := MakeLinkedEntries(es, n);
    var len := Length(entry, slots, |es|);
    size := len / 2;
    headEntry, nodes := AddSentinel(es, n, entry, slots);
    front := if |es| == 0 then END else 1;
    InitialList(es, n, nodes);
  }

  lemma InitialList<I, O>(es: seq<Entry<I, O>>, n: nat, nodes: seq<Node<I, O>>)
    requires Setup(es, n, nodes) && Mirror(nodes, InitialLinks(|es| + 1))
    ensures Fits(n, []) && ListHolds(es, n, nodes, [])
    ensures Front(es, n, [], if |es| == 0 then END else 1)
  {
    First(es, n, []);
  }

  method Start<S, I, O>(m: Model<S, I, O>, es: seq<Entry<I, O>>, ghost n: nat, ghost computePartial: bool)
    returns (headEntry: Node<I, O>, linearized: array<uint64>, v: Locals<S, I, O>, size: nat,
             ghost nodes: seq<Node<I, O>>, ghost g: View<S>)
    requires WellFormedEntries(es, n)
    ensures Setup(es, n, nodes) && LoopHolds(m, es, n, nodes, linearized, computePartial, v, g)
    ensures nodes[0] == headEntry && size == n
    ensures fresh(nodes) && fresh(linearized)
  {
    var entry;
    ghost var front;
    headEntry, entry, size, nodes, front := Build(es, n);
    linearized := NewBitset(size);
    v := Locals(entry, m.init, [], map[], seq(size, _ => None));
    g := View([], {}, {}, front - 1);
    StartHolds(m, es, n, nodes, computePartial, v, g, front);
  }

  /** How many configurations have not been cached yet. */
  ghost function Uncached<S, I, O>(m: Model<S, I, O>, h: seq<Operation<I, O>>, abs: set<Config<S>>): nat {
    |AllConfigs(m, h) - abs|
  }

  /** One iteration makes the triple (uncached configurations, stack depth, distance to the end) smaller. */
  ghost predicate Closer<S, I, O>(m: Model<S, I, O>, h: seq<Operation<I, O>>, g: View<S>, g': View<S>, size: nat) {
    || Uncached(m, h, g'.abs) < Uncached(m, h, g.abs)
    || (g'.abs == g.abs && |g'.order| < |g.order|)
    || (g'.abs == g.abs && |g'.order| == |g.order| && g.pos < g'.pos <= size)
  }

  lemma ProgressIsCloser<S, I, O>(m: Model<S, I, O>, h: seq<Operation<I, O>>, g: View<S>, g': View<S>, size: nat)
    requires IsPartial(m, h, g'.order) && CacheSound(m, h, g'.order, g'.abs) && Progress(g, g', size)
    ensures Closer(m, h, g, g', size)
  {
    if g.abs < g'.abs {
      CacheBounded(m, h, g'.order, g'.abs);
      var all := AllConfigs(m, h);
      var c :| c in g'.abs && c !in g.abs;
      SubsetCard(all - g'.abs, all - g.abs - {c});
    }
  }

  method Iterate<S(==), I, O>(m: Model<S, I, O>, es: seq<Entry<I, O>>, ghost n: nat, ghost nodes: seq<Node<I, O>>,
                              headEntry: Node<I, O>,
                              linearized: array<uint64>, computePartial: bool, v: Locals<S, I, O>, ghost g: View<S>)
    returns (stuck: bool, v': Locals<S, I, O>, ghost g': View<S>)
    requires Setup(es, n, nodes) && LoopHolds(m, es, n, nodes, linearized, computePartial, v, g)
      && headEntry == nodes[0]
    requires headEntry.next != null
    modifies nodes, linearized
    ensures !stuck ==> LoopHolds(m, es, n, nodes, linearized, computePartial, v', g')
    ensures !stuck ==> Closer(m, History(es, n), g, g', |es|)
    ensures stuck ==> v' == v && !Linearizable(m, History(es, n))
    ensures stuck && computePartial ==> LongestOptimal(m, History(es, n), v.longest)
  {
    First(es, n, g.order);
    Cursor(es, n, nodes, v.entry, g.order, g.pos, NextNode(es, n, g.order, 0));
    stuck, v', g' := false, v, g;
    if v.entry.matching != null {
      v', g' := OnCallEntry(m, es, n, nodes, headEntry, linearized, computePartial, v, g, es[g.pos].id);
      ProgressIsCloser(m, History(es, n), g, g', |es|);
    } else if |v.calls| == 0 {
      stuck := true;
      Refuted(m, es, n, nodes, computePartial, v, g);
    } else {
      v', g' := OnReturnEntry(m, es, n, nodes, linearized, computePartial, v, g);
    }
  }

  /** What the complete stack gives for every operation. */
  method Conclude<S, I, O>(ghost m: Model<S, I, O>, ghost es: seq<Entry<I, O>>, ghost n: nat,
                           ghost nodes: seq<Node<I, O>>,
                           calls: seq<CallsEntry<S, I, O>>, ghost order: seq<nat>, size: nat)
    returns (longest: seq<Option<seq<nat>>>)
    requires WellFormedEntries(es, n) && Fits(n, order) && |nodes| == |es| + 1
      && StackHolds(m, es, n, nodes, order, calls)
    requires IsPartial(m, History(es, n), order) && Front(es, n, order, END) && size == n
    ensures Linearizable(m, History(es, n)) && LongestSound(m, History(es, n), longest)
    ensures forall id: nat | id < n :: longest[id].Some? && IsLinearization(m, History(es, n), longest[id].value)
  {
    Finished(m, es, n, order);
    var ids := Ids(calls, order);
    Pigeonhole(n, ids);
    longest := seq(size, _ => Some(ids));
  }

  /** The search.  `kill(i)` is what the `i`-th load of the kill flag returns; `stopped` is the
      load that ended the search, if one did. */
  method CheckSingle<S(==), I, O>(m: Model<S, I, O>, es: seq<Entry<I, O>>, ghost n: nat, computePartial: bool,
                                  kill: nat -> bool)
    returns (ok: bool, longest: seq<Option<seq<nat>>>, ghost stopped: Option<nat>)
    requires WellFormedEntries(es, n)
    // the verdict is right unless the search was told to stop
    ensures stopped == None ==> (ok <==> Linearizable(m, History(es, n)))
    ensures stopped.Some? ==> !ok && kill(stopped.value)
    // whatever is handed out is a partial linearization containing the operation it is handed out for
    ensures LongestSound(m, History(es, n), longest)
    ensures ok ==> forall id: nat | id < n :: longest[id].Some? && IsLinearization(m, History(es, n), longest[id].value)
    ensures !ok && computePartial && stopped == None ==> LongestOptimal(m, History(es, n), longest)
    ensures !ok && !computePartial ==> forall id: nat | id < n :: longest[id] == None
  {
    ghost var h := History(es, n);
    var headEntry, linearized, v, size, nodes, g := Start(m, es, n, computePartial);
    var loads: nat := 0;
    while headEntry.next != null
      invariant LoopHolds(m, es, n, nodes, linearized, computePartial, v, g) && nodes[0] == headEntry
      invariant fresh(nodes) && fresh(linearized)
      decreases Uncached(m, h, g.abs), |g.order|, |es| - g.pos
    {
      if kill(loads) {
        return false, v.longest, Some(loads);
      }
      loads := loads + 1;
      var stuck;
      stuck, v, g := Iterate(m, es, n, nodes, headEntry, linearized, computePartial, v, g);
      if stuck {
        return false, v.longest, None;
      }
    }
    First(es, n, g.order);
    longest := Conclude(m, es, n, nodes, v.calls, g.order, size);
    ok, stopped := true, None;
  }
}
