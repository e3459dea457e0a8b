/**
  The doubly linked list of events that the search edits in place
  (src/porcupine/checker.go: node, insertBefore, length, makeLinkedEntries, lift, unlift).

  `Links` is a picture of all `next` and `prev` pointers by node number; `Mirror` says that the
  heap agrees with it.  What lifting and unlifting do to the list is then proved on pictures:
  unlifting restores the picture exactly, and the picture always shows the remaining events
  in their original order.
 */
module LinkedEntries {
  import opened Linearizability
  import opened Events

  /** The contents of a node; the sentinel at the head holds nothing. */
  datatype Value<+I, +O> = Nothing | Input(input: I) | Output(output: O)

  class Node<I, O> {
    const value: Value<I, O>
    const matching: Node?<I, O>  // the return node, for a call node
    const id: int
    var next: Node?<I, O>
    var prev: Node?<I, O>
    ghost const num: nat  // 0 for the sentinel, 1 + position for the node of an event

    constructor (value: Value<I, O>, matching: Node?<I, O>, id: int, ghost num: nat)
      ensures this.value == value && this.matching == matching && this.id == id && this.num == num
      ensures next == null && prev == null
    {
      this.value := value;
      this.matching := matching;
      this.id := id;
      this.num := num;
      next := null;
      prev := null;
    }
  }

  // ---------- pictures of the links ----------

  /** `succ[k]` and `pred[k]` are the numbers of the nodes after and before node `k`; `END` is nil. */
  datatype Links = Links(succ: seq<int>, pred: seq<int>)

  const END: int := -1

  ghost function NodeAt<I, O>(nodes: seq<Node<I, O>>, k: int): Node?<I, O> {
    if 0 <= k < |nodes| then nodes[k] else null
  }

  ghost predicate Numbered<I, O>(nodes: seq<Node<I, O>>) {
    forall k | 0 <= k < |nodes| :: nodes[k].num == k
  }

  ghost predicate InBounds(s: Links, size: nat) {
    && |s.succ| == |s.pred| == size
    && (forall k | 0 <= k < size :: END <= s.succ[k] < size)
    && (forall k | 0 <= k < size :: END <= s.pred[k] < size)
  }

  ghost predicate Mirror<I, O>(nodes: seq<Node<I, O>>, s: Links)
    reads nodes
  {
    && Numbered(nodes) && InBounds(s, |nodes|)
    && (forall k {:trigger nodes[k].next} | 0 <= k < |nodes| :: nodes[k].next == NodeAt(nodes, s.succ[k]))
    && (forall k {:trigger nodes[k].prev} | 0 <= k < |nodes| :: nodes[k].prev == NodeAt(nodes, s.pred[k]))
  }

  ghost function SetSucc(s: Links, k: nat, v: int): Links
    requires k < |s.succ|
  {
    s.(succ := s.succ[k := v])
  }

  ghost function SetPred(s: Links, k: nat, v: int): Links
    requires k < |s.pred|
  {
    s.(pred := s.pred[k := v])
  }

  /** Node `k` sits properly between its neighbours. */
  ghost predicate LinkedAt(s: Links, k: int) {
    && |s.succ| == |s.pred| && 0 < k < |s.succ|
    && 0 <= s.pred[k] < |s.succ| && s.pred[k] != k && s.succ[s.pred[k]] == k
    && END <= s.succ[k] < |s.succ| && s.succ[k] != k
    && (s.succ[k] != END ==> s.pred[s.succ[k]] == k && s.succ[k] != s.pred[k])
  }

  /** The picture after the neighbours of node `k` are joined; `k` itself keeps its links. */
  ghost function Out(s: Links, k: nat): Links
    requires LinkedAt(s, k)
  {
    var s1 := SetSucc(s, s.pred[k], s.succ[k]);
    if s.succ[k] == END then s1 else SetPred(s1, s.succ[k], s.pred[k])
  }

  /** The picture after node `k` is put back between the neighbours it remembers. */
  ghost function In(s: Links, k: nat): Links
    requires |s.succ| == |s.pred| && k < |s.succ| && 0 <= s.pred[k] < |s.succ| && END <= s.succ[k] < |s.succ|
  {
    var s1 := SetSucc(s, s.pred[k], k);
    if s.succ[k] == END then s1 else SetPred(s1, s.succ[k], k)
  }

  lemma InOut(s: Links, k: nat)
    requires LinkedAt(s, k)
    ensures var o := Out(s, k);
      && |o.succ| == |o.pred| == |s.succ| && o.pred[k] == s.pred[k] && o.succ[k] == s.succ[k]
      && In(o, k) == s
  {
    var o := Out(s, k);
    assert In(o, k).succ == s.succ;
    assert In(o, k).pred == s.pred;
  }

  /** Joins the neighbours of a call, which is never last: its return comes later. */
  method UnlinkCall<I, O>(x: Node<I, O>, ghost nodes: seq<Node<I, O>>, ghost s: Links, ghost k: nat)
    requires Mirror(nodes, s) && k < |nodes| && x == nodes[k] && LinkedAt(s, k) && s.succ[k] != END
    modifies nodes
    ensures Mirror(nodes, Out(s, k))
  {
    x.prev.next := x.next;
    x.next.prev := x.prev;
  }

  /** Puts a call back between the neighbours it remembers. */
  method RelinkCall<I, O>(x: Node<I, O>, ghost nodes: seq<Node<I, O>>, ghost s: Links, ghost k: nat)
    requires k < |nodes| && x == nodes[k] && LinkedAt(s, k) && s.succ[k] != END
    requires Mirror(nodes, Out(s, k))
    modifies nodes
    ensures Mirror(nodes, s)
  {
    InOut(s, k);
    x.prev.next := x;
    x.next.prev := x;
  }

  /** Joins the neighbours of a return, which may be last. */
  method Unlink<I, O>(x: Node<I, O>, ghost nodes: seq<Node<I, O>>, ghost s: Links, ghost k: nat)
    requires Mirror(nodes, s) && k < |nodes| && x == nodes[k] && LinkedAt(s, k)
    modifies nodes
    ensures Mirror(nodes, Out(s, k))
  {
    x.prev.next := x.next;
    if x.next != null {
      x.next.prev := x.prev;
    }
  }

  /** Puts a return back between the neighbours it remembers. */
  method Relink<I, O>(x: Node<I, O>, ghost nodes: seq<Node<I, O>>, ghost s: Links, ghost k: nat)
    requires k < |nodes| && x == nodes[k] && LinkedAt(s, k)
    requires Mirror(nodes, Out(s, k))
    modifies nodes
    ensures Mirror(nodes, s)
  {
    InOut(s, k);
    x.prev.next := x;
    if x.next != null {
      x.next.prev := x;
    }
  }

  /** Takes a call and its return out of the list. */
  method Lift<I, O>(entry: Node<I, O>, ghost nodes: seq<Node<I, O>>, ghost s: Links, ghost e: nat, ghost r: nat)
    requires Mirror(nodes, s) && e < |nodes| && r < |nodes|
    requires entry == nodes[e] && entry.matching == nodes[r]
    requires LinkedAt(s, e) && s.succ[e] != END && LinkedAt(Out(s, e), r)
    modifies nodes
    ensures Mirror(nodes, Out(Out(s, e), r))
  {
    UnlinkCall(entry, nodes, s, e);
    Unlink(entry.matching, nodes, Out(s, e), r);
  }

  /** Puts a call and its return back: every link is as it was before `Lift`. */
  method Unlift<I, O>(entry: Node<I, O>, ghost nodes: seq<Node<I, O>>, ghost s: Links, ghost e: nat, ghost r: nat)
    requires e < |nodes| && r < |nodes|
    requires entry == nodes[e] && entry.matching == nodes[r]
    requires LinkedAt(s, e) && s.succ[e] != END && LinkedAt(Out(s, e), r)
    requires Mirror(nodes, Out(Out(s, e), r))
    modifies nodes
    ensures Mirror(nodes, s)
  {
    Relink(entry.matching, nodes, Out(s, e), r);
    RelinkCall(entry, nodes, s, e);
  }

  // ---------- the list always shows the remaining events in order ----------

  /** `v` is the first element of `live` after `k`, or `END` if there is none. */
  ghost predicate Next(live: set<int>, k: int, v: int) {
    if v == END then forall x | x in live :: x <= k
    else v in live && k < v && forall x | x in live :: x <= k || v <= x
  }

  lemma NextUnique(live: set<int>, k: int, v: int, w: int)
    requires Next(live, k, v) && Next(live, k, w)
    ensures v == w
  {
  }

  lemma PreviousUnique(live: set<int>, a: int, b: int, k: int)
    requires k != END && a in live && b in live && Next(live, a, k) && Next(live, b, k)
    ensures a == b
  {
  }

  lemma NextWithout(live: set<int>, x: int, v: int, k: int)
    requires Next(live, x, v) && v != k
    ensures Next(live - {k}, x, v)
  {
  }

  lemma NextAcross(live: set<int>, p: int, k: int, v: int)
    requires k != END && Next(live, p, k) && Next(live, k, v)
    ensures Next(live - {k}, p, v)
  {
  }

  /** Following `succ` from node 0 visits exactly `live`, in increasing order; `pred` goes back. */
  ghost predicate Shows(s: Links, live: set<int>, size: nat) {
    && InBounds(s, size) && 0 in live
    && (forall k | k in live :: 0 <= k < size)
    && (forall k {:trigger s.succ[k]} | k in live :: Next(live, k, s.succ[k]))
    && (forall k {:trigger s.pred[k]} | k in live && k != 0 :: s.pred[k] in live && Next(live, s.pred[k], k))
  }

  lemma ShowsLinked(s: Links, live: set<int>, size: nat, k: nat)
    requires Shows(s, live, size) && k in live && k != 0
    ensures LinkedAt(s, k)
  {
    var p, v := s.pred[k], s.succ[k];
    NextUnique(live, p, s.succ[p], k);
    if v != END {
      PreviousUnique(live, s.pred[v], k, v);
    }
  }

  lemma OutShows(s: Links, live: set<int>, size: nat, k: nat)
    requires Shows(s, live, size) && k in live && k != 0
    ensures LinkedAt(s, k) && Shows(Out(s, k), live - {k}, size)
  {
    ShowsLinked(s, live, size, k);
    var o, p, v, live' := Out(s, k), s.pred[k], s.succ[k], live - {k};
    NextAcross(live, p, k, v);
    forall x | x in live' ensures Next(live', x, o.succ[x]) {
      if x != p {
        if s.succ[x] == k {
          PreviousUnique(live, x, p, k);
        }
        NextWithout(live, x, s.succ[x], k);
      }
    }
    forall x | x in live' && x != 0 ensures o.pred[x] in live' && Next(live', o.pred[x], x) {
      if x != v {
        if s.pred[x] == k {
          NextUnique(live, k, x, v);
        }
        NextWithout(live, s.pred[x], x, k);
      }
    }
  }

  /** The numbers of the nodes whose operations are not in `done`, and of the sentinel. */
  ghost function Live<I, O>(es: seq<Entry<I, O>>, done: seq<nat>): set<int> {
    set k: int | 0 <= k <= |es| && IsLive(es, done, k)
  }

  ghost predicate IsLive<I, O>(es: seq<Entry<I, O>>, done: seq<nat>, k: int)
    requires 0 <= k <= |es|
  {
    k == 0 || es[k - 1].id !in done
  }

  ghost function InitialLinks(size: nat): Links {
    Links(seq(size, k => if k + 1 < size then k + 1 else END), seq(size, k => k - 1))
  }

  lemma InitialShows<I, O>(es: seq<Entry<I, O>>)
    ensures Shows(InitialLinks(|es| + 1), Live(es, []), |es| + 1)
  {
  }

  /** The number of the node of an operation's call, and of its return. */
  ghost function CallNode<I, O>(es: seq<Entry<I, O>>, n: nat, id: nat): (k: nat)
    requires WellFormedEntries(es, n) && id < n
    ensures 0 < k <= |es|
  {
    History(es, n)[id].call + 1
  }

  ghost function ReturnNode<I, O>(es: seq<Entry<I, O>>, n: nat, id: nat): (k: nat)
    requires WellFormedEntries(es, n) && id < n
    ensures CallNode(es, n, id) < k <= |es|
  {
    History(es, n)[id].ret + 1
  }

  lemma LiveLift<I, O>(es: seq<Entry<I, O>>, n: nat, done: seq<nat>, id: nat)
    requires WellFormedEntries(es, n) && id < n && id !in done
    ensures CallNode(es, n, id) in Live(es, done) && ReturnNode(es, n, id) in Live(es, done)
    ensures Live(es, done + [id]) == Live(es, done) - {CallNode(es, n, id)} - {ReturnNode(es, n, id)}
  {
    var c, r := CallNode(es, n, id), ReturnNode(es, n, id);
    assert IsLive(es, done, c) && IsLive(es, done, r);
    forall k: int | 0 <= k <= |es|
      ensures IsLive(es, done + [id], k) <==> IsLive(es, done, k) && k != c && k != r
    {
      if k > 0 && es[k - 1].id == id {
        EventAt(es, n, k - 1);
      }
    }
  }

  /** Besides the sentinel, two nodes are left for each operation that is not lifted. */
  lemma {:induction false} LiveCount<I, O>(es: seq<Entry<I, O>>, n: nat, order: seq<nat>)
    requires WellFormedEntries(es, n) && InRange(n, order) && Distinct(order)
    ensures |Live(es, order) - {0}| == 2 * (n - |order|)
    decreases |order|
  {
    if order == [] {
      assert Live(es, order) == Range(|es| + 1);
    } else {
      var done, id := order[..|order| - 1], order[|order| - 1];
      assert order == done + [id];
      LiveCount(es, n, done);
      LiveLift(es, n, done, id);
      var c, r := CallNode(es, n, id), ReturnNode(es, n, id);
      DropTwo(Live(es, done), Live(es, order), c, r);
    }
  }

  lemma DropTwo(live: set<int>, live': set<int>, c: int, r: int)
    requires c in live && r in live && c != r && c != 0 && r != 0 && live' == live - {c} - {r}
    ensures |live' - {0}| == |live - {0}| - 2
  {
    assert live' - {0} == (live - {0}) - {c, r};
    assert |{c, r}| == 2;
  }

  ghost function Range(n: nat): (r: set<int>)
    ensures forall k: int :: k in r <==> 0 <= k < n
    ensures |r| == n
  {
    if n == 0 then {} else Range(n - 1) + {n - 1}
  }

  lemma LiftShows<I, O>(es: seq<Entry<I, O>>, n: nat, done: seq<nat>, s: Links, id: nat)
    requires WellFormedEntries(es, n) && id < n && id !in done
    requires Shows(s, Live(es, done), |es| + 1)
    ensures LinkedAt(s, CallNode(es, n, id)) && s.succ[CallNode(es, n, id)] != END
    ensures LinkedAt(Out(s, CallNode(es, n, id)), ReturnNode(es, n, id))
    ensures Shows(Out(Out(s, CallNode(es, n, id)), ReturnNode(es, n, id)), Live(es, done + [id]), |es| + 1)
  {
    var c, r := CallNode(es, n, id), ReturnNode(es, n, id);
    LiveLift(es, n, done, id);
    assert Next(Live(es, done), c, s.succ[c]) && r in Live(es, done);
    OutShows(s, Live(es, done), |es| + 1, c);
    OutShows(Out(s, c), Live(es, done) - {c}, |es| + 1, r);
  }

  /** The picture after lifting operation `id` as well. */
  ghost function LiftLinks<I, O>(es: seq<Entry<I, O>>, n: nat, done: seq<nat>, s: Links, id: nat): (r: Links)
    requires WellFormedEntries(es, n) && id < n && id !in done
    requires Shows(s, Live(es, done), |es| + 1)
    ensures Shows(r, Live(es, done + [id]), |es| + 1)
  {
    LiftShows(es, n, done, s, id);
    Out(Out(s, CallNode(es, n, id)), ReturnNode(es, n, id))
  }

  /** The picture after lifting the operations of `order`, one by one. */
  ghost function LinksAfter<I, O>(es: seq<Entry<I, O>>, n: nat, order: seq<nat>): (s: Links)
    requires WellFormedEntries(es, n) && InRange(n, order) && Distinct(order)
    ensures Shows(s, Live(es, order), |es| + 1)
    decreases |order|
  {
    if order == [] then
      InitialShows(es);
      InitialLinks(|es| + 1)
    else
      var done, id := order[..|order| - 1], order[|order| - 1];
      assert order == done + [id];
      LiftLinks(es, n, done, LinksAfter(es, n, done), id)
  }

  // ---------- building the list ----------

  /** Puts `n` in front of `mark`; without a mark, `n` is left alone. */
  method InsertBefore<I, O>(n: Node<I, O>, mark: Node?<I, O>) returns (r: Node<I, O>)
    requires n != mark && (mark != null ==> mark.prev != mark && mark.prev != n)
    modifies n, if mark != null then {mark} + (if mark.prev != null then {mark.prev} else {}) else {}
    ensures r == n
    ensures mark == null ==> n.next == old(n.next) && n.prev == old(n.prev)
    ensures mark != null ==> n.next == mark && mark.prev == n && mark.next == old(mark.next)
    ensures mark != null && old(mark.prev) == null ==> n.prev == old(n.prev)
    ensures mark != null && old(mark.prev) != null ==> n.prev == old(mark.prev) && n.prev.next == n
  {
    if mark != null {
      var beforeMark := mark.prev;
      mark.prev := n;
      n.next := mark;
      if beforeMark != null {
        n.prev := beforeMark;
        beforeMark.next := n;
      }
    }
    r := n;
  }

  /** Node `x` holds event `e`; the node of a call knows the node of its return. */
  ghost predicate Holds<I, O>(x: Node<I, O>, e: Entry<I, O>, ret: Node?<I, O>) {
    && x.id == e.id
    && match e
       case CallEntry(input, _, _) => x.value == Input(input) && ret != null && x.matching == ret
       case ReturnEntry(output, _, _) => x.value == Output(output) && x.matching == null
  }

  ghost function Slot<I, O>(m: map<int, Node<I, O>>, p: int): Node?<I, O> {
    if p in m then m[p] else null
  }

  /** The nodes of the events from position `i` on, linked up. */
  ghost predicate LinkedFrom<I, O>(m: map<int, Node<I, O>>, i: int, size: int)
    reads m.Values
  {
    && (forall p :: p in m <==> i <= p < size)
    && (forall p | p in m :: m[p].num == p + 1)
    && (forall p {:trigger m[p].next} | p in m :: m[p].next == Slot(m, p + 1))
    && (forall p {:trigger m[p].prev} | p in m :: m[p].prev == Slot(m, p - 1))
  }

  ghost predicate HoldsFrom<I, O>(m: map<int, Node<I, O>>, i: int, es: seq<Entry<I, O>>, n: nat)
    requires WellFormedEntries(es, n) && 0 <= i
  {
    && (forall p :: p in m <==> i <= p < |es|)
    && forall p | p in m :: Holds(m[p], es[p], Slot(m, ReturnPos(es, n, es[p].id)))
  }

  method Prepend<I, O>(entry: Node<I, O>, root: Node?<I, O>, ghost m: map<int, Node<I, O>>, ghost i: int,
                       ghost size: int)
    returns (r: Node<I, O>)
    requires LinkedFrom(m, i + 1, size) && -1 <= i < size && root == Slot(m, i + 1)
    requires entry.next == null && entry.prev == null && entry.num == i + 1
    modifies entry, if root != null then {root} else {}
    ensures r == entry && LinkedFrom(m[i := entry], i, size)
  {
    assert forall p | p in m :: m[p] != entry;
    r := InsertBefore(entry, root);
  }

  lemma HoldsPrepend<I, O>(m: map<int, Node<I, O>>, i: int, es: seq<Entry<I, O>>, n: nat, entry: Node<I, O>)
    requires WellFormedEntries(es, n) && 0 <= i < |es| && HoldsFrom(m, i + 1, es, n)
    requires Holds(entry, es[i], Slot(m[i := entry], ReturnPos(es, n, es[i].id)))
    ensures HoldsFrom(m[i := entry], i, es, n)
  {
    forall p | p in m ensures Holds(m[p], es[p], Slot(m[i := entry], ReturnPos(es, n, es[p].id))) {
      assert Holds(m[p], es[p], Slot(m, ReturnPos(es, n, es[p].id)));
      if es[p].CallEntry? {
        assert IsCall(es, p, es[p].id);
      }
    }
  }

  ghost predicate MatchesFrom<I, O>(matches: map<nat, Node<I, O>>, m: map<int, Node<I, O>>, i: int,
                                    es: seq<Entry<I, O>>, n: nat)
    requires WellFormedEntries(es, n)
  {
    forall id: nat | id < n && i <= ReturnPos(es, n, id) ::
      id in matches && matches[id] == Slot(m, ReturnPos(es, n, id))
  }

  /** The node for event `i`; a return node is remembered for the call that comes before it. */
  method NewNode<I, O>(es: seq<Entry<I, O>>, ghost n: nat, i: nat, matches: map<nat, Node<I, O>>,
                       ghost m: map<int, Node<I, O>>)
    returns (entry: Node<I, O>, matches': map<nat, Node<I, O>>)
    requires WellFormedEntries(es, n) && i < |es| && HoldsFrom(m, i + 1, es, n) && MatchesFrom(matches, m, i + 1, es, n)
    ensures fresh(entry) && entry.next == null && entry.prev == null && entry.num == i + 1
    ensures HoldsFrom(m[i := entry], i, es, n) && MatchesFrom(matches', m[i := entry], i, es, n)
  {
    var elem := es[i];
    matches' := matches;
    ghost var r := ReturnPos(es, n, elem.id);
    if elem.ReturnEntry? {
      assert IsReturn(es, i, elem.id) && IsReturn(es, r, elem.id);
      entry := new Node(Output(elem.output), null, elem.id, i + 1);
      matches' := matches[elem.id := entry];
    } else {
      assert IsCall(es, i, elem.id) && IsReturn(es, r, elem.id);
      var matching := if elem.id in matches then matches[elem.id] else null;
      entry := new Node(Input(elem.input), matching, elem.id, i + 1);
    }
    HoldsPrepend(m, i, es, n, entry);
  }

  method MakeLinkedEntries<I, O>(es: seq<Entry<I, O>>, ghost n: nat)
    returns (root: Node?<I, O>, ghost m: map<int, Node<I, O>>)
    requires WellFormedEntries(es, n)
    ensures LinkedFrom(m, 0, |es|) && root == Slot(m, 0)
    ensures forall p | p in m :: fresh(m[p])
    ensures HoldsFrom(m, 0, es, n)
  {
    root := null;
    m := map[];
    var matches: map<nat, Node<I, O>> := map[];
    var i := |es|;
    while i > 0
      invariant 0 <= i <= |es|
      invariant forall p | p in m :: fresh(m[p])
      invariant LinkedFrom(m, i, |es|) && root == Slot(m, i)
      invariant HoldsFrom(m, i, es, n) && MatchesFrom(matches, m, i, es, n)
    {
      i := i - 1;
      var entry;
      entry, matches := NewNode(es, n, i, matches, m);
      root := Prepend(entry, root, m, i, |es|);
      m := m[i := entry];
    }
  }

  method Length<I, O>(n: Node?<I, O>, ghost m: map<int, Node<I, O>>, ghost size: nat) returns (l: nat)
    requires LinkedFrom(m, 0, size) && n == Slot(m, 0)
    ensures l == size
  {
    var cur := n;
    l := 0;
    while cur != null
      invariant l <= size && cur == Slot(m, l)
      decreases size - l
    {
      cur := cur.next;
      l := l + 1;
    }
  }

  /** `nodes` are the sentinel and then the nodes of the events, in order. */
  ghost predicate Represents<I, O>(nodes: seq<Node<I, O>>, es: seq<Entry<I, O>>, n: nat)
    requires WellFormedEntries(es, n)
  {
    && |nodes| == |es| + 1 && Numbered(nodes)
    && forall k: nat {:trigger NodeHolds(nodes, es, n, k)} | 0 < k < |nodes| :: NodeHolds(nodes, es, n, k)
  }

  ghost predicate NodeHolds<I, O>(nodes: seq<Node<I, O>>, es: seq<Entry<I, O>>, n: nat, k: nat)
    requires WellFormedEntries(es, n) && |nodes| == |es| + 1 && 0 < k < |nodes|
  {
    Holds(nodes[k], es[k - 1], NodeAt(nodes, ReturnNode(es, n, es[k - 1].id)))
  }

  ghost predicate Lists<I, O>(nodes: seq<Node<I, O>>, m: map<int, Node<I, O>>) {
    forall k | 0 <= k < |nodes| :: k - 1 in m && nodes[k] == m[k - 1]
  }

  lemma SlotNode<I, O>(nodes: seq<Node<I, O>>, m: map<int, Node<I, O>>, size: nat, k: int)
    requires |nodes| == size + 1 && Lists(nodes, m) && forall p :: p in m <==> -1 <= p < size
    ensures Slot(m, k - 1) == NodeAt(nodes, k)
  {
  }

  lemma MirrorInitial<I, O>(nodes: seq<Node<I, O>>, m: map<int, Node<I, O>>, size: nat)
    requires LinkedFrom(m, -1, size) && |nodes| == size + 1 && Lists(nodes, m)
    ensures Mirror(nodes, InitialLinks(size + 1))
  {
    var s := InitialLinks(size + 1);
    forall k | 0 <= k < |nodes|
      ensures nodes[k].next == NodeAt(nodes, s.succ[k]) && nodes[k].prev == NodeAt(nodes, s.pred[k])
    {
      SlotNode(nodes, m, size, k + 1);
      SlotNode(nodes, m, size, k - 1);
      var x := m[k - 1];
      assert x.next == Slot(m, k) && x.prev == Slot(m, k - 2);
    }
  }

  lemma RepresentsInitial<I, O>(nodes: seq<Node<I, O>>, m: map<int, Node<I, O>>, es: seq<Entry<I, O>>, n: nat)
    requires WellFormedEntries(es, n) && HoldsFrom(m, 0, es, n)
    requires |nodes| == |es| + 1 && Numbered(nodes) && forall k: nat | 0 < k < |nodes| :: nodes[k] == m[k - 1]
    ensures Represents(nodes, es, n)
  {
    forall k: nat | 0 < k < |nodes|
      ensures NodeHolds(nodes, es, n, k)
    {
      var id := es[k - 1].id;
      var r := ReturnPos(es, n, id);
      assert IsReturn(es, r, id) && IsReturn(es, ReturnNode(es, n, id) - 1, id);
      assert Holds(m[k - 1], es[k - 1], Slot(m, r));
    }
  }

  /** Puts a sentinel in front of the list. */
  method AddSentinel<I, O>(es: seq<Entry<I, O>>, ghost n: nat, root: Node?<I, O>, ghost m: map<int, Node<I, O>>)
    returns (headEntry: Node<I, O>, ghost nodes: seq<Node<I, O>>)
    requires WellFormedEntries(es, n) && LinkedFrom(m, 0, |es|) && root == Slot(m, 0) && HoldsFrom(m, 0, es, n)
    modifies if root != null then {root} else {}
    ensures Represents(nodes, es, n) && Mirror(nodes, InitialLinks(|es| + 1))
    ensures nodes[0] == headEntry && fresh(headEntry)
    ensures forall k | 0 < k < |nodes| :: nodes[k] == Slot(m, k - 1)
    ensures root == NodeAt(nodes, 1)
  {
    var node := new Node(Nothing, null, -1, 0);
    headEntry := Prepend(node, root, m, -1, |es|);
    ghost var m' := m[-1 := headEntry];
    nodes := seq(|es| + 1, k requires 0 <= k < |es| + 1 && k - 1 in m' => m'[k - 1]);
    MirrorInitial(nodes, m', |es|);
    RepresentsInitial(nodes, m, es, n);
  }
}
