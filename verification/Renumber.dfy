/**
  Histories given as event lists with arbitrary ids (src/porcupine/checker.go: renumber,
  convertEntries): ids become 0, 1, 2, ... in order of first appearance, positions become times.
 */
module Renumber {
  import opened Linearizability
  import opened Events
  import opened Search
  import opened Checker

  datatype Event<I, O> =
    | CallEvent(input: I, id: int)
    | ReturnEvent(output: O, id: int)

  predicate Calls<I, O>(events: seq<Event<I, O>>, p: int, id: int) {
    0 <= p < |events| && events[p].CallEvent? && events[p].id == id
  }

  predicate Returns<I, O>(events: seq<Event<I, O>>, p: int, id: int) {
    0 <= p < |events| && events[p].ReturnEvent? && events[p].id == id
  }

  /** Each id has one call and, later, one return; nothing is said about which ids are used. */
  ghost predicate WellFormedEvents<I, O>(events: seq<Event<I, O>>) {
    && (forall i | 0 <= i < |events| ::
          (exists p :: Calls(events, p, events[i].id)) && (exists q :: Returns(events, q, events[i].id)))
    && (forall p, q, id | Calls(events, p, id) && Calls(events, q, id) :: p == q)
    && (forall p, q, id | Returns(events, p, id) && Returns(events, q, id) :: p == q)
    && (forall p, q, id | Calls(events, p, id) && Returns(events, q, id) :: p < q)
  }

  /** The same event under another id. */
  ghost predicate SameEvent<I, O>(e: Event<I, O>, f: Event<I, O>) {
    match e
    case CallEvent(input, _) => f.CallEvent? && f.input == input
    case ReturnEvent(output, _) => f.ReturnEvent? && f.output == output
  }

  /** The new ids tell events apart exactly as the old ones do, and are the first `n` numbers. */
  ghost predicate IsRenumbering<I, O>(events: seq<Event<I, O>>, e: seq<Event<I, O>>, n: nat) {
    && |e| == |events|
    && (forall p | 0 <= p < |e| :: SameEvent(events[p], e[p]) && 0 <= e[p].id < n)
    && (forall p, q | 0 <= p < |e| && 0 <= q < |e| :: e[p].id == e[q].id <==> events[p].id == events[q].id)
    && (forall id | 0 <= id < n :: FirstAt(e, id))
  }

  /** Number `id` is used, and where it first appears only smaller ones were used before. */
  ghost predicate FirstAt<I, O>(e: seq<Event<I, O>>, id: int) {
    exists p :: 0 <= p < |e| && e[p].id == id && forall q | 0 <= q < p :: e[q].id < id
  }

  /** The numbers given so far. */
  ghost predicate Numbers<I, O>(events: seq<Event<I, O>>, i: nat, m: map<int, nat>, id: nat, e: seq<Event<I, O>>)
    requires i <= |events|
  {
    && |e| == i
    && (forall p | 0 <= p < i :: events[p].id in m && SameEvent(events[p], e[p]) && e[p].id == m[events[p].id])
    && (forall x | x in m :: m[x] < id)
    && (forall x, y | x in m && y in m && m[x] == m[y] :: x == y)
    && (forall k | 0 <= k < id :: FirstAt(e, k))
  }

  function WithId<I, O>(e: Event<I, O>, id: int): Event<I, O> {
    match e
    case CallEvent(input, _) => CallEvent(input, id)
    case ReturnEvent(output, _) => ReturnEvent(output, id)
  }

  method Renumber<I, O>(events: seq<Event<I, O>>) returns (e: seq<Event<I, O>>, n: nat)
    ensures IsRenumbering(events, e, n)
  {
    e := [];
    var m: map<int, nat> := map[];
    var id: nat := 0;
    for i := 0 to |events|
      invariant Numbers(events, i, m, id, e)
    {
      var v := events[i];
      if v.id in m {
        SeenBefore(e, WithId(v, m[v.id]), id);
        e := e + [WithId(v, m[v.id])];
      } else {
        NewNumber(e, WithId(v, id), id);
        e := e + [WithId(v, id)];
        m := m[v.id := id];
        id := id + 1;
      }
    }
    return e, id;
  }

  lemma SeenBefore<I, O>(e: seq<Event<I, O>>, v: Event<I, O>, id: nat)
    requires forall k | 0 <= k < id :: FirstAt(e, k)
    ensures forall k | 0 <= k < id :: FirstAt(e + [v], k)
  {
    forall k | 0 <= k < id ensures FirstAt(e + [v], k) {
      assert FirstAt(e, k);
      var p :| 0 <= p < |e| && e[p].id == k && forall q | 0 <= q < p :: e[q].id < k;
      assert (e + [v])[p].id == k;
    }
  }

  lemma NewNumber<I, O>(e: seq<Event<I, O>>, v: Event<I, O>, id: nat)
    requires (forall k | 0 <= k < id :: FirstAt(e, k)) && (forall p | 0 <= p < |e| :: e[p].id < id) && v.id == id
    ensures forall k | 0 <= k < id + 1 :: FirstAt(e + [v], k)
  {
    SeenBefore(e, v, id);
    assert (e + [v])[|e|].id == id;
  }

  /** The renumbering of an event list is determined by it. */
  lemma {:induction false} RenumberingUnique<I, O>(events: seq<Event<I, O>>, e: seq<Event<I, O>>, n: nat,
                                                   f: seq<Event<I, O>>, k: nat, i: nat)
    requires IsRenumbering(events, e, n) && IsRenumbering(events, f, k) && i <= |events|
    ensures e[..i] == f[..i]
  {
    if i > 0 {
      RenumberingUnique(events, e, n, f, k, i - 1);
      var last := i - 1;
      assert forall q | 0 <= q < last :: e[q] == e[..last][q] == f[..last][q] == f[q];
      if q :| 0 <= q < last && events[q].id == events[last].id {
        assert e[last].id == e[q].id && f[last].id == f[q].id;
      } else {
        NotBelow(events, e, n, f, k, last);
        NotBelow(events, f, k, e, n, last);
      }
      assert SameEvent(events[last], e[last]) && SameEvent(events[last], f[last]);
      assert e[..i] == e[..last] + [e[last]] && f[..i] == f[..last] + [f[last]];
    }
  }

  /** A new id gets the least unused number. */
  lemma NotBelow<I, O>(events: seq<Event<I, O>>, e: seq<Event<I, O>>, n: nat, f: seq<Event<I, O>>, k: nat, last: nat)
    requires IsRenumbering(events, e, n) && IsRenumbering(events, f, k) && last < |events|
    requires forall q | 0 <= q < last :: e[q] == f[q] && events[q].id != events[last].id
    ensures e[last].id <= f[last].id
  {
    assert f[last].id < n ==> FirstAt(e, f[last].id);
  }

  method ConvertEntries<I, O>(events: seq<Event<I, O>>) returns (es: seq<Entry<I, O>>)
    ensures IsConverted(events, es)
  {
    es := [];
    for i := 0 to |events|
      invariant |es| == i && forall p | 0 <= p < i :: Converts(events[p], es[p], p)
    {
      match events[i]
      case CallEvent(input, id) => es := es + [CallEntry(input, id, i)];
      case ReturnEvent(output, id) => es := es + [ReturnEntry(output, id, i)];
    }
  }

  ghost predicate Converts<I, O>(v: Event<I, O>, e: Entry<I, O>, i: int) {
    && e.id == v.id && e.time == i
    && match v
       case CallEvent(input, _) => e.CallEntry? && e.input == input
       case ReturnEvent(output, _) => e.ReturnEntry? && e.output == output
  }

  ghost predicate IsConverted<I, O>(events: seq<Event<I, O>>, es: seq<Entry<I, O>>) {
    |es| == |events| && forall p | 0 <= p < |es| :: Converts(events[p], es[p], p)
  }

  /** An entry as a number: which operation, and call or return. */
  function Code<I, O>(e: Entry<I, O>): nat
    requires e.id >= 0
  {
    2 * e.id + (if e.CallEntry? then 0 else 1)
  }

  /** Two events for each id. */
  lemma TwoPerId<I, O>(es: seq<Entry<I, O>>, n: nat)
    requires forall p | 0 <= p < |es| :: 0 <= es[p].id < n
    requires forall id: nat | id < n :: HasCall(es, id) && HasReturn(es, id)
    requires forall p, q, id | IsCall(es, p, id) && IsCall(es, q, id) :: p == q
    requires forall p, q, id | IsReturn(es, p, id) && IsReturn(es, q, id) :: p == q
    ensures |es| == 2 * n
  {
    var codes := seq(|es|, i requires 0 <= i < |es| => Code(es[i]));
    forall p, q | 0 <= p < q < |codes| ensures codes[p] != codes[q] {
      if es[p].CallEntry? {
        assert IsCall(es, p, es[p].id) && !IsCall(es, q, es[p].id);
      } else {
        assert IsReturn(es, p, es[p].id) && !IsReturn(es, q, es[p].id);
      }
    }
    forall x: nat | x < 2 * n ensures x in codes {
      var id := x / 2;
      assert HasCall(es, id) && HasReturn(es, id);
      if x % 2 == 0 {
        var p :| IsCall(es, p, id);
        assert codes[p] == x;
      } else {
        var p :| IsReturn(es, p, id);
        assert codes[p] == x;
      }
    }
    ElemsCard(codes);
    assert Elems(codes) == Below(2 * n);
  }

  /** Whatever ids a well-formed event list uses, the search gets well-formed entries. */
  lemma ConvertedWellFormed<I, O>(events: seq<Event<I, O>>, e: seq<Event<I, O>>, n: nat, es: seq<Entry<I, O>>)
    requires WellFormedEvents(events) && IsRenumbering(events, e, n) && IsConverted(e, es)
    ensures WellFormedEntries(es, n)
  {
    forall p, id | IsCall(es, p, id) ensures Calls(events, p, events[p].id) {
      assert Converts(e[p], es[p], p) && SameEvent(events[p], e[p]);
    }
    forall p, id | IsReturn(es, p, id) ensures Returns(events, p, events[p].id) {
      assert Converts(e[p], es[p], p) && SameEvent(events[p], e[p]);
    }
    forall p | 0 <= p < |es| ensures 0 <= es[p].id < n {
      assert Converts(e[p], es[p], p);
    }
    forall p, q | 0 <= p < |es| && 0 <= q < |es| && es[p].id == es[q].id ensures events[p].id == events[q].id {
      assert Converts(e[p], es[p], p) && Converts(e[q], es[q], q);
    }
    forall id: nat | id < n ensures HasCall(es, id) && HasReturn(es, id) {
      BothThere(events, e, n, es, id);
    }
    TwoPerId(es, n);
  }

  lemma BothThere<I, O>(events: seq<Event<I, O>>, e: seq<Event<I, O>>, n: nat, es: seq<Entry<I, O>>, id: nat)
    requires WellFormedEvents(events) && IsRenumbering(events, e, n) && IsConverted(e, es) && id < n
    ensures HasCall(es, id) && HasReturn(es, id)
  {
    assert FirstAt(e, id);
    var i :| 0 <= i < |e| && e[i].id == id;
    var p :| Calls(events, p, events[i].id);
    var q :| Returns(events, q, events[i].id);
    assert e[p].id == id && e[q].id == id;
    assert SameEvent(events[p], e[p]) && SameEvent(events[q], e[q]);
    assert Converts(e[p], es[p], p) && Converts(e[q], es[q], q);
    assert IsCall(es, p, id) && IsReturn(es, q, id);
  }

  // ---------- linearizability of an event list ----------

  /** `h` holds the operations of `events`, the `k`-th being that of id `names[k]`; times are positions. */
  ghost predicate Describes<I, O>(events: seq<Event<I, O>>, names: seq<int>, h: seq<Operation<I, O>>) {
    && |names| == |h| && Distinct(names)
    && (forall p | 0 <= p < |events| :: events[p].id in names)
    && (forall k: nat | k < |h| :: IsEventOperation(events, names[k], h[k]))
  }

  ghost predicate IsEventOperation<I, O>(events: seq<Event<I, O>>, id: int, op: Operation<I, O>) {
    && Calls(events, op.call, id) && op.input == events[op.call].input
    && Returns(events, op.ret, id) && op.output == events[op.ret].output
  }

  /** The operations of the events, numbered in some way, are linearizable. */
  ghost predicate EventsLinearizable<S(!new), I(!new), O(!new)>(m: Model<S, I, O>, events: seq<Event<I, O>>) {
    exists names: seq<int>, h: seq<Operation<I, O>> :: Describes(events, names, h) && Linearizable(m, h)
  }

  /** `f` renumbers `h` as `g`. */
  ghost predicate Renames<I, O>(h: seq<Operation<I, O>>, g: seq<Operation<I, O>>, f: seq<nat>) {
    && |f| == |h| == |g| && InRange(|g|, f) && Distinct(f)
    && forall i: nat | i < |h| :: h[i] == g[f[i]]
  }

  ghost function Through(f: seq<nat>, order: seq<nat>): (r: seq<nat>)
    requires InRange(|f|, order)
    ensures |r| == |order| && forall i | 0 <= i < |r| :: r[i] == f[order[i]]
  {
    seq(|order|, i requires 0 <= i < |order| => f[order[i]])
  }

  lemma {:induction false} RunThrough<S, I, O>(m: Model<S, I, O>, h: seq<Operation<I, O>>, g: seq<Operation<I, O>>,
                                               f: seq<nat>, order: seq<nat>)
    requires Renames(h, g, f) && InRange(|h|, order)
    ensures Run(m, g, Through(f, order)) == Run(m, h, order)
  {
    if order != [] {
      var last := |order| - 1;
      RunThrough(m, h, g, f, order[..last]);
      assert Through(f, order)[..last] == Through(f, order[..last]);
    }
  }

  lemma LinearizableThrough<S, I, O>(m: Model<S, I, O>, h: seq<Operation<I, O>>, g: seq<Operation<I, O>>, f: seq<nat>)
    requires Renames(h, g, f) && Linearizable(m, h)
    ensures Linearizable(m, g)
  {
    var order: seq<nat> :| IsLinearization(m, h, order);
    var r := Through(f, order);
    RunThrough(m, h, g, f, order);
    forall i, j | 0 <= i < j < |r| ensures !Precedes(g, r[j], r[i]) {
      assert !Precedes(h, order[j], order[i]);
    }
    assert IsLinearization(m, g, r);
  }

  /** Two numberings of the same events differ by a renaming. */
  lemma NumberingsAgree<I, O>(events: seq<Event<I, O>>, names: seq<int>, h: seq<Operation<I, O>>,
                              names': seq<int>, g: seq<Operation<I, O>>) returns (f: seq<nat>)
    requires WellFormedEvents(events) && Describes(events, names, h) && Describes(events, names', g)
    ensures Renames(h, g, f)
  {
    f := [];
    while |f| < |h|
      invariant |f| <= |h| && InRange(|g|, f)
      invariant forall i: nat | i < |f| :: names'[f[i]] == names[i] && h[i] == g[f[i]]
    {
      var k := |f|;
      assert IsEventOperation(events, names[k], h[k]);
      var j: nat := IndexOf(names', names[k]);
      assert IsEventOperation(events, names'[j], g[j]);
      f := f + [j];
    }
    SameCount(events, names, h, names', g);
  }

  lemma IndexOf(names: seq<int>, id: int) returns (j: nat)
    requires id in names
    ensures j < |names| && names[j] == id
  {
    j :| j < |names| && names[j] == id;
  }

  lemma SameCount<I, O>(events: seq<Event<I, O>>, names: seq<int>, h: seq<Operation<I, O>>,
                        names': seq<int>, g: seq<Operation<I, O>>)
    requires Describes(events, names, h) && Describes(events, names', g)
    ensures |h| == |g|
  {
    ElemsCard(names);
    ElemsCard(names');
    forall x ensures x in Elems(names) <==> x in Elems(names') {
      if x in names {
        var k := IndexOf(names, x);
        assert IsEventOperation(events, names[k], h[k]);
      }
      if x in names' {
        var k := IndexOf(names', x);
        assert IsEventOperation(events, names'[k], g[k]);
      }
    }
    assert Elems(names) == Elems(names');
  }

  /** One numbering decides. */
  lemma AnyNumbering<S(!new), I(!new), O(!new)>(m: Model<S, I, O>, events: seq<Event<I, O>>, names: seq<int>,
                                                h: seq<Operation<I, O>>)
    requires WellFormedEvents(events) && Describes(events, names, h)
    ensures EventsLinearizable(m, events) <==> Linearizable(m, h)
  {
    if EventsLinearizable(m, events) {
      var names', g :| Describes(events, names', g) && Linearizable(m, g);
      var f := NumberingsAgree(events, names', g, names, h);
      LinearizableThrough(m, g, h, f);
    }
  }

  /** The operations that the search works on are those of the events under their new numbers. */
  lemma ConvertedDescribes<I, O>(events: seq<Event<I, O>>, e: seq<Event<I, O>>, n: nat,
                                 es: seq<Entry<I, O>>)
    returns (names: seq<int>)
    requires WellFormedEvents(events) && IsRenumbering(events, e, n) && IsConverted(e, es) && WellFormedEntries(es, n)
    ensures Describes(events, names, History(es, n))
    ensures forall p | 0 <= p < |events| :: 0 <= e[p].id < |names| && names[e[p].id] == events[p].id
  {
    var h := History(es, n);
    names := seq(n, k requires 0 <= k < n => assert IsOperation(es, h[k], k); events[h[k].call].id);
    forall k: nat | k < n ensures IsEventOperation(events, names[k], h[k]) && e[h[k].call].id == k {
      var c, r := h[k].call, h[k].ret;
      assert IsOperation(es, h[k], k);
      assert Converts(e[c], es[c], c) && Converts(e[r], es[r], r);
      assert SameEvent(events[c], e[c]) && SameEvent(events[r], e[r]);
    }
    forall p | 0 <= p < |events| ensures 0 <= e[p].id < n && names[e[p].id] == events[p].id {
      assert SameEvent(events[p], e[p]);
      assert e[h[e[p].id].call].id == e[p].id;
    }
    forall i, j | 0 <= i < j < n ensures names[i] != names[j] {
      assert e[h[i].call].id == i && e[h[j].call].id == j;
      assert IsEventOperation(events, names[i], h[i]) && IsEventOperation(events, names[j], h[j]);
    }
  }

  /** One partition of checkEvents: the verdict is about the events, and so are the partials, in
      which number `k` stands for the operation of id `names[k]`. */
  method CheckEventHistory<S(==, !new), I(!new), O(!new)>(m: Model<S, I, O>, events: seq<Event<I, O>>,
                                                         computePartial: bool, kill: nat -> bool)
    returns (ok: bool, longest: seq<Option<seq<nat>>>, ghost stopped: Option<nat>, ghost names: seq<int>,
             ghost h: seq<Operation<I, O>>)
    requires WellFormedEvents(events)
    ensures stopped == None ==> (ok <==> EventsLinearizable(m, events))
    ensures stopped.Some? ==> !ok && kill(stopped.value)
    ensures Describes(events, names, h) && LongestSound(m, h, longest)
    ensures ok ==> forall id: nat | id < |h| :: longest[id].Some? && IsLinearization(m, h, longest[id].value)
    ensures !ok && computePartial && stopped == None ==> LongestOptimal(m, h, longest)
  {
    var e, n := Renumber(events);
    var es := ConvertEntries(e);
    ConvertedWellFormed(events, e, n, es);
    ok, longest, stopped := CheckSingle(m, es, n, computePartial, kill);
    h := History(es, n);
    names := ConvertedDescribes(events, e, n, es);
    AnyNumbering(m, events, names, h);
  }
}
