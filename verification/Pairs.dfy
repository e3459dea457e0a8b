/**
  The MapReduce data path: hash-partitioning map output, and the sort-and-group loop that both
  the reduce worker and the sequential program run
  (src/mr/worker.go: saveIntermediate, processRTask; src/main/mrsequential.go: main).
 */
module Pairs {
  import opened Linearizability
  import opened Sorting
  import Kv

  datatype KeyValue = KeyValue(key: string, value: string)

  /** One line of reduce output. */
  datatype Line = Line(key: string, output: string)

  type Reducer = (string, seq<string>) -> string

  predicate ByKey(a: KeyValue, b: KeyValue) {
    Kv.StringLess(a.key, b.key)
  }

  lemma ByKeyIsStrictWeak()
    ensures StrictWeakOrder(ByKey)
  {
    Kv.StringLessIsStrictWeak();
  }

  // ---------- what reducing means ----------

  /** The values of `key`, in order. */
  function ValuesOf(kvs: seq<KeyValue>, key: string): seq<string> {
    if kvs == [] then [] else
      var last := |kvs| - 1;
      ValuesOf(kvs[..last], key) + (if kvs[last].key == key then [kvs[last].value] else [])
  }

  /** The pairs with that key, whose values they are, in order. */
  lemma {:induction false} ValuesSelect(kvs: seq<KeyValue>, key: string) returns (pairs: seq<KeyValue>, at: seq<nat>)
    ensures Selects(kvs, pairs, at, (kv: KeyValue) => kv.key == key)
    ensures |ValuesOf(kvs, key)| == |pairs| && forall i | 0 <= i < |pairs| :: ValuesOf(kvs, key)[i] == pairs[i].value
  {
    pairs, at := [], [];
    if kvs != [] {
      var last := |kvs| - 1;
      var ps, front := ValuesSelect(kvs[..last], key);
      SelectsSnoc(kvs[..last], kvs[last], ps, front, (kv: KeyValue) => kv.key == key);
      assert kvs == kvs[..last] + [kvs[last]];
      pairs, at := ps, front;
      if kvs[last].key == key {
        pairs, at := ps + [kvs[last]], front + [last];
      }
    }
  }

  predicate HasKey(kvs: seq<KeyValue>, key: string) {
    exists i :: 0 <= i < |kvs| && kvs[i].key == key
  }

  predicate HasLine(lines: seq<Line>, key: string) {
    exists i :: 0 <= i < |lines| && lines[i].key == key
  }

  /** One line per key that occurs, holding the reduction of all values of that key. */
  ghost predicate IsReduction(kvs: seq<KeyValue>, reducef: Reducer, lines: seq<Line>) {
    && (forall i, j | 0 <= i < j < |lines| :: lines[i].key != lines[j].key)
    && (forall key :: HasLine(lines, key) <==> HasKey(kvs, key))
    && (forall i | 0 <= i < |lines| :: lines[i].output == reducef(lines[i].key, ValuesOf(kvs, lines[i].key)))
  }

  /** The reducer does not care about the order of the values. */
  ghost predicate Insensitive(reducef: Reducer) {
    forall key, a, b | multiset(a) == multiset(b) :: reducef(key, a) == reducef(key, b)
  }

  // ---------- the values of a key ----------

  lemma ValuesSnoc(kvs: seq<KeyValue>, x: KeyValue, key: string)
    ensures ValuesOf(kvs + [x], key) == ValuesOf(kvs, key) + (if x.key == key then [x.value] else [])
  {
    assert (kvs + [x])[..|kvs|] == kvs;
  }

  lemma {:induction false} ValuesConcat(a: seq<KeyValue>, b: seq<KeyValue>, key: string)
    ensures ValuesOf(a + b, key) == ValuesOf(a, key) + ValuesOf(b, key)
    decreases |b|
  {
    if b == [] {
      assert a + b == a;
    } else {
      var init, x := b[..|b| - 1], b[|b| - 1];
      assert b == init + [x] && a + b == (a + init) + [x];
      ValuesConcat(a, init, key);
      ValuesSnoc(a + init, x, key);
      ValuesSnoc(init, x, key);
    }
  }

  lemma {:induction false} NoValues(kvs: seq<KeyValue>, key: string)
    requires !HasKey(kvs, key)
    ensures ValuesOf(kvs, key) == []
  {
    if kvs != [] {
      var last := |kvs| - 1;
      assert kvs[last].key != key;
      forall i | 0 <= i < last ensures kvs[..last][i].key != key {
        assert kvs[i].key != key;
      }
      NoValues(kvs[..last], key);
    }
  }

  /** Rearranging the pairs only rearranges the values. */
  lemma {:induction false} ValuesPermuted(a: seq<KeyValue>, b: seq<KeyValue>, key: string)
    requires multiset(a) == multiset(b)
    ensures multiset(ValuesOf(a, key)) == multiset(ValuesOf(b, key))
    decreases |a|
  {
    if a == [] {
      assert |multiset(b)| == |multiset(a)| == 0;
      assert b == [];
    } else {
      var init, x := a[..|a| - 1], a[|a| - 1];
      assert a == init + [x];
      assert x in multiset(b);
      var i :| 0 <= i < |b| && b[i] == x;
      assert b == b[..i] + [x] + b[i + 1..];
      assert multiset(a) == multiset(init) + multiset{x};
      assert multiset(b) == multiset(b[..i] + b[i + 1..]) + multiset{x};
      assert multiset(init) == multiset(a) - multiset{x};
      ValuesPermuted(init, b[..i] + b[i + 1..], key);
      ValuesSnoc(init, x, key);
      ValuesConcat(b[..i], b[i + 1..], key);
      ValuesConcat(b[..i] + [x], b[i + 1..], key);
      ValuesSnoc(b[..i], x, key);
    }
  }

  lemma HasKeyPermuted(a: seq<KeyValue>, b: seq<KeyValue>, key: string)
    requires multiset(a) == multiset(b) && HasKey(a, key)
    ensures HasKey(b, key)
  {
    var i :| 0 <= i < |a| && a[i].key == key;
    assert a[i] in multiset(b);
    var j :| 0 <= j < |b| && b[j] == a[i];
  }

  lemma ReductionPermuted(a: seq<KeyValue>, b: seq<KeyValue>, reducef: Reducer, lines: seq<Line>)
    requires Insensitive(reducef) && multiset(a) == multiset(b) && IsReduction(a, reducef, lines)
    ensures IsReduction(b, reducef, lines)
  {
    forall key ensures HasKey(a, key) <==> HasKey(b, key) {
      if HasKey(a, key) { HasKeyPermuted(a, b, key); }
      if HasKey(b, key) { HasKeyPermuted(b, a, key); }
    }
    forall i | 0 <= i < |lines| ensures lines[i].output == reducef(lines[i].key, ValuesOf(b, lines[i].key)) {
      ValuesPermuted(a, b, lines[i].key);
    }
  }

  /** The lines of a reduction are determined up to their order. */
  lemma ReductionUnique(kvs: seq<KeyValue>, reducef: Reducer, a: seq<Line>, b: seq<Line>)
    requires IsReduction(kvs, reducef, a) && IsReduction(kvs, reducef, b)
    ensures multiset(a) == multiset(b)
  {
    forall x | x in a ensures x in b {
      SameLine(kvs, reducef, a, b, x);
    }
    forall x | x in b ensures x in a {
      SameLine(kvs, reducef, b, a, x);
    }
    DistinctMultiset(a);
    DistinctMultiset(b);
    assert Elems(a) == Elems(b);
  }

  lemma SameLine(kvs: seq<KeyValue>, reducef: Reducer, a: seq<Line>, b: seq<Line>, x: Line)
    requires IsReduction(kvs, reducef, a) && IsReduction(kvs, reducef, b) && x in a
    ensures x in b
  {
    var i :| 0 <= i < |a| && a[i] == x;
    assert HasLine(a, x.key);
    assert HasLine(b, x.key);
    var j :| 0 <= j < |b| && b[j].key == x.key;
    assert b[j] == x;
  }

  lemma {:induction false} DistinctMultiset<T>(s: seq<T>)
    requires Distinct(s)
    ensures multiset(s) == multiset(Elems(s))
  {
    if s != [] {
      var last := |s| - 1;
      assert s == s[..last] + [s[last]];
      DistinctMultiset(s[..last]);
      ElemsSnoc(s);
      assert s[last] !in Elems(s[..last]);
    }
  }

  // ---------- the grouping loop ----------

  /** Keys before position `i` do not come back at or after it. */
  ghost predicate Boundary(kvs: seq<KeyValue>, i: nat)
    requires i <= |kvs|
  {
    forall p | 0 <= p < i :: AbsentFrom(kvs, i, kvs[p].key)
  }

  ghost predicate AbsentFrom(kvs: seq<KeyValue>, i: nat, key: string)
    requires i <= |kvs|
  {
    forall q | i <= q < |kvs| :: kvs[q].key != key
  }

  /** Positions `i` up to `j` hold one and the same key. */
  ghost predicate OneKey(kvs: seq<KeyValue>, i: nat, j: nat)
    requires i < j <= |kvs|
  {
    forall p | i <= p < j :: kvs[p].key == kvs[i].key
  }

  /** In a sorted list, a run of one key that cannot be extended ends at a boundary. */
  lemma RunEndsAtBoundary(kvs: seq<KeyValue>, i: nat, j: nat)
    requires Sorted(kvs, ByKey) && i < j <= |kvs| && Boundary(kvs, i) && OneKey(kvs, i, j)
    requires j < |kvs| ==> kvs[j].key != kvs[i].key
    ensures Boundary(kvs, j)
  {
    forall p | 0 <= p < j ensures AbsentFrom(kvs, j, kvs[p].key) {
      if p < i {
        assert AbsentFrom(kvs, i, kvs[p].key);
      } else {
        forall q | j <= q < |kvs| ensures kvs[q].key != kvs[p].key {
          LaterKeysDiffer(kvs, i, j, q);
        }
      }
    }
  }

  lemma LaterKeysDiffer(kvs: seq<KeyValue>, i: nat, j: nat, q: nat)
    requires Sorted(kvs, ByKey) && i < j <= q < |kvs| && kvs[j].key != kvs[i].key
    ensures kvs[q].key != kvs[i].key
  {
    assert !ByKey(kvs[j], kvs[i]) && (j < q ==> !ByKey(kvs[q], kvs[j]));
    NotLessBothWays(kvs[i].key, kvs[j].key);
  }

  lemma {:induction false} NotLessBothWays(a: string, b: string)
    ensures !Kv.StringLess(a, b) && !Kv.StringLess(b, a) ==> a == b
  {
    if a != [] && b != [] && a[0] == b[0] {
      NotLessBothWays(a[1..], b[1..]);
      assert a == [a[0]] + a[1..] && b == [b[0]] + b[1..];
    }
  }

  /** The values of the run are all the values of its key. */
  lemma RunValues(kvs: seq<KeyValue>, i: nat, j: nat, values: seq<string>)
    requires i < j <= |kvs| && Boundary(kvs, i) && Boundary(kvs, j) && OneKey(kvs, i, j)
    requires values == ValuesOf(kvs[i..j], kvs[i].key)
    ensures values == ValuesOf(kvs, kvs[i].key)
  {
    NoValuesBefore(kvs, i, kvs[i].key);
    NoValuesAfter(kvs, i, j);
    ThreeParts(kvs, i, j);
    ValuesMiddle(kvs[..i], kvs[i..j], kvs[j..], kvs[i].key);
  }

  lemma ThreeParts(kvs: seq<KeyValue>, i: nat, j: nat)
    requires i <= j <= |kvs|
    ensures kvs[..i] + kvs[i..j] + kvs[j..] == kvs
  {
  }

  lemma ValuesMiddle(a: seq<KeyValue>, b: seq<KeyValue>, c: seq<KeyValue>, key: string)
    requires ValuesOf(a, key) == [] && ValuesOf(c, key) == []
    ensures ValuesOf(a + b + c, key) == ValuesOf(b, key)
  {
    ValuesConcat(a, b, key);
    ValuesConcat(a + b, c, key);
  }

  lemma NoValuesBefore(kvs: seq<KeyValue>, i: nat, key: string)
    requires i < |kvs| && Boundary(kvs, i) && key == kvs[i].key
    ensures ValuesOf(kvs[..i], key) == []
  {
    forall p | 0 <= p < i ensures kvs[..i][p].key != key {
      assert AbsentFrom(kvs, i, kvs[p].key);
    }
    NoValues(kvs[..i], key);
  }

  lemma NoValuesAfter(kvs: seq<KeyValue>, i: nat, j: nat)
    requires i < j <= |kvs| && Boundary(kvs, j)
    ensures ValuesOf(kvs[j..], kvs[i].key) == []
  {
    assert AbsentFrom(kvs, j, kvs[i].key);
    forall q | 0 <= q < |kvs| - j ensures kvs[j..][q].key != kvs[i].key {
      assert kvs[j + q].key != kvs[i].key;
    }
    NoValues(kvs[j..], kvs[i].key);
  }

  /** The lines so far: one for each key before position `i`. */
  ghost predicate ReducedUpTo(kvs: seq<KeyValue>, i: nat, reducef: Reducer, lines: seq<Line>)
    requires i <= |kvs|
  {
    && (forall p, q | 0 <= p < q < |lines| :: lines[p].key != lines[q].key)
    && (forall key :: HasLine(lines, key) <==> HasKey(kvs[..i], key))
    && (forall p | 0 <= p < |lines| :: lines[p].output == reducef(lines[p].key, ValuesOf(kvs, lines[p].key)))
  }

  lemma AddLine(kvs: seq<KeyValue>, i: nat, j: nat, reducef: Reducer, lines: seq<Line>, line: Line)
    requires i < j <= |kvs| && Boundary(kvs, i) && OneKey(kvs, i, j) && ReducedUpTo(kvs, i, reducef, lines)
    requires line.key == kvs[i].key && line.output == reducef(line.key, ValuesOf(kvs, line.key))
    ensures ReducedUpTo(kvs, j, reducef, lines + [line])
  {
    var lines' := lines + [line];
    forall p | 0 <= p < i ensures kvs[..i][p].key != line.key {
      assert AbsentFrom(kvs, i, kvs[p].key);
    }
    assert !HasKey(kvs[..i], line.key);
    forall p | 0 <= p < |lines| ensures lines[p].key != line.key {
      assert HasLine(lines, lines[p].key);
    }
    forall key ensures HasLine(lines', key) <==> HasKey(kvs[..j], key) {
      if HasLine(lines, key) {
        var p :| 0 <= p < i && kvs[..i][p].key == key;
        assert kvs[..j][p].key == key;
        var q :| 0 <= q < |lines| && lines[q].key == key;
        assert lines'[q].key == key;
      }
      assert lines'[|lines|].key == line.key && kvs[..j][i].key == line.key;
      if HasKey(kvs[..j], key) && key != line.key {
        var p :| 0 <= p < j && kvs[..j][p].key == key;
        assert kvs[..i][p].key == key;
      }
    }
  }

  /** The lines stand in increasing order of their keys. */
  ghost predicate KeysAscend(lines: seq<Line>) {
    forall p, q | 0 <= p < q < |lines| :: Kv.StringLess(lines[p].key, lines[q].key)
  }

  lemma LineAscends(kvs: seq<KeyValue>, i: nat, reducef: Reducer, lines: seq<Line>, line: Line)
    requires Sorted(kvs, ByKey) && i < |kvs| && Boundary(kvs, i) && ReducedUpTo(kvs, i, reducef, lines)
    requires KeysAscend(lines) && line.key == kvs[i].key
    ensures KeysAscend(lines + [line])
  {
    forall p | 0 <= p < |lines| ensures Kv.StringLess(lines[p].key, line.key) {
      assert HasLine(lines, lines[p].key);
      var q :| 0 <= q < i && kvs[..i][q].key == lines[p].key;
      assert !ByKey(kvs[i], kvs[q]);
      assert AbsentFrom(kvs, i, kvs[q].key);
      NotLessBothWays(kvs[q].key, kvs[i].key);
    }
  }

  method GroupReduce(intermediate: seq<KeyValue>, reducef: Reducer) returns (lines: seq<Line>)
    requires Sorted(intermediate, ByKey)
    ensures IsReduction(intermediate, reducef, lines) && KeysAscend(lines)
  {
    lines := [];
    var i := 0;
    while i < |intermediate|
      invariant i <= |intermediate| && Boundary(intermediate, i)
      invariant ReducedUpTo(intermediate, i, reducef, lines) && KeysAscend(lines)
    {
      var j := i + 1;
      while j < |intermediate| && intermediate[j].key == intermediate[i].key
        invariant i < j <= |intermediate| && OneKey(intermediate, i, j)
      {
        j := j + 1;
      }
      RunEndsAtBoundary(intermediate, i, j);
      var values := RunOf(intermediate, i, j);
      RunValues(intermediate, i, j, values);
      var output := reducef(intermediate[i].key, values);
      LineAscends(intermediate, i, reducef, lines, Line(intermediate[i].key, output));
      AddLine(intermediate, i, j, reducef, lines, Line(intermediate[i].key, output));
      lines := lines + [Line(intermediate[i].key, output)];
      i := j;
    }
    assert intermediate[..i] == intermediate;
  }

  /** The values at positions `i` up to `j`, where the key does not change. */
  method RunOf(intermediate: seq<KeyValue>, i: nat, j: nat) returns (values: seq<string>)
    requires i < j <= |intermediate| && OneKey(intermediate, i, j)
    ensures |values| == j - i && forall k | i <= k < j :: values[k - i] == intermediate[k].value
    ensures values == ValuesOf(intermediate[i..j], intermediate[i].key)
  {
    values := [];
    assert intermediate[i..i] == [];
    for k := i to j
      invariant |values| == k - i && forall l | i <= l < k :: values[l - i] == intermediate[l].value
      invariant values == ValuesOf(intermediate[i..k], intermediate[i].key)
    {
      values := values + [intermediate[k].value];
      assert intermediate[i..k + 1] == intermediate[i..k] + [intermediate[k]];
      ValuesSnoc(intermediate[i..k], intermediate[k], intermediate[i].key);
    }
  }

  // ---------- hash partitions ----------

  /** The pairs that go to reduce task `r`. */
  function PartOf(kvs: seq<KeyValue>, hash: string -> nat, nReduce: nat, r: nat): seq<KeyValue>
    requires nReduce > 0
  {
    if kvs == [] then [] else
      var last := |kvs| - 1;
      PartOf(kvs[..last], hash, nReduce, r) + (if hash(kvs[last].key) % nReduce == r then [kvs[last]] else [])
  }

  /** Those pairs are exactly the ones whose key hashes to `r`, and they stand as in the list. */
  lemma {:induction false} PartSelects(kvs: seq<KeyValue>, hash: string -> nat, nReduce: nat, r: nat)
    returns (at: seq<nat>)
    requires nReduce > 0
    ensures Selects(kvs, PartOf(kvs, hash, nReduce, r), at, (kv: KeyValue) => hash(kv.key) % nReduce == r)
  {
    at := [];
    if kvs != [] {
      var last := |kvs| - 1;
      var front := PartSelects(kvs[..last], hash, nReduce, r);
      SelectsSnoc(kvs[..last], kvs[last], PartOf(kvs[..last], hash, nReduce, r), front,
                  (kv: KeyValue) => hash(kv.key) % nReduce == r);
      assert kvs == kvs[..last] + [kvs[last]];
      at := if hash(kvs[last].key) % nReduce == r then front + [last] else front;
    }
  }

  method PartitionPairs(intermediate: seq<KeyValue>, hash: string -> nat, nReduce: nat)
    returns (partitions: seq<seq<KeyValue>>)
    requires nReduce > 0
    ensures |partitions| == nReduce
    ensures forall r: nat | r < nReduce :: partitions[r] == PartOf(intermediate, hash, nReduce, r)
  {
    partitions := seq(nReduce, _ => []);
    for i := 0 to |intermediate|
      invariant |partitions| == nReduce
      invariant forall r: nat | r < nReduce :: partitions[r] == PartOf(intermediate[..i], hash, nReduce, r)
    {
      var kv := intermediate[i];
      var p := hash(kv.key) % nReduce;
      assert intermediate[..i + 1][..i] == intermediate[..i];
      partitions := partitions[p := partitions[p] + [kv]];
    }
    assert intermediate[..|intermediate|] == intermediate;
  }

  lemma PartSnoc(kvs: seq<KeyValue>, x: KeyValue, hash: string -> nat, nReduce: nat, r: nat)
    requires nReduce > 0
    ensures PartOf(kvs + [x], hash, nReduce, r) ==
      if hash(x.key) % nReduce == r then PartOf(kvs, hash, nReduce, r) + [x] else PartOf(kvs, hash, nReduce, r)
  {
    assert (kvs + [x])[..|kvs|] == kvs;
  }

  lemma {:induction false} PartValues(kvs: seq<KeyValue>, hash: string -> nat, nReduce: nat, r: nat, key: string)
    requires nReduce > 0
    ensures ValuesOf(PartOf(kvs, hash, nReduce, r), key) == if hash(key) % nReduce == r then ValuesOf(kvs, key) else []
  {
    if kvs != [] {
      var init, x := kvs[..|kvs| - 1], kvs[|kvs| - 1];
      assert kvs == init + [x];
      PartValues(init, hash, nReduce, r, key);
      PartSnoc(init, x, hash, nReduce, r);
      ValuesSnoc(init, x, key);
      ValuesSnoc(PartOf(init, hash, nReduce, r), x, key);
    }
  }

  lemma {:induction false} PartHasKey(kvs: seq<KeyValue>, hash: string -> nat, nReduce: nat, r: nat, key: string)
    requires nReduce > 0
    ensures HasKey(PartOf(kvs, hash, nReduce, r), key) <==> hash(key) % nReduce == r && HasKey(kvs, key)
  {
    if kvs != [] {
      var init, x := kvs[..|kvs| - 1], kvs[|kvs| - 1];
      assert kvs == init + [x];
      PartHasKey(init, hash, nReduce, r, key);
      PartSnoc(init, x, hash, nReduce, r);
      HasKeySnoc(init, x, key);
      HasKeySnoc(PartOf(init, hash, nReduce, r), x, key);
    }
  }

  lemma HasKeySnoc(kvs: seq<KeyValue>, x: KeyValue, key: string)
    ensures HasKey(kvs + [x], key) <==> HasKey(kvs, key) || x.key == key
  {
    assert (kvs + [x])[|kvs|] == x;
    if HasKey(kvs, key) {
      var i :| 0 <= i < |kvs| && kvs[i].key == key;
      assert (kvs + [x])[i].key == key;
    }
  }

  lemma {:induction false} PartConcat(a: seq<KeyValue>, b: seq<KeyValue>, hash: string -> nat, nReduce: nat, r: nat)
    requires nReduce > 0
    ensures PartOf(a + b, hash, nReduce, r) == PartOf(a, hash, nReduce, r) + PartOf(b, hash, nReduce, r)
    decreases |b|
  {
    if b == [] {
      assert a + b == a;
    } else {
      var init, x := b[..|b| - 1], b[|b| - 1];
      assert b == init + [x] && a + b == (a + init) + [x];
      PartConcat(a, init, hash, nReduce, r);
      PartSnoc(a + init, x, hash, nReduce, r);
      PartSnoc(init, x, hash, nReduce, r);
    }
  }

  /** All lines of the outputs, one output after the other. */
  function Flatten(outs: seq<seq<Line>>): seq<Line> {
    if outs == [] then [] else Flatten(outs[..|outs| - 1]) + outs[|outs| - 1]
  }

  /** The lines so far are the reduction of the pairs that go to the first `n` partitions. */
  ghost predicate ReducesFirst(kvs: seq<KeyValue>, hash: string -> nat, nReduce: nat, n: nat, reducef: Reducer,
                               lines: seq<Line>)
    requires nReduce > 0
  {
    && (forall i, j | 0 <= i < j < |lines| :: lines[i].key != lines[j].key)
    && (forall key :: HasLine(lines, key) <==> HasKey(kvs, key) && hash(key) % nReduce < n)
    && (forall i | 0 <= i < |lines| :: lines[i].output == reducef(lines[i].key, ValuesOf(kvs, lines[i].key)))
  }

  lemma {:induction false} FlattenReduces(kvs: seq<KeyValue>, hash: string -> nat, nReduce: nat, reducef: Reducer,
                                          outs: seq<seq<Line>>)
    requires nReduce > 0
    requires forall r: nat | r < |outs| :: IsReduction(PartOf(kvs, hash, nReduce, r), reducef, outs[r])
    ensures ReducesFirst(kvs, hash, nReduce, |outs|, reducef, Flatten(outs))
    decreases |outs|
  {
    if outs != [] {
      var n := |outs| - 1;
      FlattenReduces(kvs, hash, nReduce, reducef, outs[..n]);
      AddPartition(kvs, hash, nReduce, n, reducef, Flatten(outs[..n]), outs[n]);
    }
  }

  lemma HasLineConcat(a: seq<Line>, b: seq<Line>, key: string)
    ensures HasLine(a + b, key) <==> HasLine(a, key) || HasLine(b, key)
  {
    if HasLine(a, key) {
      var i :| 0 <= i < |a| && a[i].key == key;
      assert (a + b)[i].key == key;
    }
    if HasLine(b, key) {
      var i :| 0 <= i < |b| && b[i].key == key;
      assert (a + b)[|a| + i].key == key;
    }
  }

  lemma AddPartition(kvs: seq<KeyValue>, hash: string -> nat, nReduce: nat, n: nat, reducef: Reducer,
                     lines: seq<Line>, more: seq<Line>)
    requires nReduce > 0 && ReducesFirst(kvs, hash, nReduce, n, reducef, lines)
    requires IsReduction(PartOf(kvs, hash, nReduce, n), reducef, more)
    ensures ReducesFirst(kvs, hash, nReduce, n + 1, reducef, lines + more)
  {
    forall key ensures HasLine(more, key) <==> HasKey(kvs, key) && hash(key) % nReduce == n {
      PartHasKey(kvs, hash, nReduce, n, key);
    }
    forall key ensures HasLine(lines + more, key) <==> HasKey(kvs, key) && hash(key) % nReduce < n + 1 {
      HasLineConcat(lines, more, key);
    }
    forall i | 0 <= i < |more| ensures more[i].output == reducef(more[i].key, ValuesOf(kvs, more[i].key)) {
      assert HasLine(more, more[i].key);
      PartValues(kvs, hash, nReduce, n, more[i].key);
    }
    forall i, j | 0 <= i < |lines| && 0 <= j < |more| ensures lines[i].key != more[j].key {
      assert HasLine(lines, lines[i].key) && HasLine(more, more[j].key);
    }
  }

  /** Reducing the partitions separately reduces everything. */
  lemma PartitionsReduce(kvs: seq<KeyValue>, hash: string -> nat, nReduce: nat, reducef: Reducer, outs: seq<seq<Line>>)
    requires nReduce > 0 && |outs| == nReduce
    requires forall r: nat | r < nReduce :: IsReduction(PartOf(kvs, hash, nReduce, r), reducef, outs[r])
    ensures IsReduction(kvs, reducef, Flatten(outs))
  {
    FlattenReduces(kvs, hash, nReduce, reducef, outs);
  }
}
