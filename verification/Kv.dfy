/**
  The key/value model (src/models/kv.go) and the promise that its partition function makes
  (src/porcupine/model.go): a history over many keys is linearizable exactly when the
  subhistory of each key is.  This is Herlihy and Wing's locality for a store of strings.
 */
module Kv {
  import opened Linearizability
  import opened Sorting

  datatype KvInput = KvInput(op: nat, key: string, value: string)  // op: 0 get, 1 put, otherwise append
  datatype KvOutput = KvOutput(value: string)

  type Op = Operation<KvInput, KvOutput>

  /** One operation on the value of a single key. */
  function Step(state: string, input: KvInput, output: KvOutput): (bool, string) {
    if input.op == 0 then (output.value == state, state)
    else if input.op == 1 then (true, input.value)
    else (true, state + input.value)
  }

  const KvModel: Model<string, KvInput, KvOutput> := Model("", Step)

  /** The store as a whole: absent keys hold the empty string. */
  type Store = map<string, string>

  function Get(st: Store, key: string): string {
    if key in st then st[key] else ""
  }

  function StoreStep(st: Store, input: KvInput, output: KvOutput): (bool, Store) {
    var (ok, value) := Step(Get(st, input.key), input, output);
    (ok, st[input.key := value])
  }

  const StoreModel: Model<Store, KvInput, KvOutput> := Model(map[], StoreStep)

  // ---------- partitioning ----------

  /** The operations on `key`, in order. */
  function OfKey(h: seq<Op>, key: string): seq<Op> {
    if h == [] then [] else
      var last := |h| - 1;
      OfKey(h[..last], key) + (if h[last].input.key == key then [h[last]] else [])
  }

  /** Those operations are exactly the ones with that key, and they stand as in the history. */
  lemma {:induction false} OfKeySelects(h: seq<Op>, key: string) returns (at: seq<nat>)
    ensures Selects(h, OfKey(h, key), at, (op: Op) => op.input.key == key)
  {
    at := [];
    if h != [] {
      var last := |h| - 1;
      var front := OfKeySelects(h[..last], key);
      SelectsSnoc(h[..last], h[last], OfKey(h[..last], key), front, (op: Op) => op.input.key == key);
      assert h == h[..last] + [h[last]];
      at := if h[last].input.key == key then front + [last] else front;
    }
  }

  ghost predicate HasKey(h: seq<Op>, key: string) {
    exists i :: 0 <= i < |h| && h[i].input.key == key
  }

  predicate StringLess(a: string, b: string) {
    if b == [] then false
    else if a == [] then true
    else a[0] < b[0] || (a[0] == b[0] && StringLess(a[1..], b[1..]))
  }

  /** The order of strings, by the first position at which they differ. */
  lemma {:induction false} StringLessMeans(a: string, b: string)
    ensures StringLess(a, b) <==> exists i: nat :: FirstDifference(a, b, i) && (i == |a| || a[i] < b[i])
  {
    if a != [] && b != [] && a[0] == b[0] {
      var a', b' := a[1..], b[1..];
      StringLessMeans(a', b');
      forall i: nat ensures FirstDifference(a, b, i + 1) <==> FirstDifference(a', b', i) {
        if FirstDifference(a, b, i + 1) {
          assert forall j | 0 <= j < i :: a'[j] == a[j + 1] && b'[j] == b[j + 1];
        }
        if FirstDifference(a', b', i) {
          assert forall j | 0 < j <= i :: a[j] == a'[j - 1] && b[j] == b'[j - 1];
        }
      }
      if i: nat :| FirstDifference(a', b', i) && (i == |a'| || a'[i] < b'[i]) {
        assert FirstDifference(a, b, i + 1);
      }
      if i: nat :| FirstDifference(a, b, i) && (i == |a| || a[i] < b[i]) {
        assert i > 0;
        assert FirstDifference(a', b', i - 1);
      }
    } else if a == [] && b != [] {
      assert FirstDifference(a, b, 0);
    } else if a != [] && b != [] {
      assert FirstDifference(a, b, 0);
      forall i: nat | FirstDifference(a, b, i) ensures i == 0 {
      }
    }
  }

  /** The strings agree below `i`, and `b` goes on with something else than `a`. */
  ghost predicate FirstDifference(a: string, b: string, i: nat) {
    && i <= |a| && i < |b| && (forall j | 0 <= j < i :: a[j] == b[j])
    && (i < |a| ==> a[i] != b[i])
  }

  lemma {:induction false} StringLessAsymmetric(a: string, b: string)
    requires StringLess(a, b)
    ensures !StringLess(b, a)
  {
    if a != [] && a[0] == b[0] {
      StringLessAsymmetric(a[1..], b[1..]);
    }
  }

  lemma {:induction false} StringLessNegTransitive(a: string, b: string, c: string)
    requires !StringLess(b, a) && !StringLess(c, b)
    ensures !StringLess(c, a)
  {
    if a != [] && c != [] && b != [] && a[0] == b[0] == c[0] {
      StringLessNegTransitive(a[1..], b[1..], c[1..]);
    }
  }

  lemma StringLessIsStrictWeak()
    ensures StrictWeakOrder(StringLess)
  {
    forall a, b | StringLess(a, b) ensures !StringLess(b, a) {
      StringLessAsymmetric(a, b);
    }
    forall a, b, c | !StringLess(b, a) && !StringLess(c, b) ensures !StringLess(c, a) {
      StringLessNegTransitive(a, b, c);
    }
  }

  /** One subhistory per key that occurs, by increasing key. */
  method Partition(h: seq<Op>) returns (parts: seq<seq<Op>>, ghost keys: seq<string>)
    ensures |parts| == |keys| && Distinct(keys) && Sorted(keys, StringLess)
    ensures forall k :: k in keys <==> HasKey(h, k)
    ensures forall i | 0 <= i < |keys| :: parts[i] == OfKey(h, keys[i])
  {
    var m := Group(h);
    var ks := KeysOf(m);
    var sorted := SortKeys(ks);
    parts := [];
    for i := 0 to |sorted|
      invariant |parts| == i && forall j | 0 <= j < i :: parts[j] == OfKey(h, sorted[j])
    {
      assert sorted[i] in ks;
      parts := parts + [m[sorted[i]]];
    }
    keys := sorted;
  }

  /** Go's sort.Strings on distinct keys. */
  method SortKeys(ks: seq<string>) returns (sorted: seq<string>)
    requires Distinct(ks)
    ensures Distinct(sorted) && Sorted(sorted, StringLess) && forall k :: k in sorted <==> k in ks
  {
    StringLessIsStrictWeak();
    sorted := Sort(ks, StringLess);
    DistinctPermutation(ks, sorted);
    forall k ensures k in sorted <==> k in ks {
      assert k in multiset(sorted) <==> k in multiset(ks);
    }
  }

  method Group(h: seq<Op>) returns (m: map<string, seq<Op>>)
    ensures forall k :: k in m <==> HasKey(h, k)
    ensures forall k | k in m :: m[k] == OfKey(h, k)
  {
    m := map[];
    for i := 0 to |h|
      invariant forall k :: k in m <==> HasKey(h[..i], k)
      invariant forall k | k in m :: m[k] == OfKey(h[..i], k)
    {
      var v := h[i];
      var key := v.input.key;
      assert h[..i + 1][..i] == h[..i] && h[..i + 1][i] == v;
      if key !in m {
        NoKey(h[..i], key);
      }
      forall k ensures HasKey(h[..i + 1], k) <==> HasKey(h[..i], k) || k == key {
        if HasKey(h[..i], k) {
          var j :| 0 <= j < |h[..i]| && h[..i][j].input.key == k;
          assert h[..i + 1][j].input.key == k;
        }
        if HasKey(h[..i + 1], k) && k != key {
          var j :| 0 <= j < |h[..i + 1]| && h[..i + 1][j].input.key == k;
          assert h[..i][j].input.key == k;
        }
        assert h[..i + 1][i].input.key == key;
      }
      m := m[key := (if key in m then m[key] else []) + [v]];
    }
    assert h[..|h|] == h;
  }

  lemma {:induction false} NoKey(h: seq<Op>, key: string)
    requires !HasKey(h, key)
    ensures OfKey(h, key) == []
  {
    if h != [] {
      var last := |h| - 1;
      assert h[last].input.key != key;
      forall i | 0 <= i < last ensures h[..last][i].input.key != key {
        assert h[i].input.key != key;
      }
      NoKey(h[..last], key);
    }
  }

  /** The keys of a map, in any order. */
  method KeysOf(m: map<string, seq<Op>>) returns (ks: seq<string>)
    ensures Distinct(ks) && forall k :: k in ks <==> k in m
  {
    ks := [];
    var left := m.Keys;
    while left != {}
      invariant Distinct(ks) && left <= m.Keys
      invariant forall k :: k in ks <==> k in m && k !in left
      decreases |left|
    {
      var k :| k in left;
      ks := ks + [k];
      left := left - {k};
    }
  }
}
