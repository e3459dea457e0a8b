/**
  Locality of the key/value store: linearizability of the whole history and of its per-key
  subhistories are the same thing.  From left to right, a global order is projected to each
  key; from right to left, per-key orders are merged without contradicting real time.
 */
module Locality {
  import opened Linearizability
  import opened Kv

  predicate KeyIs(h: seq<Op>, id: nat, key: string)
    requires id < |h|
  {
    h[id].input.key == key
  }

  /** What operation `id` does to the value of `key`. */
  ghost function KeyStep(h: seq<Op>, key: string, before: Option<string>, id: nat): Option<string>
    requires id < |h|
  {
    if !KeyIs(h, id, key) || before.None? then before else StepOp(KvModel, h, before.value, id)
  }

  /** The value of `key` after running `order`, looking only at the operations on `key`. */
  ghost function KeyRun(h: seq<Op>, key: string, order: seq<nat>): Option<string>
    requires InRange(|h|, order)
    decreases |order|
  {
    if order == [] then Some("") else
      KeyStep(h, key, KeyRun(h, key, order[..|order| - 1]), order[|order| - 1])
  }

  ghost predicate AllKeysRun(h: seq<Op>, order: seq<nat>)
    requires InRange(|h|, order)
  {
    forall key :: KeyRun(h, key, order).Some?
  }

  /** A run of the store is a run of every key on its own. */
  lemma {:induction false} StoreRun(h: seq<Op>, order: seq<nat>)
    requires InRange(|h|, order)
    ensures Run(StoreModel, h, order).Some? <==> AllKeysRun(h, order)
    ensures Run(StoreModel, h, order).Some? ==>
      forall key :: KeyRun(h, key, order) == Some(Get(Run(StoreModel, h, order).value, key))
    decreases |order|
  {
    if order != [] {
      var last := |order| - 1;
      var init, id := order[..last], order[last];
      StoreRun(h, init);
      var key := h[id].input.key;
      if Run(StoreModel, h, init).Some? {
        assert KeyRun(h, key, init) == Some(Get(Run(StoreModel, h, init).value, key));
        assert KeyRun(h, key, order) == StepOp(KvModel, h, KeyRun(h, key, init).value, id);
        if Run(StoreModel, h, order).Some? {
          forall k ensures KeyRun(h, k, order) == Some(Get(Run(StoreModel, h, order).value, k)) {
            assert KeyRun(h, k, init) == Some(Get(Run(StoreModel, h, init).value, k));
          }
        }
      } else {
        var k :| KeyRun(h, k, init).None?;
        assert KeyRun(h, k, order).None?;
      }
    }
  }

  /** No operation of `order` comes after one that was called only once it had returned. */
  ghost predicate RealTime(h: seq<Op>, order: seq<nat>)
    requires InRange(|h|, order)
  {
    forall i, j {:trigger Precedes(h, order[j], order[i])} | 0 <= i < j < |order| :: !Precedes(h, order[j], order[i])
  }

  /** `x` may come after everything in `c`. */
  ghost predicate MayFollow(h: seq<Op>, c: seq<nat>, x: nat)
    requires InRange(|h|, c) && x < |h|
  {
    forall z | z in c :: z != x && !Precedes(h, x, z)
  }

  lemma RealTimeSnoc(h: seq<Op>, c: seq<nat>, x: nat)
    requires InRange(|h|, c) && x < |h| && Distinct(c) && RealTime(h, c) && MayFollow(h, c, x)
    ensures Distinct(c + [x]) && RealTime(h, c + [x])
  {
    forall k | 0 <= k < |c| ensures c[k] != x && !Precedes(h, x, c[k]) {
      assert c[k] in c;
    }
  }

  lemma KeyRunSnoc(h: seq<Op>, key: string, c: seq<nat>, x: nat)
    requires InRange(|h|, c) && x < |h|
    ensures InRange(|h|, c + [x])
    ensures KeyRun(h, key, c + [x]) == KeyStep(h, key, KeyRun(h, key, c), x)
  {
    assert (c + [x])[..|c|] == c;
  }

  // ---------- projecting a global order ----------

  /** `q` is the part of `order` on `key`: same real time, same run of the key. */
  ghost predicate IsProjection(h: seq<Op>, key: string, order: seq<nat>, q: seq<nat>)
    requires InRange(|h|, order)
  {
    && InRange(|h|, q) && Distinct(q) && RealTime(h, q)
    && (forall x: nat :: x in q <==> x in order && KeyIs(h, x, key))
    && KeyRun(h, key, q) == KeyRun(h, key, order)
  }

  lemma {:induction false} Project(h: seq<Op>, key: string, order: seq<nat>) returns (q: seq<nat>)
    requires InRange(|h|, order) && Distinct(order) && RealTime(h, order)
    ensures IsProjection(h, key, order, q)
    decreases |order|
  {
    if order == [] {
      q := [];
    } else {
      var init, x := order[..|order| - 1], order[|order| - 1];
      assert order == init + [x];
      q := Project(h, key, init);
      KeyRunSnoc(h, key, init, x);
      if KeyIs(h, x, key) {
        LastFollows(h, order);
        RealTimeSnoc(h, q, x);
        KeyRunSnoc(h, key, q, x);
        q := q + [x];
      }
    }
  }

  lemma LastFollows(h: seq<Op>, order: seq<nat>)
    requires InRange(|h|, order) && Distinct(order) && RealTime(h, order) && order != []
    ensures MayFollow(h, order[..|order| - 1], order[|order| - 1])
  {
    var init, x := order[..|order| - 1], order[|order| - 1];
    forall z | z in init ensures z != x && !Precedes(h, x, z) {
      var i :| 0 <= i < |init| && init[i] == z;
      assert order[i] == z;
      assert !Precedes(h, order[|order| - 1], order[i]);
    }
  }

  // ---------- subhistories by index ----------

  /** The indices of the operations on `key`; entry `i` of the subhistory is operation `Where(h, key)[i]`. */
  ghost function Where(h: seq<Op>, key: string): (idx: seq<nat>)
    ensures InRange(|h|, idx) && Distinct(idx) && |idx| == |OfKey(h, key)|
    ensures forall i | 0 <= i < |idx| :: h[idx[i]] == OfKey(h, key)[i] && KeyIs(h, idx[i], key)
    ensures forall x: nat | x < |h| && KeyIs(h, x, key) :: x in idx
    decreases |h|
  {
    if h == [] then [] else
      var last := |h| - 1;
      var idx := Where(h[..last], key);
      if h[last].input.key == key then idx + [last] else idx
  }

  ghost function Lift(idx: seq<nat>, local: seq<nat>): (q: seq<nat>)
    requires InRange(|idx|, local)
    ensures |q| == |local| && forall i | 0 <= i < |q| :: q[i] == idx[local[i]]
  {
    seq(|local|, i requires 0 <= i < |local| => idx[local[i]])
  }

  lemma {:induction false} LiftRun(h: seq<Op>, key: string, local: seq<nat>)
    requires InRange(|OfKey(h, key)|, local)
    ensures InRange(|h|, Lift(Where(h, key), local))
    ensures KeyRun(h, key, Lift(Where(h, key), local)) == Run(KvModel, OfKey(h, key), local)
    decreases |local|
  {
    var idx := Where(h, key);
    var q := Lift(idx, local);
    if local != [] {
      var last := |local| - 1;
      LiftRun(h, key, local[..last]);
      assert q[..last] == Lift(idx, local[..last]);
      assert KeyIs(h, q[last], key) && h[q[last]] == OfKey(h, key)[local[last]];
    }
  }

  /** `q` orders all operations on `key`, legally and in real time. */
  ghost predicate OrdersKey(h: seq<Op>, key: string, q: seq<nat>) {
    && InRange(|h|, q) && Distinct(q) && RealTime(h, q)
    && (forall x: nat | x < |h| :: x in q <==> KeyIs(h, x, key))
    && KeyRun(h, key, q).Some?
  }

  lemma LiftCovers(h: seq<Op>, key: string, local: seq<nat>, x: nat)
    requires InRange(|OfKey(h, key)|, local) && Distinct(local) && |local| == |OfKey(h, key)|
    requires x < |h|
    ensures x in Lift(Where(h, key), local) <==> KeyIs(h, x, key)
  {
    var idx := Where(h, key);
    if KeyIs(h, x, key) {
      Pigeonhole(|idx|, local);
      var i :| 0 <= i < |idx| && idx[i] == x;
      assert i in local;
      var j :| 0 <= j < |local| && local[j] == i;
      assert Lift(idx, local)[j] == x;
    }
  }

  lemma LiftRealTime(h: seq<Op>, key: string, local: seq<nat>)
    requires IsLinearization(KvModel, OfKey(h, key), local)
    ensures var q := Lift(Where(h, key), local); InRange(|h|, q) && Distinct(q) && RealTime(h, q)
  {
    var part, idx := OfKey(h, key), Where(h, key);
    var q := Lift(idx, local);
    forall i, j | 0 <= i < j < |q| ensures q[i] != q[j] && !Precedes(h, q[j], q[i]) {
      assert h[q[i]] == part[local[i]] && h[q[j]] == part[local[j]];
      assert !Precedes(part, local[j], local[i]);
    }
  }

  lemma LocalToGlobal(h: seq<Op>, key: string, local: seq<nat>)
    requires IsLinearization(KvModel, OfKey(h, key), local)
    ensures OrdersKey(h, key, Lift(Where(h, key), local))
  {
    LiftRun(h, key, local);
    LiftRealTime(h, key, local);
    forall x: nat | x < |h| ensures x in Lift(Where(h, key), local) <==> KeyIs(h, x, key) {
      LiftCovers(h, key, local, x);
    }
  }

  ghost function Find(idx: seq<nat>, x: nat): (i: nat)
    requires x in idx
    ensures i < |idx| && idx[i] == x
  {
    var i :| 0 <= i < |idx| && idx[i] == x;
    i
  }

  lemma GlobalToLocal(h: seq<Op>, key: string, q: seq<nat>)
    requires OrdersKey(h, key, q)
    ensures Linearizable(KvModel, OfKey(h, key))
  {
    var part, idx := OfKey(h, key), Where(h, key);
    forall x | x in q ensures x in idx {
      assert KeyIs(h, x, key);
    }
    var local := seq(|q|, i requires 0 <= i < |q| => assert q[i] in q; Find(idx, q[i]));
    assert Lift(idx, local) == q;
    LiftRun(h, key, local);
    assert Elems(q) == Elems(idx) by {
      forall x | x in idx ensures x in q {
        assert KeyIs(h, x, key);
      }
    }
    ElemsCard(q);
    ElemsCard(idx);
    forall i, j | 0 <= i < j < |local| ensures local[i] != local[j] && !Precedes(part, local[j], local[i]) {
      assert h[q[i]] == part[local[i]] && h[q[j]] == part[local[j]];
      assert !Precedes(h, q[j], q[i]);
    }
    assert IsLinearization(KvModel, part, local);
  }

  // ---------- merging orders of different keys ----------

  ghost predicate SomePrecededBy(h: seq<Op>, x: nat, b: seq<nat>)
    requires InRange(|h|, b) && x < |h|
  {
    exists i :: 0 <= i < |b| && Precedes(h, x, b[i])
  }

  /** Whichever operation goes last, nothing before it had to wait for it. */
  lemma LastIsSafe(h: seq<Op>, a: seq<nat>, b: seq<nat>, z: nat)
    requires WellFormed(h) && InRange(|h|, a) && InRange(|h|, b) && a != [] && b != []
    requires RealTime(h, a) && RealTime(h, b)
    requires z in a || z in b
    ensures var x, y := a[|a| - 1], b[|b| - 1];
      if SomePrecededBy(h, x, b) then !Precedes(h, y, z) else !Precedes(h, x, z)
  {
    var x, y := a[|a| - 1], b[|b| - 1];
    if z in a {
      NotBeforeLast(h, a, z);
    }
    if z in b {
      NotBeforeLast(h, b, z);
    }
    if SomePrecededBy(h, x, b) {
      var i :| 0 <= i < |b| && Precedes(h, x, b[i]);
      NotBeforeLast(h, b, b[i]);
    } else if z in b {
      var i :| 0 <= i < |b| && b[i] == z;
    }
  }

  lemma NotBeforeLast(h: seq<Op>, a: seq<nat>, z: nat)
    requires WellFormed(h) && InRange(|h|, a) && z in a && RealTime(h, a)
    ensures !Precedes(h, a[|a| - 1], z)
  {
    var i :| 0 <= i < |a| && a[i] == z;
  }

  /** None of the operations is on `key`. */
  ghost predicate Avoids(h: seq<Op>, a: seq<nat>, key: string)
    requires InRange(|h|, a)
  {
    forall x | x in a :: !KeyIs(h, x, key)
  }

  lemma {:induction false} Untouched(h: seq<Op>, a: seq<nat>, key: string)
    requires InRange(|h|, a) && Avoids(h, a, key)
    ensures KeyRun(h, key, a) == Some("")
    decreases |a|
  {
    if a != [] {
      assert a[|a| - 1] in a;
      Untouched(h, a[..|a| - 1], key);
    }
  }

  /** `c` interleaves `a` and `b` in real time. */
  ghost predicate IsMerge(h: seq<Op>, a: seq<nat>, b: seq<nat>, c: seq<nat>) {
    && InRange(|h|, c) && Distinct(c) && RealTime(h, c)
    && (forall x: nat :: x in c <==> x in a || x in b)
  }

  /** A key that only one side touches runs in `c` as it does there. */
  ghost predicate RunsApart(h: seq<Op>, a: seq<nat>, b: seq<nat>, c: seq<nat>, key: string)
    requires InRange(|h|, a) && InRange(|h|, b) && InRange(|h|, c)
  {
    && (Avoids(h, b, key) ==> KeyRun(h, key, c) == KeyRun(h, key, a))
    && (Avoids(h, a, key) ==> KeyRun(h, key, c) == KeyRun(h, key, b))
  }

  /** Interleaves two orders from the back: the last of `a` goes last unless some operation of `b` must follow it. */
  lemma {:induction false} Merge(h: seq<Op>, a: seq<nat>, b: seq<nat>) returns (c: seq<nat>)
    requires WellFormed(h) && InRange(|h|, a) && InRange(|h|, b)
    requires Distinct(a) && Distinct(b) && (forall x | x in a :: x !in b)
    requires RealTime(h, a) && RealTime(h, b)
    ensures IsMerge(h, a, b, c) && forall key :: RunsApart(h, a, b, c, key)
    decreases |a| + |b|
  {
    if a == [] {
      c := b;
      forall key ensures RunsApart(h, a, b, c, key) {
        if Avoids(h, b, key) { Untouched(h, b, key); }
      }
    } else if b == [] {
      c := a;
      forall key ensures RunsApart(h, a, b, c, key) {
        if Avoids(h, a, key) { Untouched(h, a, key); }
      }
    } else if SomePrecededBy(h, a[|a| - 1], b) {
      c := MergeRight(h, a, b);
    } else {
      c := MergeLeft(h, a, b);
    }
  }

  lemma MergeRight(h: seq<Op>, a: seq<nat>, b: seq<nat>) returns (c: seq<nat>)
    requires WellFormed(h) && InRange(|h|, a) && InRange(|h|, b) && a != [] && b != []
    requires Distinct(a) && Distinct(b) && (forall x | x in a :: x !in b)
    requires RealTime(h, a) && RealTime(h, b) && SomePrecededBy(h, a[|a| - 1], b)
    ensures IsMerge(h, a, b, c) && forall key :: RunsApart(h, a, b, c, key)
    decreases |a| + |b|, 0
  {
    var init, y := b[..|b| - 1], b[|b| - 1];
    assert b == init + [y];
    var c' := Merge(h, a, init);
    forall z | z in c' ensures z != y && !Precedes(h, y, z) {
      LastIsSafe(h, a, b, z);
    }
    RealTimeSnoc(h, c', y);
    c := c' + [y];
    forall key ensures RunsApart(h, a, b, c, key) {
      assert RunsApart(h, a, init, c', key);
      KeyRunSnoc(h, key, c', y);
      KeyRunSnoc(h, key, init, y);
      assert y in b;
      assert Avoids(h, b, key) ==> Avoids(h, init, key);
    }
  }

  lemma MergeLeft(h: seq<Op>, a: seq<nat>, b: seq<nat>) returns (c: seq<nat>)
    requires WellFormed(h) && InRange(|h|, a) && InRange(|h|, b) && a != [] && b != []
    requires Distinct(a) && Distinct(b) && (forall x | x in a :: x !in b)
    requires RealTime(h, a) && RealTime(h, b) && !SomePrecededBy(h, a[|a| - 1], b)
    ensures IsMerge(h, a, b, c) && forall key :: RunsApart(h, a, b, c, key)
    decreases |a| + |b|, 0
  {
    var init, x := a[..|a| - 1], a[|a| - 1];
    assert a == init + [x];
    var c' := Merge(h, init, b);
    forall z | z in c' ensures z != x && !Precedes(h, x, z) {
      LastIsSafe(h, a, b, z);
    }
    RealTimeSnoc(h, c', x);
    c := c' + [x];
    forall key ensures RunsApart(h, a, b, c, key) {
      assert RunsApart(h, init, b, c', key);
      KeyRunSnoc(h, key, c', x);
      KeyRunSnoc(h, key, init, x);
      assert x in a;
      assert Avoids(h, a, key) ==> Avoids(h, init, key);
    }
  }

  // ---------- the theorem ----------

  /** `order` orders all operations on the keys in `keys`, legally for each key and in real time. */
  ghost predicate OrdersKeys(h: seq<Op>, keys: set<string>, order: seq<nat>) {
    && InRange(|h|, order) && Distinct(order) && RealTime(h, order)
    && (forall x: nat | x < |h| :: x in order <==> h[x].input.key in keys)
    && AllKeysRun(h, order)
  }

  lemma AddKey(h: seq<Op>, keys: set<string>, a: seq<nat>, key: string, b: seq<nat>) returns (c: seq<nat>)
    requires WellFormed(h) && OrdersKeys(h, keys, a) && key !in keys && OrdersKey(h, key, b)
    ensures OrdersKeys(h, keys + {key}, c)
  {
    assert forall x | x in b :: KeyIs(h, x, key);
    c := Merge(h, a, b);
    forall k ensures KeyRun(h, k, c).Some? {
      assert RunsApart(h, a, b, c, k);
      if k == key {
        assert Avoids(h, a, key);
      } else {
        assert Avoids(h, b, k);
      }
    }
  }

  lemma {:induction false} MergeAll(h: seq<Op>, keys: set<string>) returns (order: seq<nat>)
    requires WellFormed(h) && forall key | key in keys :: Linearizable(KvModel, OfKey(h, key))
    ensures OrdersKeys(h, keys, order)
    decreases |keys|
  {
    if keys == {} {
      order := [];
    } else {
      var key :| key in keys;
      var a := MergeAll(h, keys - {key});
      var local: seq<nat> :| IsLinearization(KvModel, OfKey(h, key), local);
      LocalToGlobal(h, key, local);
      assert keys - {key} + {key} == keys;
      order := AddKey(h, keys - {key}, a, key, Lift(Where(h, key), local));
    }
  }

  ghost predicate EachKeyLinearizable(h: seq<Op>) {
    forall key: string :: Linearizable(KvModel, OfKey(h, key))
  }

  /** Linearizability of the store is linearizability of every key. */
  lemma Locality(h: seq<Op>)
    requires WellFormed(h)
    ensures Linearizable(StoreModel, h) <==> EachKeyLinearizable(h)
  {
    if Linearizable(StoreModel, h) {
      var order: seq<nat> :| IsLinearization(StoreModel, h, order);
      forall key ensures Linearizable(KvModel, OfKey(h, key)) {
        ProjectLinearization(h, key, order);
      }
    }
    if EachKeyLinearizable(h) {
      var keys := set x: nat | x < |h| :: h[x].input.key;
      var order := MergeAll(h, keys);
      StoreRun(h, order);
      forall x: nat | x < |h| ensures x in order {
        assert h[x].input.key in keys;
      }
      ElemsCard(order);
      assert Elems(order) == Below(|h|);
      assert IsLinearization(StoreModel, h, order);
    }
  }

  lemma ProjectLinearization(h: seq<Op>, key: string, order: seq<nat>)
    requires IsLinearization(StoreModel, h, order)
    ensures Linearizable(KvModel, OfKey(h, key))
  {
    StoreRun(h, order);
    Pigeonhole(|h|, order);
    var q := Project(h, key, order);
    assert KeyRun(h, key, order).Some?;
    GlobalToLocal(h, key, q);
  }
}
