/**
  Sets of small numbers packed into 64-bit words and changed in place
  (src/porcupine/bitset.go).  `Members` is the set of numbers a word list stands for; every
  operation is specified through it.
 */
module Bitset {

  // ---------- single words ----------

  function Pow2(k: nat): (r: nat)
    ensures r > 0
  {
    if k == 0 then 1 else 2 * Pow2(k - 1)
  }

  /** Go's 64-bit unsigned integer. */
  type uint64 = x: nat | x < Pow2(64) witness 0

  /** Bit number `k` of a number. */
  predicate Bit(v: nat, k: nat) {
    if k == 0 then v % 2 == 1 else Bit(v / 2, k - 1)
  }

  /** Combine two numbers bit by bit. */
  function Bitwise(v: nat, w: nat, f: (bool, bool) -> bool): nat {
    if v == 0 && w == 0 then 0 else
      2 * Bitwise(v / 2, w / 2, f) + (if f(v % 2 == 1, w % 2 == 1) then 1 else 0)
  }

  function Or(v: nat, w: nat): nat {
    Bitwise(v, w, (a, b) => a || b)
  }

  /** Go's `&^`. */
  function AndNot(v: nat, w: nat): nat {
    Bitwise(v, w, (a, b) => a && !b)
  }

  function Xor(v: nat, w: nat): nat {
    Bitwise(v, w, (a, b) => a != b)
  }

  lemma {:induction false} BitwiseBit(v: nat, w: nat, f: (bool, bool) -> bool, k: nat)
    requires !f(false, false)
    ensures Bit(Bitwise(v, w, f), k) <==> f(Bit(v, k), Bit(w, k))
    decreases k
  {
    var r := Bitwise(v, w, f);
    if v == 0 && w == 0 {
      ZeroBit(k);
    } else {
      assert r / 2 == Bitwise(v / 2, w / 2, f);
      if k > 0 {
        BitwiseBit(v / 2, w / 2, f, k - 1);
      }
    }
  }

  lemma {:induction false} BitwiseBound(v: nat, w: nat, f: (bool, bool) -> bool, n: nat)
    requires v < Pow2(n) && w < Pow2(n)
    ensures Bitwise(v, w, f) < Pow2(n)
    decreases n
  {
    if n > 0 {
      BitwiseBound(v / 2, w / 2, f, n - 1);
    }
  }

  lemma {:induction false} ZeroBit(k: nat)
    ensures !Bit(0, k)
  {
    if k > 0 {
      ZeroBit(k - 1);
    }
  }

  lemma {:induction false} Pow2Bit(m: nat, k: nat)
    ensures Bit(Pow2(m), k) <==> k == m
  {
    if m == 0 {
      if k > 0 {
        ZeroBit(k - 1);
      }
    } else if k > 0 {
      Pow2Bit(m - 1, k - 1);
    }
  }

  lemma {:induction false} Pow2Mono(m: nat, n: nat)
    requires m < n
    ensures Pow2(m) < Pow2(n)
  {
    if m + 1 < n {
      Pow2Mono(m, n - 1);
    }
  }

  /** Bitwise combination of two words is a word. */
  lemma BitwiseWord(v: uint64, w: uint64, f: (bool, bool) -> bool)
    ensures Bitwise(v, w, f) < Pow2(64)
  {
    BitwiseBound(v, w, f, 64);
  }

  lemma {:induction false} NumbersEqual(v: nat, w: nat, n: nat)
    requires v < Pow2(n) && w < Pow2(n)
    requires forall k: nat | k < n :: Bit(v, k) == Bit(w, k)
    ensures v == w
    decreases n
  {
    if n > 0 {
      forall k: nat | k < n - 1 ensures Bit(v / 2, k) == Bit(w / 2, k) {
        assert Bit(v, k + 1) == Bit(w, k + 1);
      }
      NumbersEqual(v / 2, w / 2, n - 1);
      assert Bit(v, 0) == Bit(w, 0);
    }
  }

  lemma WordsEqual(v: uint64, w: uint64)
    requires forall k: nat | k < 64 :: Bit(v, k) == Bit(w, k)
    ensures v == w
  {
    NumbersEqual(v, w, 64);
  }

  /** `v | (1 << m)`. */
  function SetBit(v: uint64, m: nat): (w: uint64)
    requires m < 64
    ensures forall k: nat :: Bit(w, k) <==> Bit(v, k) || k == m
  {
    MaskLemma(v, m);
    Or(v, Pow2(m))
  }

  /** `v &^ (1 << m)`. */
  function ClearBit(v: uint64, m: nat): (w: uint64)
    requires m < 64
    ensures forall k: nat :: Bit(w, k) <==> Bit(v, k) && k != m
  {
    MaskLemma(v, m);
    AndNot(v, Pow2(m))
  }

  lemma MaskLemma(v: uint64, m: nat)
    requires m < 64
    ensures Or(v, Pow2(m)) < Pow2(64) && AndNot(v, Pow2(m)) < Pow2(64)
    ensures forall k: nat :: Bit(Or(v, Pow2(m)), k) <==> Bit(v, k) || k == m
    ensures forall k: nat :: Bit(AndNot(v, Pow2(m)), k) <==> Bit(v, k) && k != m
  {
    Pow2Mono(m, 64);
    BitwiseWord(v, Pow2(m), (a, b) => a || b);
    BitwiseWord(v, Pow2(m), (a, b) => a && !b);
    forall k: nat
      ensures Bit(Or(v, Pow2(m)), k) <==> Bit(v, k) || k == m
      ensures Bit(AndNot(v, Pow2(m)), k) <==> Bit(v, k) && k != m
    {
      Pow2Bit(m, k);
      BitwiseBit(v, Pow2(m), (a, b) => a || b, k);
      BitwiseBit(v, Pow2(m), (a, b) => a && !b, k);
    }
  }

  // ---------- word lists ----------

  predicate Has(words: seq<uint64>, p: nat) {
    p < 64 * |words| && Bit(words[p / 64], p % 64)
  }

  /** The set a list of machine words stands for. */
  ghost function Members(words: seq<uint64>): (r: set<nat>)
    ensures forall p: nat :: p in r <==> Has(words, p)
  {
    set p: nat | p < 64 * |words| && Has(words, p)
  }

  lemma HasAt(words: seq<uint64>, i: nat, k: nat)
    requires i < |words| && k < 64
    ensures Has(words, 64 * i + k) <==> Bit(words[i], k)
  {
    var p := 64 * i + k;
    assert p / 64 == i && p % 64 == k;
  }

  lemma SetMembers(words: seq<uint64>, pos: nat)
    requires pos < 64 * |words|
    ensures Members(words[pos / 64 := SetBit(words[pos / 64], pos % 64)]) == Members(words) + {pos}
  {
    forall p: nat | p < 64 * |words| && p != pos && p / 64 == pos / 64 ensures p % 64 != pos % 64 {
    }
  }

  lemma ClearMembers(words: seq<uint64>, pos: nat)
    requires pos < 64 * |words|
    ensures Members(words[pos / 64 := ClearBit(words[pos / 64], pos % 64)]) == Members(words) - {pos}
  {
    forall p: nat | p < 64 * |words| && p != pos && p / 64 == pos / 64 ensures p % 64 != pos % 64 {
    }
  }

  /** Two word lists of the same length are equal exactly when they stand for the same set. */
  lemma MembersInjective(a: seq<uint64>, b: seq<uint64>)
    requires |a| == |b| && Members(a) == Members(b)
    ensures a == b
  {
    forall i | 0 <= i < |a| ensures a[i] == b[i] {
      forall k: nat | k < 64 ensures Bit(a[i], k) == Bit(b[i], k) {
        HasAt(a, i, k);
        HasAt(b, i, k);
        assert Has(a, 64 * i + k) <==> 64 * i + k in Members(a);
      }
      WordsEqual(a[i], b[i]);
    }
  }

  // ---------- counting ----------

  /** The set bits of one word. */
  function Flags(v: uint64): set<nat> {
    set k: nat | k < 64 && Bit(v, k)
  }

  /** `s` moved up by `d`. */
  ghost function Shift(s: set<nat>, d: nat): set<nat> {
    set k | k in s :: k + d
  }

  lemma InShift(s: set<nat>, d: nat, k: nat)
    ensures k + d in Shift(s, d) <==> k in s
  {
  }

  lemma {:induction false} ShiftCard(s: set<nat>, d: nat)
    ensures |Shift(s, d)| == |s|
  {
    if s == {} {
      assert Shift(s, d) == {};
    } else {
      var x :| x in s;
      ShiftCard(s - {x}, d);
      forall y ensures y in Shift(s, d) <==> y in Shift(s - {x}, d) + {x + d} {
        if y in Shift(s, d) {
          var k :| k in s && y == k + d;
          assert k != x ==> k in s - {x};
        }
      }
      assert Shift(s, d) == Shift(s - {x}, d) + {x + d};
    }
  }

  lemma InLastWord(words: seq<uint64>, v: uint64, k: nat)
    requires k < 64
    ensures Has(words + [v], k + 64 * |words|) <==> k in Flags(v)
  {
    HasAt(words + [v], |words|, k);
  }

  lemma MembersSnocSet(words: seq<uint64>, v: uint64)
    ensures Members(words + [v]) == Members(words) + Shift(Flags(v), 64 * |words|)
  {
    var base := 64 * |words|;
    forall p: nat ensures p in Members(words + [v]) <==> p in Members(words) + Shift(Flags(v), base) {
      if p < base {
        assert (words + [v])[p / 64] == words[p / 64];
      } else if p < base + 64 {
        InLastWord(words, v, p - base);
        InShift(Flags(v), base, p - base);
      }
    }
  }

  lemma MembersSnoc(words: seq<uint64>, v: uint64)
    ensures |Members(words + [v])| == |Members(words)| + |Flags(v)|
  {
    MembersSnocSet(words, v);
    ShiftCard(Flags(v), 64 * |words|);
    assert Members(words) !! Shift(Flags(v), 64 * |words|);
  }

  // ---------- the operations ----------

  method NewBitset(bits: nat) returns (b: array<uint64>)
    ensures fresh(b)
    ensures b.Length == (bits + 63) / 64
    ensures Members(b[..]) == {}
  {
    var extra := 0;
    if bits % 64 != 0 {
      extra := 1;
    }
    b := new uint64[bits / 64 + extra](_ => 0);
    forall k: nat ensures !Bit(0, k) {
      ZeroBit(k);
    }
  }

  method Clone(b: array<uint64>) returns (c: array<uint64>)
    ensures fresh(c) && c[..] == b[..]
  {
    c := new uint64[b.Length](i requires 0 <= i < b.Length reads b => b[i]);
  }

  method Set(b: array<uint64>, pos: nat)
    requires pos < 64 * b.Length
    modifies b
    ensures Members(b[..]) == old(Members(b[..])) + {pos}
  {
    var major, minor := pos / 64, pos % 64;
    b[major] := SetBit(b[major], minor);
    SetMembers(old(b[..]), pos);
    assert b[..] == old(b[..])[major := b[major]];
  }

  method Clear(b: array<uint64>, pos: nat)
    requires pos < 64 * b.Length
    modifies b
    ensures Members(b[..]) == old(Members(b[..])) - {pos}
  {
    var major, minor := pos / 64, pos % 64;
    b[major] := ClearBit(b[major], minor);
    ClearMembers(old(b[..]), pos);
    assert b[..] == old(b[..])[major := b[major]];
  }

  method Get(b: array<uint64>, pos: nat) returns (r: bool)
    requires pos < 64 * b.Length
    ensures r <==> pos in Members(b[..])
  {
    var major, minor := pos / 64, pos % 64;
    r := Bit(b[major], minor);
    assert b[..][major] == b[major];
  }

  /** Go's bits.OnesCount64. */
  function OnesCount(v: uint64): nat {
    |Flags(v)|
  }

  method PopCount(b: array<uint64>) returns (total: nat)
    ensures total == |Members(b[..])|
  {
    total := 0;
    assert Members(b[..0]) == {};
    for i := 0 to b.Length
      invariant total == |Members(b[..i])|
    {
      total := total + OnesCount(b[i]);
      assert b[..i + 1] == b[..i] + [b[i]];
      MembersSnoc(b[..i], b[i]);
    }
    assert b[..] == b[..b.Length];
  }

  function XorAll(words: seq<uint64>, seed: uint64): uint64 {
    if words == [] then seed else
      var rest := XorAll(words[..|words| - 1], seed);
      BitwiseWord(rest, words[|words| - 1], (a, b) => a != b);
      Xor(rest, words[|words| - 1])
  }

  ghost function HashOf(words: seq<uint64>): uint64 {
    XorAll(words, |Members(words)| % Pow2(64))
  }

  ghost function WithBit(words: seq<uint64>, k: nat): set<nat> {
    set i: nat | i < |words| && Bit(words[i], k)
  }

  lemma WithBitSnoc(words: seq<uint64>, k: nat)
    requires words != []
    ensures var last := |words| - 1;
      |WithBit(words, k)| == |WithBit(words[..last], k)| + (if Bit(words[last], k) then 1 else 0)
  {
    var last := |words| - 1;
    if Bit(words[last], k) {
      assert WithBit(words, k) == WithBit(words[..last], k) + {last};
    } else {
      assert WithBit(words, k) == WithBit(words[..last], k);
    }
  }

  lemma XorBit(v: nat, w: nat, k: nat)
    ensures Bit(Xor(v, w), k) <==> Bit(v, k) != Bit(w, k)
  {
    BitwiseBit(v, w, (a, b) => a != b, k);
  }

  ghost predicate Odd(n: nat) {
    n % 2 == 1
  }

  lemma {:induction false} XorAllBit(words: seq<uint64>, seed: uint64, k: nat)
    ensures Bit(XorAll(words, seed), k) <==> Bit(seed, k) != Odd(|WithBit(words, k)|)
  {
    if words == [] {
      assert WithBit(words, k) == {};
    } else {
      var last := |words| - 1;
      var rest := XorAll(words[..last], seed);
      XorAllBit(words[..last], seed, k);
      assert XorAll(words, seed) == Xor(rest, words[last]);
      XorBit(rest, words[last], k);
      WithBitSnoc(words, k);
      OddNext(|WithBit(words[..last], k)|);
    }
  }

  lemma OddNext(n: nat)
    ensures Odd(n + 1) <==> !Odd(n)
  {
  }

  /** Bit `k` of the hash: the parity of the words that have it, flipped by that bit of the size. */
  lemma HashBit(words: seq<uint64>, k: nat)
    ensures Bit(HashOf(words), k) <==>
      Bit(|Members(words)| % Pow2(64), k) != Odd(|WithBit(words, k)|)
  {
    XorAllBit(words, |Members(words)| % Pow2(64), k);
  }

  method Hash(b: array<uint64>) returns (hash: uint64)
    ensures hash == HashOf(b[..])
  {
    var count := PopCount(b);
    hash := count % Pow2(64);
    ghost var seed := hash;
    for i := 0 to b.Length
      invariant hash == XorAll(b[..i], seed)
    {
      BitwiseWord(hash, b[i], (a, b) => a != b);
      hash := Xor(hash, b[i]);
      assert b[..i + 1][..i] == b[..i];
    }
    assert b[..] == b[..b.Length];
  }

  method Equals(b: array<uint64>, b2: array<uint64>) returns (r: bool)
    ensures r <==> b[..] == b2[..]
    ensures b.Length == b2.Length ==> (r <==> Members(b[..]) == Members(b2[..]))
  {
    if b.Length == b2.Length && Members(b[..]) == Members(b2[..]) {
      MembersInjective(b[..], b2[..]);
    }
    if b.Length != b2.Length {
      return false;
    }
    for i := 0 to b.Length
      invariant b[..i] == b2[..i]
    {
      if b[i] != b2[i] {
        return false;
      }
    }
    return true;
  }
}
