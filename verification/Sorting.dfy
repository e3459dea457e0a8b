/**
  Go's sort.Sort, as far as its callers may rely on it: some sorted permutation.  Nothing is
  promised about the order of elements that compare equal.
 */
module Sorting {

  ghost predicate StrictWeakOrder<T(!new)>(less: (T, T) -> bool) {
    && (forall a, b | less(a, b) :: !less(b, a))
    && (forall a, b, c | !less(b, a) && !less(c, b) :: !less(c, a))
  }

  ghost predicate Sorted<T>(s: seq<T>, less: (T, T) -> bool) {
    forall i, j | 0 <= i < j < |s| :: !less(s[j], s[i])
  }

  function Insert<T>(s: seq<T>, x: T, less: (T, T) -> bool): seq<T> {
    if s == [] then [x] else
      var last := |s| - 1;
      if less(x, s[last]) then Insert(s[..last], x, less) + [s[last]] else s + [x]
  }

  lemma {:induction false} InsertPermutes<T>(s: seq<T>, x: T, less: (T, T) -> bool)
    ensures multiset(Insert(s, x, less)) == multiset(s) + multiset{x}
  {
    if s != [] {
      var last := |s| - 1;
      assert s == s[..last] + [s[last]];
      InsertPermutes(s[..last], x, less);
    }
  }

  lemma InsertHolds<T>(s: seq<T>, x: T, less: (T, T) -> bool, i: nat)
    requires i < |Insert(s, x, less)|
    ensures Insert(s, x, less)[i] == x || Insert(s, x, less)[i] in s
  {
    InsertPermutes(s, x, less);
    assert Insert(s, x, less)[i] in multiset(Insert(s, x, less));
  }

  lemma {:induction false} InsertIsSorted<T(!new)>(s: seq<T>, x: T, less: (T, T) -> bool)
    requires StrictWeakOrder(less) && Sorted(s, less)
    ensures Sorted(Insert(s, x, less), less)
  {
    if s != [] {
      var last := |s| - 1;
      if less(x, s[last]) {
        InsertIsSorted(s[..last], x, less);
        var front := Insert(s[..last], x, less);
        forall i: nat | i < |front| ensures !less(s[last], front[i]) {
          InsertHolds(s[..last], x, less, i);
        }
      }
    }
  }

  method Sort<T(!new)>(s: seq<T>, less: (T, T) -> bool) returns (r: seq<T>)
    requires StrictWeakOrder(less)
    ensures multiset(r) == multiset(s) && Sorted(r, less)
  {
    r := [];
    for i := 0 to |s|
      invariant multiset(r) == multiset(s[..i]) && Sorted(r, less)
    {
      InsertPermutes(r, s[i], less);
      InsertIsSorted(r, s[i], less);
      r := Insert(r, s[i], less);
      assert s[..i + 1] == s[..i] + [s[i]];
    }
    assert s[..|s|] == s;
  }
}
