/**
  The capital-letter check of src/labgob/labgob.go: a depth-first walk of a type graph that may
  be cyclic, with a visited set and an error count that outlive the calls.
 */
module Labgob {
  import opened Linearizability

  /** A field: whether its name starts with an upper-case letter, and its type. */
  datatype Field = Field(upper: bool, typ: nat)

  /** What reflection says of a type; types are numbered. */
  datatype Kind =
    | Struct(fields: seq<Field>)
    | Elem(elem: nat)               // slice, array or pointer
    | Map(elem: nat, key: nat)
    | Basic

  /** The types of the program: finitely many, and closed under looking inside them. */
  type Types = seq<Kind>

  ghost function Parts(k: Kind): set<nat> {
    match k
    case Struct(fields) => set i | 0 <= i < |fields| :: fields[i].typ
    case Elem(elem) => {elem}
    case Map(elem, key) => {elem, key}
    case Basic => {}
  }

  ghost predicate Closed(g: Types) {
    forall t: nat, u: nat | t < |g| && u in Parts(g[t]) :: u < |g|
  }

  /** A path of the type graph. */
  ghost predicate IsPath(g: Types, path: seq<nat>) {
    && |path| > 0 && (forall i | 0 <= i < |path| :: path[i] < |g|)
    && forall i | 0 <= i < |path| - 1 :: path[i + 1] in Parts(g[path[i]])
  }

  ghost predicate Reaches(g: Types, t: nat, u: nat) {
    exists path: seq<nat> :: IsPath(g, path) && path[0] == t && path[|path| - 1] == u
  }

  ghost predicate ReachedFrom(g: Types, args: set<nat>, u: nat) {
    exists t: nat :: t in args && Reaches(g, t, u)
  }

  /** The lower-case fields among the first `n`. */
  function LowerCase(fields: seq<Field>, n: nat): nat
    requires n <= |fields|
  {
    if n == 0 then 0 else LowerCase(fields, n - 1) + (if fields[n - 1].upper then 0 else 1)
  }

  function Errors(k: Kind): nat {
    if k.Struct? then LowerCase(k.fields, |k.fields|) else 0
  }

  /** The lower-case fields of the types in `s` among the first `n` types. */
  function Total(g: Types, s: set<nat>, n: nat): nat
    requires n <= |g|
  {
    if n == 0 then 0 else Total(g, s, n - 1) + (if n - 1 in s then Errors(g[n - 1]) else 0)
  }

  lemma {:induction false} TotalAdds(g: Types, s: set<nat>, t: nat, n: nat)
    requires n <= |g| && t !in s && t < |g|
    ensures Total(g, s + {t}, n) == Total(g, s, n) + (if t < n then Errors(g[t]) else 0)
  {
    if n > 0 {
      TotalAdds(g, s, t, n - 1);
    }
  }

  // ---------- what one walk adds ----------

  ghost function All(g: Types): set<nat> {
    Below(|g|)
  }

  /** A walk from `t` adds `t` if it is new; whatever it adds is reachable from `t` and has its parts added too. */
  ghost predicate Walked(g: Types, t: nat, before: set<nat>, after: set<nat>) {
    && before <= after <= All(g) && t in after
    && forall u | u in after && u !in before :: Reaches(g, t, u) && Parts(g[u]) <= after
  }

  /** The same in the middle of the walk: `t` is entered and the parts in `done` are walked. */
  ghost predicate Walking(g: Types, t: nat, before: set<nat>, mid: set<nat>, done: set<nat>) {
    && t < |g| && t !in before && before + {t} <= mid <= All(g) && done <= mid
    && (forall u | u in mid && u !in before :: Reaches(g, t, u))
    && (forall u | u in mid && u !in before && u != t :: Parts(g[u]) <= mid)
  }

  lemma ReachesSelf(g: Types, t: nat)
    requires t < |g|
    ensures Reaches(g, t, t)
  {
    assert IsPath(g, [t]);
  }

  lemma ReachesThrough(g: Types, t: nat, p: nat, u: nat)
    requires t < |g| && p in Parts(g[t]) && Reaches(g, p, u)
    ensures Reaches(g, t, u)
  {
    var path: seq<nat> :| IsPath(g, path) && path[0] == p && path[|path| - 1] == u;
    var longer := [t] + path;
    forall i | 0 <= i < |longer| - 1 ensures longer[i + 1] in Parts(g[longer[i]]) {
      if i > 0 {
        assert longer[i + 1] == path[i - 1 + 1] && longer[i] == path[i - 1];
      }
    }
    assert IsPath(g, longer);
  }

  lemma WalkStarts(g: Types, t: nat, before: set<nat>)
    requires t < |g| && t !in before && before <= All(g)
    ensures Walking(g, t, before, before + {t}, {})
  {
    ReachesSelf(g, t);
  }

  lemma WalkGoesOn(g: Types, t: nat, before: set<nat>, mid: set<nat>, done: set<nat>, p: nat, after: set<nat>)
    requires Walking(g, t, before, mid, done) && p in Parts(g[t]) && Walked(g, p, mid, after)
    ensures Walking(g, t, before, after, done + {p})
  {
    forall u | u in after && u !in before ensures Reaches(g, t, u) {
      if u !in mid {
        ReachesThrough(g, t, p, u);
      }
    }
  }

  lemma WalkEnds(g: Types, t: nat, before: set<nat>, mid: set<nat>)
    requires t < |g| && Walking(g, t, before, mid, Parts(g[t]))
    ensures Walked(g, t, before, mid)
  {
  }

  // ---------- all walks together ----------

  /** `checked` is exactly what is reachable from the arguments so far. */
  ghost predicate IsReach(g: Types, args: set<nat>, checked: set<nat>) {
    forall u: nat :: u in checked <==> ReachedFrom(g, args, u)
  }

  lemma {:induction false} ClosedHoldsPath(g: Types, s: set<nat>, path: seq<nat>)
    requires IsPath(g, path) && path[0] in s && forall u: nat | u in s && u < |g| :: Parts(g[u]) <= s
    ensures path[|path| - 1] in s
    decreases |path|
  {
    var last := |path| - 1;
    if last > 0 {
      ClosedHoldsPath(g, s, path[..last]);
      assert path[last - 1 + 1] in Parts(g[path[last - 1]]);
    }
  }

  lemma ReachClosed(g: Types, args: set<nat>, checked: set<nat>, u: nat)
    requires Closed(g) && IsReach(g, args, checked) && u in checked && u < |g|
    ensures Parts(g[u]) <= checked
  {
    forall v | v in Parts(g[u]) ensures v in checked {
      var t: nat :| t in args && Reaches(g, t, u);
      var path: seq<nat> :| IsPath(g, path) && path[0] == t && path[|path| - 1] == u;
      var longer := path + [v];
      assert IsPath(g, longer) && longer[0] == t && longer[|longer| - 1] == v;
      assert Reaches(g, t, v);
    }
  }

  lemma WalkReaches(g: Types, args: set<nat>, t: nat, before: set<nat>, after: set<nat>)
    requires Closed(g) && t < |g| && IsReach(g, args, before) && Walked(g, t, before, after)
    ensures IsReach(g, args + {t}, after)
  {
    forall u: nat | u in after ensures ReachedFrom(g, args + {t}, u) {
      if u in before {
        var a: nat :| a in args && Reaches(g, a, u);
        assert a in args + {t};
      } else {
        assert t in args + {t};
      }
    }
    forall u: nat | u in after && u < |g| ensures Parts(g[u]) <= after {
      if u in before {
        ReachClosed(g, args, before, u);
      }
    }
    forall u: nat | ReachedFrom(g, args + {t}, u) ensures u in after {
      var a: nat :| a in args + {t} && Reaches(g, a, u);
      if a == t {
        var path: seq<nat> :| IsPath(g, path) && path[0] == a && path[|path| - 1] == u;
        ClosedHoldsPath(g, after, path);
      } else {
        assert ReachedFrom(g, args, u);
      }
    }
  }

  // ---------- the same, kind by kind ----------

  /** Looking inside a type of `s` leads to types of `s`. */
  ghost predicate LooksInside(g: Types, s: set<nat>) {
    forall u: nat | u in s && u < |g| ::
      match g[u]
      case Struct(fields) => forall i | 0 <= i < |fields| :: fields[i].typ in s
      case Elem(elem) => elem in s
      case Map(elem, key) => elem in s && key in s
      case Basic => true
  }

  lemma LooksInsideMeans(g: Types, s: set<nat>)
    ensures LooksInside(g, s) <==> forall u: nat | u in s && u < |g| :: Parts(g[u]) <= s
  {
    forall u: nat | u in s && u < |g| && g[u].Struct?
      ensures Parts(g[u]) <= s <==> forall i | 0 <= i < |g[u].fields| :: g[u].fields[i].typ in s
    {
      var fields := g[u].fields;
      if Parts(g[u]) <= s {
        forall i | 0 <= i < |fields| ensures fields[i].typ in s {
          assert fields[i].typ in Parts(g[u]);
        }
      }
    }
  }

  ghost predicate IsLeast(g: Types, args: set<nat>, checked: set<nat>) {
    && args <= checked && LooksInside(g, checked)
    && forall s: set<nat> | args <= s && LooksInside(g, s) :: checked <= s
  }

  /** What is reachable is the least set that holds the arguments and is closed under looking inside. */
  lemma ReachIsLeast(g: Types, args: set<nat>, checked: set<nat>)
    requires Closed(g) && IsReach(g, args, checked) && args <= All(g) && checked <= All(g)
    ensures IsLeast(g, args, checked)
  {
    forall t | t in args ensures t in checked {
      ReachesSelf(g, t);
    }
    forall u: nat | u in checked && u < |g| ensures Parts(g[u]) <= checked {
      ReachClosed(g, args, checked, u);
    }
    LooksInsideMeans(g, checked);
    forall s: set<nat>, u: nat | args <= s && LooksInside(g, s) && u in checked ensures u in s {
      LooksInsideMeans(g, s);
      var t: nat :| t in args && Reaches(g, t, u);
      var path: seq<nat> :| IsPath(g, path) && path[0] == t && path[|path| - 1] == u;
      ClosedHoldsPath(g, s, path);
    }
  }

  /** The fields that draw an error: lower-case fields of the structs of `s` among the first `n` types. */
  ghost function BadFields(g: Types, s: set<nat>, n: nat): set<(nat, nat)>
    requires n <= |g|
  {
    set u: nat, i: nat | u < n && u in s && g[u].Struct? && i < |g[u].fields| && !g[u].fields[i].upper :: (u, i)
  }

  ghost function BadOf(u: nat, fields: seq<Field>, n: nat): set<(nat, nat)>
    requires n <= |fields|
  {
    set i: nat | i < n && !fields[i].upper :: (u, i)
  }

  lemma {:induction false} LowerCaseCounts(u: nat, fields: seq<Field>, n: nat)
    requires n <= |fields|
    ensures |BadOf(u, fields, n)| == LowerCase(fields, n)
  {
    if n > 0 {
      LowerCaseCounts(u, fields, n - 1);
      var before := BadOf(u, fields, n - 1);
      if fields[n - 1].upper {
        assert BadOf(u, fields, n) == before;
      } else {
        assert BadOf(u, fields, n) == before + {(u, n - 1)};
      }
    } else {
      assert BadOf(u, fields, n) == {};
    }
  }

  lemma {:induction false} TotalCounts(g: Types, s: set<nat>, n: nat)
    requires n <= |g|
    ensures |BadFields(g, s, n)| == Total(g, s, n)
  {
    if n > 0 {
      var u := n - 1;
      TotalCounts(g, s, u);
      var before := BadFields(g, s, u);
      if u in s && g[u].Struct? {
        var fields := g[u].fields;
        LowerCaseCounts(u, fields, |fields|);
        var more := BadOf(u, fields, |fields|);
        forall x ensures x in BadFields(g, s, n) <==> x in before + more {
          if x in BadFields(g, s, n) && x.0 == u {
            assert x == (u, x.1);
          }
        }
        assert BadFields(g, s, n) == before + more && before !! more;
      } else {
        assert BadFields(g, s, n) == before;
      }
    } else {
      assert BadFields(g, s, n) == {};
    }
  }

  class Checker {
    const g: Types
    var checked: set<nat>
    var errorCount: nat
    ghost var args: set<nat>

    /** Between top-level calls. */
    ghost predicate Valid()
      reads this
    {
      && Closed(g) && checked <= All(g) && args <= All(g)
      && IsReach(g, args, checked)
      && errorCount == Total(g, checked, |g|)
    }

    constructor (g: Types)
      requires Closed(g)
      ensures Valid() && this.g == g && args == {} && errorCount == 0
    {
      this.g := g;
      checked, errorCount, args := {}, 0, {};
      new;
      TotalNone(g, |g|);
    }

    /** A top-level call: the checked types are those reachable from all arguments so far, and the
        errors are their lower-case fields, each counted once. */
    method CheckValue(t: nat)
      requires Valid() && t < |g|
      modifies this
      ensures Valid() && args == old(args) + {t}
      // `checked` is the least set that holds the arguments and is closed under looking inside
      ensures IsLeast(g, args, checked)
      // each lower-case field of a checked struct is counted once
      ensures errorCount == |BadFields(g, checked, |g|)|
    {
      WalkFrom(t);
      ReachIsLeast(g, args, checked);
      TotalCounts(g, checked, |g|);
    }

    method WalkFrom(t: nat)
      requires Valid() && t < |g|
      modifies this
      ensures Valid() && args == old(args) + {t}
    {
      CheckType(t);
      WalkReaches(g, args, t, old(checked), checked);
      args := args + {t};
    }

    method CheckType(t: nat)
      requires Closed(g) && t < |g| && checked <= All(g)
      modifies this`checked, this`errorCount
      ensures Walked(g, t, old(checked), checked)
      ensures errorCount - old(errorCount) == Total(g, checked, |g|) - Total(g, old(checked), |g|)
      decreases All(g) - checked, 0
    {
      if t in checked {
        return;
      }
      checked := checked + {t};
      WalkStarts(g, t, old(checked));
      TotalAdds(g, old(checked), t, |g|);
      ghost var done := {};
      match g[t]
      case Struct(fields) =>
        for i := 0 to |fields|
          invariant Walking(g, t, old(checked), checked, done)
          invariant done == set k | 0 <= k < i :: fields[k].typ
          invariant errorCount - old(errorCount) + Errors(g[t]) ==
            LowerCase(fields, i) + Total(g, checked, |g|) - Total(g, old(checked), |g|)
        {
          if !fields[i].upper {
            errorCount := errorCount + 1;
          }
          done := Visit(t, old(checked), done, fields[i].typ);
        }
        WalkEnds(g, t, old(checked), checked);
      case Elem(elem) =>
        done := Visit(t, old(checked), done, elem);
        WalkEnds(g, t, old(checked), checked);
      case Map(elem, key) =>
        done := Visit(t, old(checked), done, elem);
        done := Visit(t, old(checked), done, key);
        assert done == {elem, key};
        WalkEnds(g, t, old(checked), checked);
      case Basic =>
        WalkEnds(g, t, old(checked), checked);
    }

    /** The recursive call on one part of `t`. */
    method Visit(t: nat, ghost before: set<nat>, ghost done: set<nat>, p: nat) returns (ghost done': set<nat>)
      requires Closed(g) && Walking(g, t, before, checked, done) && p in Parts(g[t])
      modifies this`checked, this`errorCount
      ensures Walking(g, t, before, checked, done') && done' == done + {p} && old(checked) <= checked
      ensures errorCount - old(errorCount) == Total(g, checked, |g|) - Total(g, old(checked), |g|)
      decreases All(g) - checked, 1
    {
      CheckType(p);
      WalkGoesOn(g, t, before, old(checked), done, p, checked);
      done' := done + {p};
    }
  }

  lemma {:induction false} TotalNone(g: Types, n: nat)
    requires n <= |g|
    ensures Total(g, {}, n) == 0
  {
    if n > 0 {
      TotalNone(g, n - 1);
    }
  }
}
