/**
  The memo cache of the search: buckets of (bitset, state) pairs under the hash of the bitset
  (src/porcupine/checker.go: cacheEntry, cacheContains).  It is proved to be a plain set of
  (set of operations, state) pairs, whatever the hash collisions.
 */
module Cache {
  import opened Bitset
  import opened Search

  /** `words` is the contents that `linearized` had when it was stored, for the proof only. */
  datatype CacheEntry<S> = CacheEntry(linearized: array<uint64>, state: S, ghost words: seq<uint64>)

  type Buckets<S> = map<uint64, seq<CacheEntry<S>>>

  predicate InBucket<S>(cache: Buckets<S>, h: uint64, i: int) {
    h in cache && 0 <= i < |cache[h]|
  }

  /** Stored bitsets are in `stored` and have not changed since they were stored. */
  ghost predicate Frozen<S>(cache: Buckets<S>, stored: set<array<uint64>>)
    reads stored
  {
    forall h, i | InBucket(cache, h, i) ::
      cache[h][i].linearized in stored && cache[h][i].linearized[..] == cache[h][i].words
  }

  ghost function ConfigIn<S>(e: CacheEntry<S>): Config<S> {
    Config(Members(e.words), e.state)
  }

  /** The buckets hold exactly the configurations `abs`, each under its own hash. */
  ghost predicate Refines<S>(cache: Buckets<S>, abs: set<Config<S>>, size: nat) {
    && (forall h, i | InBucket(cache, h, i) ::
          |cache[h][i].words| == size && HashOf(cache[h][i].words) == h && ConfigIn(cache[h][i]) in abs)
    && (forall c | c in abs :: Stored(cache, c))
  }

  ghost predicate Stored<S>(cache: Buckets<S>, c: Config<S>) {
    exists h, i :: InBucket(cache, h, i) && ConfigIn(cache[h][i]) == c
  }

  method CacheContains<S(==)>(cache: Buckets<S>, linearized: array<uint64>, state: S,
                              ghost abs: set<Config<S>>, ghost stored: set<array<uint64>>)
    returns (found: bool)
    requires Frozen(cache, stored) && Refines(cache, abs, linearized.Length)
    ensures found <==> Config(Members(linearized[..]), state) in abs
  {
    var hash := Hash(linearized);
    ghost var c := Config(Members(linearized[..]), state);
    if hash in cache {
      for k := 0 to |cache[hash]|
        invariant forall i | 0 <= i < k :: ConfigIn(cache[hash][i]) != c
      {
        var elem := cache[hash][k];
        assert InBucket(cache, hash, k);
        var same := Equals(linearized, elem.linearized);
        if same && state == elem.state {
          return true;
        }
      }
    }
    if c in abs {
      MissedNothing(cache, abs, linearized[..], state);
    }
    return false;
  }

  /** A configuration in the cache is found under the hash of its bitset. */
  lemma MissedNothing<S>(cache: Buckets<S>, abs: set<Config<S>>, words: seq<uint64>, state: S)
    requires Refines(cache, abs, |words|) && Config(Members(words), state) in abs
    ensures exists i ::
      InBucket(cache, HashOf(words), i) && ConfigIn(cache[HashOf(words)][i]) == Config(Members(words), state)
  {
    var c := Config(Members(words), state);
    assert Stored(cache, c);
    var h, i :| InBucket(cache, h, i) && ConfigIn(cache[h][i]) == c;
    MembersInjective(cache[h][i].words, words);
  }

  function Add<S>(cache: Buckets<S>, hash: uint64, e: CacheEntry<S>): Buckets<S> {
    cache[hash := (if hash in cache then cache[hash] else []) + [e]]
  }

  lemma AddRefines<S>(cache: Buckets<S>, abs: set<Config<S>>, size: nat, e: CacheEntry<S>)
    requires Refines(cache, abs, size) && |e.words| == size
    ensures Refines(Add(cache, HashOf(e.words), e), abs + {ConfigIn(e)}, size)
  {
    var h := HashOf(e.words);
    var cache': Buckets<S> := Add(cache, h, e);
    assert InBucket(cache', h, |cache'[h]| - 1);
    forall c | c in abs + {ConfigIn(e)} ensures Stored(cache', c) {
      if c in abs {
        assert Stored(cache, c);
        var g, i :| InBucket(cache, g, i) && ConfigIn(cache[g][i]) == c;
        assert InBucket(cache', g, i) && cache'[g][i] == cache[g][i];
      }
    }
    forall g, i | InBucket(cache', g, i)
      ensures |cache'[g][i].words| == size && HashOf(cache'[g][i].words) == g
        && ConfigIn(cache'[g][i]) in abs + {ConfigIn(e)}
    {
      assert InBucket(cache, g, i) ==> cache'[g][i] == cache[g][i];
    }
  }

  lemma AddFrozen<S>(cache: Buckets<S>, stored: set<array<uint64>>, hash: uint64, e: CacheEntry<S>)
    requires Frozen(cache, stored) && e.linearized[..] == e.words
    ensures Frozen(Add(cache, hash, e), stored + {e.linearized})
  {
    var cache': Buckets<S> := Add(cache, hash, e);
    forall g, i | InBucket(cache', g, i)
      ensures cache'[g][i].linearized in stored + {e.linearized} && cache'[g][i].linearized[..] == cache'[g][i].words
    {
      assert InBucket(cache, g, i) ==> cache'[g][i] == cache[g][i];
    }
  }
}
