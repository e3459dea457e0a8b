/**
  What compaction may change and what it must not, when the consistency check crashes, and
  what the commit index means (src/raft/raft.go: Snapshot, CondInstallSnapshot, isMatchPrevLog,
  isAdvanceThanCandidate, Start, leaderApply).
 */
module RaftLog {
  import opened Linearizability
  import opened Raft

  // ---------- the shape of the log in every reachable state ----------

  /** Everything that changes the log. */
  datatype LogStep =
    | Grow(entry: Entry)                     // Start
    | Take(prev: int, prevTerm: nat, entries: seq<Entry>)     // AppendEntries, when it takes the entries
    | Clobber(prev: int, prevTerm: nat, entries: seq<Entry>)  // when it only writes to the shared array
    | Trim(upTo: int)                        // Snapshot
    | Install(term: nat, at: nat, cmd: int)  // CondInstallSnapshot
    | Other(d: Durable)                      // votes, terms and restarts, which keep the log

  /** AppendEntries goes on to the entries: the check succeeds and the first of them is above the log's start. */
  predicate Accepts(d: Durable, prev: int, prevTerm: nat) {
    var reply := MatchPrevLog(d, prev, prevTerm);
    reply.Answers? && reply.success && RelativeIndex(d, prev + 1) > 0
  }

  /** What is left of the log when `entries` are written over it from position `at` on. */
  function Overwritten(log: seq<Entry>, at: nat, entries: seq<Entry>): seq<Entry>
    requires at <= |log|
  {
    if at + |entries| <= |log| then log[..at] + entries + log[at + |entries|..]
    else log[..at] + entries[..|log| - at]
  }

  /** Every entry after the write: the written ones where they fit, and the old ones elsewhere. */
  lemma OverwrittenAt(log: seq<Entry>, at: nat, entries: seq<Entry>, i: nat)
    requires at <= |log| && i < |log|
    ensures |Overwritten(log, at, entries)| == |log|
    ensures Overwritten(log, at, entries)[i] == if at <= i < at + |entries| then entries[i - at] else log[i]
  {
  }

  ghost predicate ChangesLog(d: Durable, e: LogStep, d': Durable) {
    match e
    case Grow(entry) => d' == d.(log := d.log + [entry])
    case Take(prev, prevTerm, entries) =>
      Accepts(d, prev, prevTerm) && d' == d.(log := d.log[..RelativeIndex(d, prev + 1)] + entries)
    case Clobber(prev, prevTerm, entries) =>
      Accepts(d, prev, prevTerm) && d' == d.(log := Overwritten(d.log, RelativeIndex(d, prev + 1), entries))
    case Trim(upTo) => Compact(d, upTo) == Some(d')
    case Install(term, at, cmd) =>
      d' == d.(log := [Entry(term, cmd)], lastIncludedTerm := term, lastIncludedIndex := at)
    case Other(x) =>
      && d' == x && x.log == d.log
      && x.lastIncludedTerm == d.lastIncludedTerm && x.lastIncludedIndex == d.lastIncludedIndex
  }

  ghost predicate IsLogRun(run: seq<Durable>, steps: seq<LogStep>) {
    && |run| == |steps| + 1 && run[0] == Durable(0, 0, 0, [Entry(0, 0)], 0, 0)
    && forall k: nat | k < |steps| :: ChangesLog(run[k], steps[k], run[k + 1])
  }

  /** In every reachable state the log is non-empty and starts with the snapshot's term. */
  lemma {:induction false} LogStaysOk(run: seq<Durable>, steps: seq<LogStep>, k: nat)
    requires IsLogRun(run, steps) && k < |run|
    ensures LogOk(run[k])
  {
    if k > 0 {
      LogStaysOk(run, steps, k - 1);
      assert ChangesLog(run[k - 1], steps[k - 1], run[k - 1 + 1]);
    }
  }

  // ---------- compaction is invisible above the snapshot ----------

  /** `b` is what is left of `a` after compacting. */
  ghost predicate SameAbove(a: Durable, b: Durable) {
    && LogOk(a) && LogOk(b)
    && a.currentTerm == b.currentTerm && a.votedFor == b.votedFor && a.votedTerm == b.votedTerm
    && a.lastIncludedIndex <= b.lastIncludedIndex && LastIndex(a) == LastIndex(b)
    && forall p | b.lastIncludedIndex <= p :: EntryAt(a, p) == EntryAt(b, p)
  }

  /** A snapshot within the log keeps exactly the entries from its index on. */
  lemma CompactKeeps(d: Durable, index: int)
    requires LogOk(d) && index <= LastIndex(d)
    ensures Compact(d, index).Some? && SameAbove(d, Compact(d, index).value)
    ensures d.lastIncludedIndex < index ==> forall p | p < index :: EntryAt(Compact(d, index).value, p) == None
  {
  }

  /** Compacting twice is compacting once, at the later index. */
  lemma CompactTwice(d: Durable, i: int, j: int)
    requires LogOk(d) && i <= j <= LastIndex(d)
    ensures Compact(d, i).Some? && Compact(Compact(d, i).value, j) == Compact(d, j)
  {
    var d' := Compact(d, i).value;
    if d.lastIncludedIndex < i < j {
      assert d.log[RelativeIndex(d, i)..][RelativeIndex(d', j)..] == d.log[RelativeIndex(d, j)..];
    }
  }

  /** Every snapshot is taken at an index that the log reaches at that moment. */
  ghost predicate WithinLog(d: Durable, qs: seq<Request>)
    requires LogOk(d)
    decreases |qs|
  {
    qs != [] ==> (qs[0].TakeSnapshot? ==> qs[0].index <= LastIndex(d)) && WithinLog(Answer(d, qs[0]).0, qs[1..])
  }

  /** The replies to the requests that are not snapshots. */
  function Replies(d: Durable, qs: seq<Request>): seq<Reply>
    requires LogOk(d) && WithinLog(d, qs)
    decreases |qs|
  {
    if qs == [] then [] else
      var (d', r) := Answer(d, qs[0]);
      (if qs[0].TakeSnapshot? then [] else [r]) + Replies(d', qs[1..])
  }

  function WithoutSnapshots(qs: seq<Request>): seq<Request> {
    if qs == [] then [] else (if qs[0].TakeSnapshot? then [] else [qs[0]]) + WithoutSnapshots(qs[1..])
  }

  lemma SameAnswer(a: Durable, b: Durable, q: Request)
    requires SameAbove(a, b) && !q.TakeSnapshot?
    ensures Answer(a, q).1 == Answer(b, q).1 && SameAbove(Answer(a, q).0, Answer(b, q).0)
  {
    assert EntryAt(a, LastIndex(a)) == EntryAt(b, LastIndex(b));
    assert a.log[|a.log| - 1] == b.log[|b.log| - 1];
    var a', b' := Answer(a, q).0, Answer(b, q).0;
    forall p | b.lastIncludedIndex <= p ensures EntryAt(a', p) == EntryAt(b', p) {
      assert EntryAt(a, p) == EntryAt(b, p);
    }
  }

  lemma SameAboveCompact(a: Durable, b: Durable, index: int)
    requires SameAbove(a, b) && index <= LastIndex(b)
    ensures Compact(b, index).Some? && SameAbove(a, Compact(b, index).value)
  {
    CompactKeeps(b, index);
  }

  /** However snapshots are interleaved with other requests, every vote decision, every
      election request and every index that Start hands out is the same as without them. */
  lemma {:induction false} SnapshotsAreInvisible(a: Durable, b: Durable, qs: seq<Request>)
    requires SameAbove(a, b) && WithinLog(b, qs)
    ensures WithinLog(a, WithoutSnapshots(qs)) && Replies(a, WithoutSnapshots(qs)) == Replies(b, qs)
    decreases |qs|
  {
    if qs != [] {
      if qs[0].TakeSnapshot? {
        SameAboveCompact(a, b, qs[0].index);
        SnapshotsAreInvisible(a, Answer(b, qs[0]).0, qs[1..]);
        assert WithoutSnapshots(qs) == WithoutSnapshots(qs[1..]);
      } else {
        SameAnswer(a, b, qs[0]);
        var rest := WithoutSnapshots(qs[1..]);
        SnapshotsAreInvisible(Answer(a, qs[0]).0, Answer(b, qs[0]).0, qs[1..]);
        assert ([qs[0]] + rest)[1..] == rest;
      }
    }
  }

  // ---------- the consistency check ----------

  /** Where the search for a differing term ends: it leaves the log exactly when every entry
      from its start on has the same term and the log does not start near the beginning. */
  lemma {:induction false} BackUpEnds(d: Durable, p: int, term: nat)
    requires d.lastIncludedIndex <= p <= LastIndex(d)
    ensures BackUp(d, p, term) == None <==>
      d.lastIncludedIndex > 1 && forall a | d.lastIncludedIndex <= a <= p :: EntryAt(d, a).value.term == term
    ensures BackUp(d, p, term).Some? ==>
      var q := BackUp(d, p, term).value;
      && 0 <= q <= p && (forall a | q < a <= p && d.lastIncludedIndex <= a :: EntryAt(d, a).value.term == term)
      && (q > 0 ==> d.lastIncludedIndex <= q && EntryAt(d, q).value.term != term)
    decreases p
  {
    if p > 0 && d.log[RelativeIndex(d, p)].term == term {
      if p > d.lastIncludedIndex {
        BackUpEnds(d, p - 1, term);
      } else {
        assert BackUp(d, p, term) == BackUp(d, p - 1, term);
      }
    } else if p > 0 {
      assert EntryAt(d, p).value.term != term;
    }
  }

  ghost predicate Mismatch(d: Durable, p: int, term: nat) {
    d.lastIncludedIndex < p <= LastIndex(d) && EntryAt(d, p).value.term != term
  }

  /** The terms differ, all entries left up to that position share one term, and the snapshot is
      past the first index. */
  ghost predicate NowhereToStop(d: Durable, p: int, term: nat) {
    && Mismatch(d, p, term) && d.lastIncludedIndex > 1
    && forall a | d.lastIncludedIndex <= a <= p :: EntryAt(d, a).value.term == EntryAt(d, p).value.term
  }

  lemma CheckCrashes(d: Durable, p: int, term: nat)
    requires LogOk(d)
    ensures MatchPrevLog(d, p, term).Panics? <==> NowhereToStop(d, p, term)
  {
    if Mismatch(d, p, term) {
      BackUpEnds(d, p, EntryAt(d, p).value.term);
    }
  }

  /** When the check does answer, the answer is right: it accepts exactly the positions that the
      log holds with that term or that the snapshot covers; a refusal beyond the log proposes the
      log's end, and any other refusal a position after which all entries up to the refused one
      have the refused term: the last one that has another term, or zero. */
  lemma CheckAnswers(d: Durable, p: int, term: nat)
    requires LogOk(d) && !MatchPrevLog(d, p, term).Panics?
    ensures MatchPrevLog(d, p, term).success <==>
      p <= d.lastIncludedIndex || (p <= LastIndex(d) && EntryAt(d, p).value.term == term)
    ensures MatchPrevLog(d, p, term).success ==>
      MatchPrevLog(d, p, term).newPrevLogIndex == if p <= d.lastIncludedIndex then d.lastIncludedIndex else p
    ensures p > LastIndex(d) ==> MatchPrevLog(d, p, term).newPrevLogIndex == LastIndex(d)
    ensures Mismatch(d, p, term) ==>
      var q := MatchPrevLog(d, p, term).newPrevLogIndex;
      && 0 <= q < p
      && (q == 0 || (d.lastIncludedIndex <= q && EntryAt(d, q).value.term != EntryAt(d, p).value.term))
      && forall a | q < a <= p && d.lastIncludedIndex <= a ::
           EntryAt(d, a).value.term == EntryAt(d, p).value.term
  {
    if Mismatch(d, p, term) {
      BackUpEnds(d, p, EntryAt(d, p).value.term);
    }
  }

  lemma {:induction false} BackUpSame(a: Durable, b: Durable, p: int, term: nat)
    requires SameAbove(a, b) && b.lastIncludedIndex <= p <= LastIndex(b) && BackUp(b, p, term).Some?
    ensures BackUp(a, p, term) == BackUp(b, p, term)
    decreases p
  {
    assert EntryAt(a, p) == EntryAt(b, p);
    if p > 0 && b.log[RelativeIndex(b, p)].term == term {
      if p > b.lastIncludedIndex {
        BackUpSame(a, b, p - 1, term);
      } else {
        assert BackUp(b, p, term) == BackUp(b, p - 1, term);
      }
    }
  }

  /** For a position above the snapshot the answer is the same before and after compacting if and
      only if the entries left give the check a place to stop, or there was none before either. */
  lemma CheckSurvivesCompaction(a: Durable, b: Durable, p: int, term: nat)
    requires SameAbove(a, b) && b.lastIncludedIndex < p
    ensures MatchPrevLog(a, p, term) == MatchPrevLog(b, p, term) <==>
      (NowhereToStop(b, p, term) ==> NowhereToStop(a, p, term))
  {
    CheckCrashes(a, p, term);
    CheckCrashes(b, p, term);
    if p <= LastIndex(b) {
      assert EntryAt(a, p) == EntryAt(b, p);
      if Mismatch(b, p, term) && !NowhereToStop(b, p, term) {
        BackUpSame(a, b, p, EntryAt(b, p).value.term);
      }
    }
  }

  /** A follower takes entries of one term, sees a newer term, and compacts. */
  lemma OneTermLog(entries: seq<Entry>, term: nat, index: nat) returns (run: seq<Durable>, steps: seq<LogStep>)
    requires 0 < index <= |entries|
    ensures IsLogRun(run, steps) && |run| == 4 && |steps| == 3 && steps[2] == Trim(index)
    ensures run[2].log == [Entry(0, 0)] + entries && run[2].lastIncludedIndex == 0
    ensures SameAbove(run[2], run[3]) && run[3].lastIncludedIndex == index
  {
    var initial := Durable(0, 0, 0, [Entry(0, 0)], 0, 0);
    var taken := initial.(log := [Entry(0, 0)] + entries);
    var later := taken.(currentTerm := term);
    assert initial.log[..1] == [Entry(0, 0)];
    assert ChangesLog(initial, Take(0, 0, entries), taken);
    assert ChangesLog(taken, Other(later), later);
    CompactKeeps(later, index);
    var compacted := Compact(later, index).value;
    assert ChangesLog(later, Trim(index), compacted);
    run, steps := [initial, taken, later, compacted], [Take(0, 0, entries), Other(later), Trim(index)];
  }

  /** A refusal in a log that was never compacted and has one term. */
  lemma OneTermRefused(d: Durable, p: int, term: nat)
    requires LogOk(d) && d.lastIncludedIndex == 0 && Mismatch(d, p, term)
    requires forall a | 1 <= a <= p :: EntryAt(d, a).value.term == EntryAt(d, p).value.term
    ensures MatchPrevLog(d, p, term) == Answers(false, 0)
  {
    CheckCrashes(d, p, term);
    CheckAnswers(d, p, term);
  }

  /** Compacting can turn a refusal into a crash, in a reachable state: any log of one term that is
      compacted past the first index, asked about a later position with another term. */
  lemma CompactionCanCrashTheCheck(entries: seq<Entry>, term: nat, index: nat)
    returns (run: seq<Durable>, steps: seq<LogStep>)
    requires 1 < index < |entries| && forall i | 0 <= i < |entries| :: entries[i].term == entries[0].term != term
    ensures IsLogRun(run, steps) && |run| == 4 && |steps| == 3 && steps[2] == Trim(index)
    ensures MatchPrevLog(run[2], |entries|, term) == Answers(false, 0)
    ensures MatchPrevLog(run[3], |entries|, term) == Panics
  {
    run, steps := OneTermLog(entries, term, index);
    var d, d', p := run[2], run[3], |entries|;
    forall a | 1 <= a <= p ensures EntryAt(d, a).value.term == entries[0].term {
      assert d.log[a] == entries[a - 1];
    }
    OneTermRefused(d, p, term);
    forall a | index <= a <= p ensures EntryAt(d', a).value.term == entries[0].term {
      assert EntryAt(d, a) == EntryAt(d', a);
    }
    CheckCrashes(d', p, term);
  }

  // ---------- the commit index ----------

  /** The leader, and the servers whose recorded match index reaches `i`. */
  ghost function Matching(matchIndex: seq<int>, me: nat, i: int, n: nat): set<nat>
    requires n <= |matchIndex|
  {
    set j: nat | j < n && (j == me || matchIndex[j] >= i)
  }

  lemma {:induction false} OthersCounts(matchIndex: seq<int>, me: nat, i: int, n: nat)
    requires n <= |matchIndex|
    ensures |Matching(matchIndex, me, i, n)| == Others(matchIndex, me, i, n) + (if me < n then 1 else 0)
  {
    if n > 0 {
      OthersCounts(matchIndex, me, i, n - 1);
      var smaller := Matching(matchIndex, me, i, n - 1);
      if n - 1 == me || matchIndex[n - 1] >= i {
        assert Matching(matchIndex, me, i, n) == smaller + {n - 1};
      } else {
        assert Matching(matchIndex, me, i, n) == smaller;
      }
    }
  }

  /** The leader's test is "the recorded match indices of a majority reach the entry, counting the
      leader", except in a cluster of one. */
  lemma CommitMeansMajority(matchIndex: seq<int>, me: nat, i: int)
    requires me < |matchIndex|
    ensures Replicated(matchIndex, me, i) <==>
      |matchIndex| != 1 && 2 * |Matching(matchIndex, me, i, |matchIndex|)| > |matchIndex|
  {
    OthersCounts(matchIndex, me, i, |matchIndex|);
  }

  /** A server alone in its cluster is a majority for every entry, and commits none. */
  lemma LonelyLeaderNeverCommits(matchIndex: seq<int>, i: int)
    requires |matchIndex| == 1
    ensures 2 * |Matching(matchIndex, 0, i, 1)| > 1 && !Replicated(matchIndex, 0, i)
  {
    OthersCounts(matchIndex, 0, i, 1);
  }

  lemma {:induction false} OthersAntitone(matchIndex: seq<int>, me: nat, i: int, j: int, n: nat)
    requires i <= j && n <= |matchIndex|
    ensures Others(matchIndex, me, j, n) <= Others(matchIndex, me, i, n)
  {
    if n > 0 {
      OthersAntitone(matchIndex, me, i, j, n - 1);
    }
  }

  /** Everything up to an index that passes the test passes it, so the greatest one covers them all. */
  lemma EarlierIsReplicated(matchIndex: seq<int>, me: nat, i: int, j: int)
    requires i <= j && Replicated(matchIndex, me, j)
    ensures Replicated(matchIndex, me, i)
  {
    OthersAntitone(matchIndex, me, i, j, |matchIndex|);
  }
}
