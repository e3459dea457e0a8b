/**
  One Raft server (src/raft/raft.go): what it keeps on disk, how it votes, how it compacts its
  log, how it answers the consistency check and how a leader picks its commit index.  The
  methods are the locked sections of the source; each is proved against a function of the
  durable state.
 */
module Raft {
  import opened Linearizability

  datatype Entry = Entry(term: nat, command: int)

  /** What `persist` saves. */
  datatype Durable = Durable(currentTerm: nat, votedFor: nat, votedTerm: nat, log: seq<Entry>,
                             lastIncludedTerm: nat, lastIncludedIndex: nat)

  predicate SameVote(d: Durable, e: Durable) {
    d.currentTerm == e.currentTerm && d.votedFor == e.votedFor && d.votedTerm == e.votedTerm
  }

  datatype Status = Follower | Candidate | Leader

  datatype VoteArgs = VoteArgs(term: nat, candidate: nat, lastLogTerm: nat, lastLogIndex: int)

  datatype VoteReply = VoteReply(term: nat, granted: bool)

  function RelativeIndex(d: Durable, absolute: int): int {
    absolute - d.lastIncludedIndex
  }

  function AbsoluteIndex(d: Durable, relative: int): int {
    relative + d.lastIncludedIndex
  }

  /** The log is never empty; its first entry stands for the snapshot. */
  predicate LogOk(d: Durable) {
    |d.log| > 0 && d.log[0].term == d.lastIncludedTerm
  }

  function LastIndex(d: Durable): int {
    AbsoluteIndex(d, |d.log| - 1)
  }

  /** This server's log is more up to date than the candidate's. */
  predicate IsAdvanceThanCandidate(d: Durable, lastLogTerm: nat, lastLogIndex: int)
    requires |d.log| > 0
  {
    var tail := |d.log| - 1;
    if d.log[tail].term > lastLogTerm then true
    else if d.log[tail].term < lastLogTerm then false
    else AbsoluteIndex(d, tail) > lastLogIndex
  }

  // ---------- voting ----------

  function Vote(d: Durable, candidate: nat, term: nat): Durable {
    d.(votedFor := candidate, votedTerm := term)
  }

  function HandleVote(d: Durable, args: VoteArgs): (Durable, bool)
    requires |d.log| > 0
  {
    if args.term == d.currentTerm then
      if !IsAdvanceThanCandidate(d, args.lastLogTerm, args.lastLogIndex) && d.votedTerm < args.term
      then (Vote(d, args.candidate, args.term), true) else (d, false)
    else if args.term > d.currentTerm then
      var d1 := d.(currentTerm := args.term);
      if !IsAdvanceThanCandidate(d1, args.lastLogTerm, args.lastLogIndex)
      then (Vote(d1, args.candidate, args.term), true) else (d1, false)
    else (d, false)
  }

  /** The durable state of a server that starts an election. */
  function Campaign(d: Durable, me: nat): Durable {
    Vote(d.(currentTerm := d.currentTerm + 1), me, d.currentTerm + 1)
  }

  // ---------- compaction ----------

  /** Snapshot: drops the entries before `index`; `None` is the panic on an index beyond the log. */
  function Compact(d: Durable, index: int): Option<Durable> {
    if index <= d.lastIncludedIndex then Some(d)
    else if RelativeIndex(d, index) >= |d.log| then None
    else Some(d.(lastIncludedTerm := d.log[RelativeIndex(d, index)].term,
                 log := d.log[RelativeIndex(d, index)..],
                 lastIncludedIndex := index))
  }

  /** The entry at an absolute position that the log still holds. */
  function EntryAt(d: Durable, absolute: int): Option<Entry> {
    var r := RelativeIndex(d, absolute);
    if 0 <= r < |d.log| then Some(d.log[r]) else None
  }

  datatype MatchReply = Panics | Answers(success: bool, newPrevLogIndex: int)

  /** From position `p` down, the first position whose term differs from `term`, or zero; `None` below the log. */
  function BackUp(d: Durable, p: int, term: nat): Option<int>
    requires p <= LastIndex(d)
    decreases p
  {
    if p <= 0 then Some(p)
    else if RelativeIndex(d, p) < 0 then None
    else if d.log[RelativeIndex(d, p)].term == term then BackUp(d, p - 1, term)
    else Some(p)
  }

  function MatchPrevLog(d: Durable, prevLogIndex: int, prevLogTerm: nat): MatchReply {
    if prevLogIndex >= AbsoluteIndex(d, |d.log|) then Answers(false, LastIndex(d))
    else if prevLogIndex <= d.lastIncludedIndex then Answers(true, d.lastIncludedIndex)
    else
      var term := d.log[RelativeIndex(d, prevLogIndex)].term;
      if term != prevLogTerm then
        match BackUp(d, prevLogIndex, term)
        case None => Panics
        case Some(p) => Answers(false, p)
      else Answers(true, prevLogIndex)
  }

  // ---------- what a server is asked ----------

  /** What the rest of the system can ask of a server's log, and snapshots in between. */
  datatype Request =
    | AskVote(args: VoteArgs)
    | Stand(me: nat)          // start an election
    | SeeTerm(term: nat)
    | Append(command: int)    // Start, on a leader
    | TakeSnapshot(index: int)

  datatype Reply = Granted(yes: bool) | Requested(args: VoteArgs) | Appended(index: int, term: nat) | Silent

  function Answer(d: Durable, q: Request): (r: (Durable, Reply))
    requires LogOk(d) && (q.TakeSnapshot? ==> q.index <= LastIndex(d))
    ensures LogOk(r.0)
  {
    match q
    case AskVote(args) => var v := HandleVote(d, args); (v.0, Granted(v.1))
    case Stand(me) =>
      var d' := Campaign(d, me);
      (d', Requested(VoteArgs(d'.currentTerm, me, d'.log[|d'.log| - 1].term, LastIndex(d'))))
    case SeeTerm(term) => (d.(currentTerm := if term > d.currentTerm then term else d.currentTerm), Silent)
    case Append(command) =>
      (d.(log := d.log + [Entry(d.currentTerm, command)]), Appended(LastIndex(d) + 1, d.currentTerm))
    case TakeSnapshot(index) => (Compact(d, index).value, Silent)
  }

  // ---------- the commit index ----------

  /** How many of the first `n` servers other than `me` match at least up to `i`. */
  function Others(matchIndex: seq<int>, me: nat, i: int, n: nat): nat
    requires n <= |matchIndex|
  {
    if n == 0 then 0 else
      Others(matchIndex, me, i, n - 1) + (if n - 1 != me && matchIndex[n - 1] >= i then 1 else 0)
  }

  /** The test of leaderApply, which is only made while looking at servers other than `me`. */
  predicate Replicated(matchIndex: seq<int>, me: nat, i: int) {
    |matchIndex| >= 2 && Others(matchIndex, me, i, |matchIndex|) >= |matchIndex| / 2
  }

  /** `applied` holds the entries after position `from` up to position `to`, in order. */
  ghost predicate Delivers(d: Durable, from: int, to: int, applied: seq<Entry>) {
    && |applied| == to - from
    && forall k | 0 <= k < |applied| :: EntryAt(d, from + 1 + k) == Some(applied[k])
  }

  class Server {
    const me: nat
    const peers: nat
    var currentTerm: nat
    var votedFor: nat
    var votedTerm: nat
    var log: seq<Entry>
    var lastIncludedTerm: nat
    var lastIncludedIndex: nat
    var status: Status
    var commitIndex: int
    var lastApplied: int
    var nextIndex: seq<int>
    var matchIndex: seq<int>
    var disk: Durable

    function Mem(): Durable
      reads this
    {
      Durable(currentTerm, votedFor, votedTerm, log, lastIncludedTerm, lastIncludedIndex)
    }

    /** What holds whenever the lock is free.  The log on disk may lag behind the one in memory. */
    ghost predicate Ok()
      reads this
    {
      && LogOk(Mem()) && LogOk(disk) && SameVote(disk, Mem())
      && commitIndex == lastApplied && me < peers
      && (status == Leader ==> |matchIndex| == |nextIndex| == peers)
    }

    /** Everything that was compacted away had been applied; true until a restart. */
    ghost predicate CompactedWasApplied()
      reads this
    {
      lastIncludedIndex <= lastApplied
    }

    /** A server that starts without saved state. */
    constructor (me: nat, peers: nat)
      requires me < peers
      ensures Ok() && CompactedWasApplied() && status == Follower && this.me == me && this.peers == peers
      ensures Mem() == Durable(0, 0, 0, [Entry(0, 0)], 0, 0) && lastApplied == 0
    {
      this.me, this.peers := me, peers;
      currentTerm, votedFor, votedTerm, log := 0, 0, 0, [Entry(0, 0)];
      lastIncludedTerm, lastIncludedIndex, status, commitIndex, lastApplied := 0, 0, Follower, 0, 0;
      nextIndex, matchIndex := [], [];
      disk := Durable(0, 0, 0, [Entry(0, 0)], 0, 0);
    }

    method Persist()
      modifies this`disk
      ensures disk == Mem()
    {
      disk := Durable(currentTerm, votedFor, votedTerm, log, lastIncludedTerm, lastIncludedIndex);
    }

    /** A crash and restart: memory is lost and read back from disk. */
    method Restart()
      requires Ok()
      modifies this
      ensures Ok() && Mem() == old(disk) && disk == old(disk) && status == Follower
      ensures commitIndex == 0 && lastApplied == 0
    {
      status, commitIndex, lastApplied, nextIndex, matchIndex := Follower, 0, 0, [], [];
      currentTerm, votedFor, votedTerm, log := disk.currentTerm, disk.votedFor, disk.votedTerm, disk.log;
      lastIncludedTerm, lastIncludedIndex := disk.lastIncludedTerm, disk.lastIncludedIndex;
    }

    /** The new state is on disk as soon as anything changed. */
    method RequestVote(args: VoteArgs) returns (reply: VoteReply)
      requires Ok()
      modifies this`currentTerm, this`votedFor, this`votedTerm, this`status, this`disk
      ensures Ok() && (Mem(), reply.granted) == HandleVote(old(Mem()), args)
      ensures (Mem(), Granted(reply.granted)) == Answer(old(Mem()), AskVote(args))
      ensures currentTerm == if args.term > old(currentTerm) then args.term else old(currentTerm)
      ensures votedTerm == (if reply.granted then args.term else old(votedTerm))
      ensures votedFor == (if reply.granted then args.candidate else old(votedFor))
      ensures args.term > old(currentTerm) ==> status == Follower && disk.currentTerm == args.term
      ensures reply.granted ==> status == Follower && disk.votedTerm == args.term && disk.votedFor == args.candidate
      ensures disk == if Mem() == old(Mem()) then old(disk) else Mem()
      ensures reply.term == old(currentTerm)
      ensures status == if reply.granted || currentTerm > old(currentTerm) then Follower else old(status)
    {
      reply := VoteReply(currentTerm, false);
      if args.term == currentTerm {
        if !IsAdvanceThanCandidate(Mem(), args.lastLogTerm, args.lastLogIndex) && votedTerm < args.term {
          votedFor := args.candidate;
          votedTerm := args.term;
          status := Follower;
          reply := reply.(granted := true);
          Persist();
        }
      } else if args.term > currentTerm {
        currentTerm := args.term;
        status := Follower;
        if !IsAdvanceThanCandidate(Mem(), args.lastLogTerm, args.lastLogIndex) {
          votedFor := args.candidate;
          votedTerm := args.term;
          reply := reply.(granted := true);
        }
        Persist();
      }
    }

    /** One round of checkState; `late` says whether the election timeout has passed. */
    method CheckState(late: bool)
      requires Ok()
      modifies this`status
      ensures Ok() && status == if late && old(status) == Follower then Candidate else old(status)
    {
      if status == Follower && late {
        status := Candidate;
      }
    }

    /** The first locked section of the election loop. */
    method StartElection() returns (args: Option<VoteArgs>)
      requires Ok()
      modifies this`currentTerm, this`votedFor, this`votedTerm, this`disk
      ensures Ok()
      ensures status != Candidate ==> args == None && Mem() == old(Mem()) && disk == old(disk)
      ensures status == Candidate ==>
        && currentTerm == votedTerm == old(currentTerm) + 1 && votedFor == me && log == old(log)
      ensures status == Candidate ==>
        && Mem() == Campaign(old(Mem()), me) && disk == Mem()
        && args == Some(VoteArgs(currentTerm, me, log[|log| - 1].term, LastIndex(Mem())))
        && Answer(old(Mem()), Stand(me)) == (Mem(), Requested(args.value))
    {
      if status != Candidate {
        return None;
      }
      currentTerm := currentTerm + 1;
      votedFor := me;
      votedTerm := currentTerm;
      Persist();
      return Some(VoteArgs(currentTerm, me, log[|log| - 1].term, AbsoluteIndex(Mem(), |log| - 1)));
    }

    /** The last locked section of the election loop, with `count` votes. */
    method FinishElection(count: nat)
      requires Ok()
      modifies this`status, this`nextIndex, this`matchIndex
      ensures Ok()
      ensures old(status) == Candidate && count >= peers / 2 + 1 ==>
        && status == Leader && |nextIndex| == |matchIndex| == peers
        && forall j | 0 <= j < peers :: nextIndex[j] == LastIndex(Mem()) + 1 && matchIndex[j] == 0
      ensures !(old(status) == Candidate && count >= peers / 2 + 1) ==>
        status == old(status) && nextIndex == old(nextIndex) && matchIndex == old(matchIndex)
    {
      if status == Candidate && count >= peers / 2 + 1 {
        var next := AbsoluteIndex(Mem(), |log|);
        status := Leader;
        nextIndex := seq(peers, _ => next);
        matchIndex := seq(peers, _ => 0);
      }
    }

    /** Seeing a newer term in a request or a reply. */
    method Observe(term: nat)
      requires Ok()
      modifies this`currentTerm, this`status, this`disk
      ensures Ok() && Mem() == old(Mem()).(currentTerm := if term > old(currentTerm) then term else old(currentTerm))
      ensures Answer(old(Mem()), SeeTerm(term)) == (Mem(), Silent)
      ensures disk == if Mem() == old(Mem()) then old(disk) else Mem()
      ensures status == if term > old(currentTerm) then Follower else old(status)
    {
      if term > currentTerm {
        currentTerm := term;
        Persist();
        status := Follower;
      }
    }

    /** The first part of AppendEntries and InstallSnapshot: a leader of an old term is ignored. */
    method HearLeader(term: nat) returns (stale: bool)
      requires Ok()
      modifies this`currentTerm, this`status, this`disk
      ensures Ok() && stale == (term < old(currentTerm))
      ensures Mem() == old(Mem()).(currentTerm := if stale then old(currentTerm) else term)
      ensures disk == if Mem() == old(Mem()) then old(disk) else Mem()
      ensures status == if stale then old(status) else Follower
    {
      if currentTerm > term {
        return true;
      }
      if currentTerm < term {
        currentTerm := term;
        Persist();
      }
      status := Follower;
      return false;
    }

    method Start(command: int, killed: bool) returns (index: int, term: int, isLeader: bool)
      requires Ok()
      modifies this`log, this`disk
      ensures Ok() && isLeader == (!killed && status == Leader)
      ensures isLeader ==> Mem() == old(Mem()).(log := old(log) + [Entry(currentTerm, command)]) && disk == Mem()
      ensures isLeader ==> index == LastIndex(old(Mem())) + 1 == LastIndex(Mem()) && term == currentTerm
      ensures isLeader ==> Answer(old(Mem()), Append(command)) == (Mem(), Appended(index, term))
      ensures !isLeader ==> Mem() == old(Mem()) && disk == old(disk) && index == -1 && term == -1
    {
      if killed || status != Leader {
        return -1, -1, false;
      }
      log := log + [Entry(currentTerm, command)];
      index := AbsoluteIndex(Mem(), |log| - 1);
      term := currentTerm;
      isLeader := true;
      Persist();
    }

    /** Compacts the log; an index beyond the log is out of range. */
    method Snapshot(index: int) returns (crashed: bool)
      requires Ok()
      modifies this`log, this`lastIncludedTerm, this`lastIncludedIndex, this`disk
      ensures Ok() && (crashed <==> Compact(old(Mem()), index) == None)
      ensures crashed <==> index > LastIndex(old(Mem()))
      ensures !crashed ==> Some(Mem()) == Compact(old(Mem()), index)
      ensures !crashed ==> Answer(old(Mem()), TakeSnapshot(index)) == (Mem(), Silent)
      ensures !crashed ==> lastIncludedIndex == if index > old(lastIncludedIndex) then index else old(lastIncludedIndex)
      ensures crashed ==> Mem() == old(Mem())
      ensures disk == if Mem() == old(Mem()) then old(disk) else Mem()
      ensures old(CompactedWasApplied()) && index <= lastApplied ==> CompactedWasApplied()
    {
      if index <= lastIncludedIndex {
        return false;
      }
      var r := RelativeIndex(Mem(), index);
      if r >= |log| {
        return true;
      }
      lastIncludedTerm := log[r].term;
      log := log[r..];
      lastIncludedIndex := index;
      Persist();
      return false;
    }

    method CondInstallSnapshot(includedTerm: nat, includedIndex: nat, cmd: int) returns (installed: bool)
      requires Ok()
      modifies this`log, this`lastIncludedTerm, this`lastIncludedIndex, this`commitIndex, this`lastApplied, this`disk
      ensures Ok() && installed == (old(commitIndex) < includedIndex && old(lastIncludedIndex) < includedIndex)
      ensures installed ==>
        && Mem() == old(Mem()).(log := [Entry(includedTerm, cmd)], lastIncludedTerm := includedTerm,
                                lastIncludedIndex := includedIndex)
        && disk == Mem() && commitIndex == includedIndex && CompactedWasApplied()
      ensures !installed ==> Mem() == old(Mem()) && disk == old(disk) && commitIndex == old(commitIndex)
    {
      if commitIndex >= includedIndex || lastIncludedIndex >= includedIndex {
        return false;
      }
      log := [Entry(includedTerm, cmd)];
      lastIncludedTerm := includedTerm;
      lastIncludedIndex := includedIndex;
      commitIndex := includedIndex;
      lastApplied := includedIndex;
      Persist();
      return true;
    }

    method IsMatchPrevLog(prevLogIndex: int, prevLogTerm: nat) returns (reply: MatchReply)
      requires LogOk(Mem())
      ensures reply == MatchPrevLog(Mem(), prevLogIndex, prevLogTerm)
    {
      var newPrevLogIndex := prevLogIndex;
      if prevLogIndex >= AbsoluteIndex(Mem(), |log|) {
        return Answers(false, AbsoluteIndex(Mem(), |log|) - 1);
      }
      if prevLogIndex <= lastIncludedIndex {
        return Answers(true, lastIncludedIndex);
      }
      var term := log[RelativeIndex(Mem(), prevLogIndex)].term;
      if term != prevLogTerm {
        while newPrevLogIndex > 0
          invariant newPrevLogIndex <= prevLogIndex
          invariant BackUp(Mem(), newPrevLogIndex, term) == BackUp(Mem(), prevLogIndex, term)
        {
          if RelativeIndex(Mem(), newPrevLogIndex) < 0 {
            return Panics;  // index out of range
          }
          if log[RelativeIndex(Mem(), newPrevLogIndex)].term != term {
            break;
          }
          newPrevLogIndex := newPrevLogIndex - 1;
        }
        return Answers(false, newPrevLogIndex);
      }
      return Answers(true, newPrevLogIndex);
    }

    /** A successful reply of `server` to entries up to `sentLast`; LeaderApply follows. */
    method RecordMatch(server: nat, sentLast: int)
      requires Ok() && status == Leader && server < peers
      modifies this`nextIndex, this`matchIndex
      ensures Ok() && nextIndex == old(nextIndex)[server := LastIndex(Mem()) + 1]
      ensures matchIndex == old(matchIndex)[server := sentLast]
    {
      nextIndex := nextIndex[server := AbsoluteIndex(Mem(), |log|)];
      matchIndex := matchIndex[server := sentLast];
    }

    /** The leader's new commit index is the greatest index that enough other servers match, and
        the entries up to it are delivered.  The process crashes exactly when it has to deliver an
        entry that compaction dropped, as after a restart, which forgets what was applied. */
    method LeaderApply() returns (flag: bool, crashed: bool, applied: seq<Entry>)
      requires Ok()
      modifies this`commitIndex, this`lastApplied
      ensures !flag ==> commitIndex == old(commitIndex) && lastApplied == old(lastApplied)
      ensures flag ==> status == Leader && old(commitIndex) < commitIndex <= LastIndex(Mem())
      ensures flag ==> Replicated(matchIndex, me, commitIndex)
      ensures status == Leader ==> forall i | commitIndex < i <= LastIndex(Mem()) :: !Replicated(matchIndex, me, i)
      ensures crashed <==> flag && old(lastApplied) + 1 < lastIncludedIndex
      ensures !crashed ==> Ok() && Delivers(Mem(), old(lastApplied), commitIndex, applied)
      ensures old(CompactedWasApplied()) ==> !crashed && CompactedWasApplied()
    {
      flag, crashed, applied := false, false, [];
      if status != Leader {
        return;
      }
      var newIndex;
      flag, newIndex := FindCommit();
      if flag {
        commitIndex := newIndex;
        crashed, applied := Deliver(newIndex);
        if !crashed {
          lastApplied := newIndex;
        }
      }
    }

    method FindCommit() returns (flag: bool, newIndex: int)
      requires Ok() && status == Leader
      ensures !flag ==> forall i | commitIndex < i <= LastIndex(Mem()) :: !Replicated(matchIndex, me, i)
      ensures flag ==> commitIndex < newIndex <= LastIndex(Mem()) && Replicated(matchIndex, me, newIndex)
      ensures flag ==> forall i | newIndex < i <= LastIndex(Mem()) :: !Replicated(matchIndex, me, i)
    {
      flag := false;
      newIndex := commitIndex;
      var i := AbsoluteIndex(Mem(), |log| - 1);
      while i > commitIndex
        invariant i <= LastIndex(Mem())
        invariant forall k | i < k <= LastIndex(Mem()) :: !Replicated(matchIndex, me, k)
      {
        flag := EnoughMatch(i);
        if flag {
          return true, i;
        }
        i := i - 1;
      }
      return false, newIndex;
    }

    method Deliver(newIndex: int) returns (crashed: bool, applied: seq<Entry>)
      requires |log| > 0 && lastApplied < newIndex <= LastIndex(Mem())
      ensures crashed <==> lastApplied + 1 < lastIncludedIndex
      ensures !crashed ==> Delivers(Mem(), lastApplied, newIndex, applied)
    {
      applied := [];
      var i := lastApplied + 1;
      while i <= newIndex
        invariant lastApplied < i <= newIndex + 1
        invariant i > lastApplied + 1 ==> lastApplied + 1 >= lastIncludedIndex
        invariant Delivers(Mem(), lastApplied, i - 1, applied)
      {
        if RelativeIndex(Mem(), i) < 0 {
          return true, applied;  // index out of range
        }
        applied := applied + [log[RelativeIndex(Mem(), i)]];
        i := i + 1;
      }
      return false, applied;
    }

    method EnoughMatch(i: int) returns (flag: bool)
      requires me < |matchIndex|
      ensures flag <==> Replicated(matchIndex, me, i)
    {
      var others := 0;
      for j := 0 to |matchIndex|
        invariant others == Others(matchIndex, me, i, j)
        invariant others < |matchIndex| / 2 || j == 0 || (j == 1 && me == 0)
      {
        if j == me {
          OthersMono(matchIndex, me, i, j + 1, |matchIndex|);
          continue;
        }
        if matchIndex[j] >= i {
          others := others + 1;
        }
        if others >= |matchIndex| / 2 {
          OthersMono(matchIndex, me, i, j + 1, |matchIndex|);
          return true;
        }
      }
      return false;
    }
  }

  lemma {:induction false} OthersMono(matchIndex: seq<int>, me: nat, i: int, a: nat, b: nat)
    requires a <= b <= |matchIndex|
    ensures Others(matchIndex, me, i, a) <= Others(matchIndex, me, i, b)
  {
    if a < b {
      OthersMono(matchIndex, me, i, a, b - 1);
    }
  }

  /** A leader of two servers that has three entries. */
  method NewLeader() returns (s: Server)
    ensures fresh(s) && s.me == 0 && s.peers == 2 && s.Ok() && s.status == Leader
    ensures |s.log| == 4 && s.lastIncludedIndex == 0 && s.lastApplied == 0 && s.disk == s.Mem()
  {
    s := new Server(0, 2);
    s.CheckState(true);
    var args := s.StartElection();
    s.FinishElection(2);
    for i := 0 to 3
      invariant fresh(s) && s.me == 0 && s.peers == 2 && s.Ok() && s.status == Leader && |s.log| == 1 + i
      invariant s.lastIncludedIndex == 0 && s.lastApplied == 0
      invariant i > 0 ==> s.disk == s.Mem()
    {
      var index, term, isLeader := s.Start(i, false);
    }
  }

  /** The other server has taken the whole log, and the leader commits it. */
  method CommitAll(s: Server) returns (crashed: bool)
    requires s.me == 0 && s.peers == 2 && s.Ok() && s.status == Leader && LastIndex(s.Mem()) > 0 && s.lastApplied == 0
    modifies s`nextIndex, s`matchIndex, s`commitIndex, s`lastApplied
    ensures crashed <==> s.lastIncludedIndex > 1
    ensures !crashed ==> s.Ok() && s.lastApplied == LastIndex(s.Mem())
  {
    var last := LastIndex(s.Mem());
    s.RecordMatch(1, last);
    SecondServerSuffices(s.matchIndex, last);
    var flag, applied;
    flag, crashed, applied := s.LeaderApply();
  }

  /** A leader that restarts after compacting, is elected again and gets a new command crashes when
      it commits that command. */
  method RestartedLeaderCrashes() returns (before: bool, crashed: bool)
    ensures !before && crashed
  {
    var s := NewLeader();
    before := CommitAll(s);
    var beyond := s.Snapshot(2);
    s.Restart();
    s.CheckState(true);
    var args := s.StartElection();
    s.FinishElection(2);
    var index, term, isLeader := s.Start(3, false);
    crashed := CommitAll(s);
  }

  lemma SecondServerSuffices(matchIndex: seq<int>, i: int)
    requires |matchIndex| == 2 && matchIndex[1] >= i
    ensures Replicated(matchIndex, 0, i)
  {
    assert Others(matchIndex, 0, i, 1) == 0;
    assert Others(matchIndex, 0, i, 2) == 1;
  }
}
