/**
  The locked sections of a server (src/raft/raft.go) are the steps of the cluster: whenever a
  server's fields are those of its peer in a cluster state, a call of one of its methods is a step
  of the cluster to a state in which they are so again.
 */
module ServerSteps {
  import opened Linearizability
  import opened Raft
  import opened Election

  /** Peer `s` of the cluster is server `x`. */
  ghost predicate Shows(x: Server, st: State, s: nat)
    reads x
  {
    && x.Ok() && s == x.me && |st.peers| == x.peers
    && st.peers[s].mem == x.Mem() && st.peers[s].disk == x.disk && st.peers[s].status == x.status
  }

  ghost function WithPeer(st: State, s: nat, p: Peer): State
    requires s < |st.peers|
  {
    st.(peers := st.peers[s := p])
  }

  method TimeOut(x: Server, ghost st: State) returns (ghost st': State)
    requires Shows(x, st, x.me) && x.status == Follower
    modifies x
    ensures Step(st, Timeout(x.me), st') && Shows(x, st', x.me)
  {
    x.CheckState(true);
    st' := WithPeer(st, x.me, st.peers[x.me].(status := Candidate));
  }

  method Stand(x: Server, ghost st: State) returns (args: Option<VoteArgs>, ghost st': State)
    requires Shows(x, st, x.me) && x.status == Candidate && st.peers[x.me].current == None
    modifies x
    ensures Step(st, Election.StartElection(x.me), st') && Shows(x, st', x.me)
    ensures args.Some? && args.value in st'.requests
  {
    args := x.StartElection();
    ghost var p, d := st.peers[x.me], x.Mem();
    st' := State(st.peers[x.me := Peer(d, d, p.status, p.polls[d.currentTerm := Poll(1, {})], Some(d.currentTerm))],
                 st.requests + {args.value}, st.replies, st.votes + {Cast(x.me, d.currentTerm, x.me)});
    assert Starts(st, x.me, st');
  }

  method AnswerVote(x: Server, args: VoteArgs, ghost st: State) returns (reply: VoteReply, ghost st': State)
    requires Shows(x, st, x.me) && args in st.requests && args.candidate != x.me
    modifies x
    ensures Step(st, Receive(x.me, args), st') && Shows(x, st', x.me)
    ensures Ballot(x.me, args.candidate, args.term, reply.granted, reply.term) in st'.replies
  {
    reply := x.RequestVote(args);
    ghost var p := st.peers[x.me].(mem := x.Mem(), disk := x.disk, status := x.status);
    st' := State(st.peers[x.me := p], st.requests,
                 st.replies + {Ballot(x.me, args.candidate, args.term, reply.granted, reply.term)},
                 if reply.granted then st.votes + {Cast(x.me, args.term, args.candidate)} else st.votes);
    assert Receives(st, x.me, args, st');
  }

  /** A reply is counted, or its newer term is taken over. */
  method HandleReply(x: Server, b: Ballot, ghost st: State) returns (ghost st': State)
    requires Shows(x, st, x.me) && x.status == Candidate && b in st.replies && b.to == x.me
    requires b.term in st.peers[x.me].polls && b.from !in st.peers[x.me].polls[b.term].heard
    modifies x
    ensures Step(st, Count(x.me, b), st') && Shows(x, st', x.me)
  {
    if !b.granted {
      x.Observe(b.replyTerm);
    }
    ghost var p := st.peers[x.me];
    ghost var polls := p.polls[b.term := AfterReply(p.polls[b.term], b)];
    st' := WithPeer(st, x.me, p.(mem := x.Mem(), disk := x.disk, status := x.status, polls := polls));
    assert Counts(st, x.me, b, st');
  }

  /** The end of an election: promotion, or nothing but giving up. */
  method EndElection(x: Server, count: nat, ghost st: State) returns (ghost st': State)
    requires Shows(x, st, x.me)
    requires var p := st.peers[x.me];
      p.current.Some? && p.current.value in p.polls && p.polls[p.current.value].count == count
    modifies x
    ensures x.status == if old(x.status) == Candidate && count >= Majority(|st.peers|) then Leader else old(x.status)
    ensures var won := old(x.status) == Candidate && count >= Majority(|st.peers|);
      Step(st, if won then Promote(x.me) else Abandon(x.me), st')
    ensures Shows(x, st', x.me)
  {
    x.FinishElection(count);
    st' := WithPeer(st, x.me, st.peers[x.me].(status := x.status, current := None));
  }

  method Obey(x: Server, term: nat, ghost st: State) returns (stale: bool, ghost st': State)
    requires Shows(x, st, x.me)
    modifies x
    ensures stale <==> term < st.peers[x.me].mem.currentTerm
    ensures if stale then st' == st else Step(st, Hear(x.me, term), st')
    ensures Shows(x, st', x.me)
  {
    stale := x.HearLeader(term);
    st' := if stale then st else
      WithPeer(st, x.me, st.peers[x.me].(mem := x.Mem(), disk := x.disk, status := Follower));
  }

  method Propose(x: Server, command: int, ghost st: State) returns (index: int, ghost st': State)
    requires Shows(x, st, x.me) && x.status == Leader
    modifies x
    ensures Step(st, ChangeLog(x.me, x.Mem(), x.disk), st') && Shows(x, st', x.me)
  {
    var term, isLeader;
    index, term, isLeader := x.Start(command, false);
    st' := WithPeer(st, x.me, st.peers[x.me].(mem := x.Mem(), disk := x.disk));
  }

  method CompactLog(x: Server, index: int, ghost st: State) returns (crashed: bool, ghost st': State)
    requires Shows(x, st, x.me)
    modifies x
    ensures Step(st, ChangeLog(x.me, x.Mem(), x.disk), st') && Shows(x, st', x.me)
  {
    crashed := x.Snapshot(index);
    st' := WithPeer(st, x.me, st.peers[x.me].(mem := x.Mem(), disk := x.disk));
  }

  method Install(x: Server, term: nat, index: nat, cmd: int, ghost st: State)
    returns (installed: bool, ghost st': State)
    requires Shows(x, st, x.me)
    modifies x
    ensures Step(st, ChangeLog(x.me, x.Mem(), x.disk), st') && Shows(x, st', x.me)
  {
    installed := x.CondInstallSnapshot(term, index, cmd);
    st' := WithPeer(st, x.me, st.peers[x.me].(mem := x.Mem(), disk := x.disk));
  }

  /** A crash, after which only the disk is left. */
  method CrashAndRestart(x: Server, ghost st: State) returns (ghost st': State)
    requires Shows(x, st, x.me)
    modifies x
    ensures Step(st, Crash(x.me), st') && Shows(x, st', x.me)
  {
    x.Restart();
    st' := WithPeer(st, x.me, Peer(x.disk, x.disk, Follower, map[], None));
  }
}
