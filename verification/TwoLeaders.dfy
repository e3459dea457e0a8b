/**
  Two leaders in one term, in every cluster of two servers or more.  The election loop promotes
  its server when it is a candidate and the tally is high enough (src/raft/raft.go:700), without
  looking whether the server is still in the term of that election.  Server 0 stands in term 1,
  and just enough servers vote for it; server 1 stands in term 2, gets enough votes, among them
  that of server 0, and leads; server 0 becomes a candidate again and wins its old election with
  the late replies.
 */
module TwoLeaders {
  import opened Linearizability
  import opened Raft
  import opened Election

  ghost predicate Reachable(n: nat, st: State) {
    exists run: seq<State>, events: seq<Event> :: IsRun(n, run, events) && run[|events|] == st
  }

  lemma Extend(n: nat, st: State, e: Event, st': State)
    requires Reachable(n, st) && Step(st, e, st')
    ensures Reachable(n, st')
  {
    var run, events :| IsRun(n, run, events) && run[|events|] == st;
    var run', events' := run + [st'], events + [e];
    forall k: nat | k < |events'| ensures Step(run'[k], events'[k], run'[k + 1]) {
      if k < |events| {
        assert run'[k] == run[k] && run'[k + 1] == run[k + 1] && events'[k] == events[k];
      }
    }
    assert IsRun(n, run', events') && run'[|events'|] == st';
  }

  lemma StartReachable(n: nat)
    ensures Reachable(n, Initial(n))
  {
    assert IsRun(n, [Initial(n)], []);
  }

  // ---------- one step at a time ----------

  lemma DoTimeout(n: nat, st: State, s: nat) returns (st': State)
    requires Reachable(n, st) && s < |st.peers| && st.peers[s].status == Follower
    ensures Reachable(n, st') && st' == st.(peers := st.peers[s := st.peers[s].(status := Candidate)])
  {
    st' := st.(peers := st.peers[s := st.peers[s].(status := Candidate)]);
    Extend(n, st, Timeout(s), st');
  }

  lemma DoPromote(n: nat, st: State, s: nat) returns (st': State)
    requires Reachable(n, st) && s < |st.peers| && st.peers[s].status == Candidate
    requires st.peers[s].current.Some? && Wins(st, s, st.peers[s].current.value)
    ensures Reachable(n, st') && st' == st.(peers := st.peers[s := st.peers[s].(status := Leader, current := None)])
  {
    st' := st.(peers := st.peers[s := st.peers[s].(status := Leader, current := None)]);
    Extend(n, st, Promote(s), st');
  }

  /** A server with an empty log and no snapshot. */
  predicate Blank(d: Durable) {
    |d.log| == 1 && d.log[0].term == 0 && d.lastIncludedIndex == 0
  }

  lemma DoStart(n: nat, st: State, s: nat) returns (st': State)
    requires Reachable(n, st) && s < |st.peers| && Blank(st.peers[s].mem)
    requires st.peers[s].status == Candidate && st.peers[s].current == None
    ensures Reachable(n, st') && st'.replies == st.replies
    ensures var p := st.peers[s]; var d := Campaign(p.mem, s);
      && st'.peers == st.peers[s := Peer(d, d, Candidate, p.polls[d.currentTerm := Poll(1, {})], Some(d.currentTerm))]
      && VoteArgs(d.currentTerm, s, 0, 0) in st'.requests
  {
    var p := st.peers[s];
    var d := Campaign(p.mem, s);
    var p' := Peer(d, d, Candidate, p.polls[d.currentTerm := Poll(1, {})], Some(d.currentTerm));
    st' := State(st.peers[s := p'], st.requests + {VoteArgs(d.currentTerm, s, 0, 0)}, st.replies,
                 st.votes + {Cast(s, d.currentTerm, s)});
    assert Starts(st, s, st');
    Extend(n, st, Election.StartElection(s), st');
  }

  // ---------- many servers vote ----------

  function Voted(p: Peer, args: VoteArgs): Peer {
    var d := Vote(p.mem.(currentTerm := args.term), args.candidate, args.term);
    p.(mem := d, disk := d, status := Follower)
  }

  predicate MayVote(p: Peer, args: VoteArgs, rt: nat) {
    Blank(p.mem) && p.mem.currentTerm == rt < args.term && args.lastLogTerm == 0 && args.lastLogIndex == 0
  }

  lemma DoVote(n: nat, st: State, s: nat, args: VoteArgs, rt: nat) returns (st': State)
    requires Reachable(n, st) && s < |st.peers| && args in st.requests && args.candidate != s
    requires MayVote(st.peers[s], args, rt)
    ensures Reachable(n, st') && st'.requests == st.requests
    ensures st'.peers == st.peers[s := Voted(st.peers[s], args)]
    ensures st'.replies == st.replies + {Ballot(s, args.candidate, args.term, true, rt)}
  {
    st' := State(st.peers[s := Voted(st.peers[s], args)], st.requests,
                 st.replies + {Ballot(s, args.candidate, args.term, true, rt)},
                 st.votes + {Cast(s, args.term, args.candidate)});
    assert HandleVote(st.peers[s].mem, args) == (Voted(st.peers[s], args).mem, true);
    assert Receives(st, s, args, st');
    Extend(n, st, Receive(s, args), st');
  }

  ghost predicate HasGrants(st: State, voters: seq<nat>, args: VoteArgs, rt: nat) {
    forall i | 0 <= i < |voters| :: Ballot(voters[i], args.candidate, args.term, true, rt) in st.replies
  }

  /** All of `voters` vote; nobody else changes, and no message is lost. */
  lemma {:induction false} VoteAll(n: nat, st: State, voters: seq<nat>, args: VoteArgs, rt: nat) returns (st': State)
    requires Reachable(n, st) && |st.peers| == n && InRange(n, voters) && Distinct(voters)
    requires args in st.requests && args.candidate !in voters
    requires forall i | 0 <= i < |voters| :: MayVote(st.peers[voters[i]], args, rt)
    ensures Reachable(n, st') && |st'.peers| == n && st.replies <= st'.replies && st'.requests == st.requests
    ensures forall s: nat | s < n :: st'.peers[s] == if s in voters then Voted(st.peers[s], args) else st.peers[s]
    ensures HasGrants(st', voters, args, rt)
    decreases |voters|
  {
    st' := st;
    if voters != [] {
      var last := |voters| - 1;
      var front, v := voters[..last], voters[last];
      assert voters == front + [v];
      var mid := VoteAll(n, st, front, args, rt);
      assert v !in front;
      st' := DoVote(n, mid, v, args, rt);
    }
  }

  // ---------- many replies are counted ----------

  lemma DoCount(n: nat, st: State, s: nat, b: Ballot) returns (st': State)
    requires Reachable(n, st) && s < |st.peers| && b in st.replies && b.to == s && b.granted
    requires var p := st.peers[s]; p.status == Candidate && b.term in p.polls && b.from !in p.polls[b.term].heard
    ensures var p := st.peers[s];
      && Reachable(n, st')
      && st' == st.(peers := st.peers[s := p.(polls := p.polls[b.term := AfterReply(p.polls[b.term], b)])])
  {
    var p := st.peers[s];
    st' := st.(peers := st.peers[s := p.(polls := p.polls[b.term := AfterReply(p.polls[b.term], b)])]);
    Extend(n, st, Count(s, b), st');
  }

  /** Candidate `s` counts one vote after the other. */
  lemma {:induction false} CountAll(n: nat, st: State, voters: seq<nat>, args: VoteArgs, rt: nat) returns (st': State)
    requires Reachable(n, st) && Distinct(voters) && HasGrants(st, voters, args, rt)
    requires args.candidate < |st.peers| && st.peers[args.candidate].status == Candidate
    requires var polls := st.peers[args.candidate].polls; args.term in polls && polls[args.term] == Poll(1, {})
    ensures Reachable(n, st')
    ensures var s := args.candidate; var p := st.peers[s];
      st' == st.(peers := st.peers[s := p.(polls := p.polls[args.term := Poll(1 + |voters|, Elems(voters))])])
    decreases |voters|
  {
    var s := args.candidate;
    var p := st.peers[s];
    if voters == [] {
      st' := st;
      assert Elems(voters) == {};
      assert p.polls[args.term := Poll(1, {})] == p.polls;
    } else {
      var last := |voters| - 1;
      var front, v := voters[..last], voters[last];
      var mid := CountAll(n, st, front, args, rt);
      var b := Ballot(v, s, args.term, true, rt);
      ElemsSnoc(voters);
      assert v !in front;
      st' := DoCount(n, mid, s, b);
      assert AfterReply(Poll(1 + |front|, Elems(front)), b) == Poll(1 + |voters|, Elems(voters));
      assert p.polls[args.term := Poll(1 + |front|, Elems(front))][args.term := Poll(1 + |voters|, Elems(voters))]
          == p.polls[args.term := Poll(1 + |voters|, Elems(voters))];
    }
  }

  // ---------- the run ----------

  const first := VoteArgs(1, 0, 0, 0)
  const second := VoteArgs(2, 1, 0, 0)

  function D(term: nat, votedFor: nat): Durable {
    Durable(term, votedFor, term, [Entry(0, 0)], 0, 0)
  }

  /** The `k` numbers from `a` on. */
  function Numbers(a: nat, k: nat): (r: seq<nat>)
    ensures |r| == k && (forall i | 0 <= i < k :: r[i] == a + i) && forall v: nat :: v in r <==> a <= v < a + k
  {
    if k == 0 then [] else Numbers(a, k - 1) + [a + k - 1]
  }

  /** Servers 1 to n/2, who vote for server 0. */
  function FirstVoters(n: nat): (voters: seq<nat>)
    ensures |voters| == n / 2 && Distinct(voters) && forall i | 0 <= i < |voters| :: 1 <= voters[i] <= n / 2
    ensures forall v: nat :: v in voters <==> 1 <= v <= n / 2
  {
    Numbers(1, n / 2)
  }

  /** Servers 0 and 2 to n/2, who vote for server 1. */
  function SecondVoters(n: nat): (voters: seq<nat>)
    requires n >= 2
    ensures |voters| == n / 2 && Distinct(voters)
    ensures forall i | 0 <= i < |voters| :: voters[i] == 0 || 2 <= voters[i] <= n / 2
    ensures forall v: nat :: v in voters <==> v == 0 || 2 <= v <= n / 2
  {
    Numbers(2, n / 2 - 1) + [0]
  }

  /** Server 0 stands in term 1 and is voted for, but hears nothing yet. */
  lemma FirstElection(n: nat) returns (st: State)
    requires n >= 2
    ensures Reachable(n, st) && |st.peers| == n && HasGrants(st, FirstVoters(n), first, 0)
    ensures st.peers[0] == Peer(D(1, 0), D(1, 0), Candidate, map[1 := Poll(1, {})], Some(1))
    ensures forall s: nat | 1 <= s <= n / 2 :: st.peers[s] == Peer(D(1, 0), D(1, 0), Follower, map[], None)
  {
    StartReachable(n);
    st := DoTimeout(n, Initial(n), 0);
    st := DoStart(n, st, 0);
    assert map[][1 := Poll(1, {})] == map[1 := Poll(1, {})];
    st := VoteAll(n, st, FirstVoters(n), first, 0);
  }

  /** Server 1 stands in term 2 and is voted for, also by server 0. */
  lemma SecondElection(n: nat) returns (st: State)
    requires n >= 2
    ensures Reachable(n, st) && |st.peers| == n
    ensures HasGrants(st, FirstVoters(n), first, 0) && HasGrants(st, SecondVoters(n), second, 1)
    ensures st.peers[0] == Peer(D(2, 1), D(2, 1), Follower, map[1 := Poll(1, {})], Some(1))
    ensures st.peers[1] == Peer(D(2, 1), D(2, 1), Candidate, map[2 := Poll(1, {})], Some(2))
  {
    st := FirstElection(n);
    var old_ := st;
    st := DoTimeout(n, st, 1);
    st := DoStart(n, st, 1);
    assert map[][2 := Poll(1, {})] == map[2 := Poll(1, {})];
    assert Campaign(D(1, 0), 1) == D(2, 1);
    st := VoteAll(n, st, SecondVoters(n), second, 1);
    assert old_.replies <= st.replies;
  }

  /** Server 1 leads term 2. */
  lemma SecondLeads(n: nat) returns (st: State)
    requires n >= 2
    ensures Reachable(n, st) && |st.peers| == n && IsLeader(st, 1, 2) && HasGrants(st, FirstVoters(n), first, 0)
    ensures st.peers[0] == Peer(D(2, 1), D(2, 1), Follower, map[1 := Poll(1, {})], Some(1))
  {
    st := SecondElection(n);
    st := CountAll(n, st, SecondVoters(n), second, 1);
    st := DoPromote(n, st, 1);
  }

  /** Server 0 leads term 2 as well. */
  lemma BothLead(n: nat) returns (st: State)
    requires n >= 2
    ensures Reachable(n, st) && IsLeader(st, 0, 2) && IsLeader(st, 1, 2)
  {
    st := SecondLeads(n);
    st := DoTimeout(n, st, 0);
    st := CountAll(n, st, FirstVoters(n), first, 0);
    st := DoPromote(n, st, 0);
  }

  /** A run of the source's steps with two leaders of one term, for every cluster of two servers or more. */
  lemma TwoLeadersInOneTerm(n: nat) returns (run: seq<State>, events: seq<Event>)
    requires n >= 2
    ensures IsRun(n, run, events) && !OneLeaderPerTerm(run)
  {
    var st := BothLead(n);
    run, events :| IsRun(n, run, events) && run[|events|] == st;
    assert IsLeader(run[|events|], 0, 2) && IsLeader(run[|events|], 1, 2);
  }

  /** Leaders are unique in all runs exactly if there is nobody to compete with. */
  lemma UniqueOnlyWhenAlone(n: nat)
    ensures (forall run: seq<State>, events: seq<Event> | IsRun(n, run, events) :: OneLeaderPerTerm(run)) <==> n < 2
  {
    if n < 2 {
      forall run: seq<State>, events: seq<Event> | IsRun(n, run, events) ensures OneLeaderPerTerm(run) {
        forall i: nat, j: nat, a: nat, b: nat, t: nat |
          i < |run| && j < |run| && IsLeader(run[i], a, t) && IsLeader(run[j], b, t)
          ensures a == b
        {
          RunInv(n, run, events, i);
          RunInv(n, run, events, j);
        }
      }
    } else {
      var run, events := TwoLeadersInOneTerm(n);
    }
  }
}
