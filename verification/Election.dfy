/**
  Elections in a cluster of Raft servers (src/raft/raft.go: ticker, checkState, RequestVote, the
  term bumps, persist and readPersist).  Every locked section is one step; messages may be lost,
  delayed, repeated and reordered, and a server may crash at any moment and restart from disk.
  Proved over whole runs: a server votes once per term, one candidate per term wins, and a term
  has one leader as long as a winner is promoted in the term of its election.
 */
module Election {
  import opened Linearizability
  import opened Raft

  /** One pass of the election loop: the votes counted and the servers whose reply was handled. */
  datatype Poll = Poll(count: nat, heard: set<nat>)

  /** `current` is the term of the election that the election loop is waiting in. */
  datatype Peer = Peer(mem: Durable, disk: Durable, status: Status, polls: map<nat, Poll>, current: Option<nat>)

  datatype Ballot = Ballot(from: nat, to: nat, term: nat, granted: bool, replyTerm: nat)

  datatype Cast = Cast(voter: nat, term: nat, candidate: nat)

  /** Messages stay available for ever; `votes` records every vote cast so far. */
  datatype State = State(peers: seq<Peer>, requests: set<VoteArgs>, replies: set<Ballot>, votes: set<Cast>)

  datatype Event =
    | Timeout(s: nat)
    | StartElection(s: nat)
    | Receive(s: nat, args: VoteArgs)
    | Count(s: nat, ballot: Ballot)
    | Promote(s: nat)
    | Abandon(s: nat)
    | Hear(s: nat, term: nat)                  // AppendEntries, InstallSnapshot, or a newer term in a reply
    | ChangeLog(s: nat, mem: Durable, disk: Durable)
    | Crash(s: nat)

  function Majority(n: nat): nat { n / 2 + 1 }

  function Fresh(): Peer {
    var d := Durable(0, 0, 0, [Entry(0, 0)], 0, 0);
    Peer(d, d, Follower, map[], None)
  }

  function Initial(n: nat): State {
    State(seq(n, _ => Fresh()), {}, {}, {})
  }

  ghost predicate Step(st: State, e: Event, st': State) {
    e.s < |st.peers| &&
    var p := st.peers[e.s];
    match e
    case Timeout(s) =>
      p.status == Follower && st' == st.(peers := st.peers[s := p.(status := Candidate)])
    case StartElection(s) => Starts(st, s, st')
    case Receive(s, args) => Receives(st, s, args, st')
    case Count(s, ballot) => Counts(st, s, ballot, st')
    case Promote(s) =>
      && p.status == Candidate && p.current.Some? && p.current.value in p.polls
      && p.polls[p.current.value].count >= Majority(|st.peers|)
      && st' == st.(peers := st.peers[s := p.(status := Leader, current := None)])
    case Abandon(s) => st' == st.(peers := st.peers[s := p.(current := None)])
    case Hear(s, term) =>
      && term >= p.mem.currentTerm
      && var d := p.mem.(currentTerm := term);
         var disk := if term > p.mem.currentTerm then d else p.disk;
         st' == st.(peers := st.peers[s := p.(mem := d, disk := disk, status := Follower)])
    case ChangeLog(s, mem, disk) =>
      && |mem.log| > 0 && |disk.log| > 0 && SameVote(mem, p.mem) && (disk == p.disk || disk == mem)
      && st' == st.(peers := st.peers[s := p.(mem := mem, disk := disk)])
    case Crash(s) => st' == st.(peers := st.peers[s := Peer(p.disk, p.disk, Follower, map[], None)])
  }

  ghost predicate Starts(st: State, s: nat, st': State)
    requires s < |st.peers|
  {
    var p := st.peers[s];
    && p.status == Candidate && p.current == None && |p.mem.log| > 0
    && var d := Campaign(p.mem, s);
       var args := VoteArgs(d.currentTerm, s, d.log[|d.log| - 1].term, LastIndex(d));
       && st'.peers == st.peers[s := Peer(d, d, p.status, p.polls[d.currentTerm := Poll(1, {})], Some(d.currentTerm))]
       && st'.requests == st.requests + {args} && st'.replies == st.replies
       && st'.votes == st.votes + {Cast(s, d.currentTerm, s)}
  }

  ghost predicate Receives(st: State, s: nat, args: VoteArgs, st': State)
    requires s < |st.peers|
  {
    var p := st.peers[s];
    && args in st.requests && args.candidate != s && |p.mem.log| > 0
    && var (d, granted) := HandleVote(p.mem, args);
       && st'.peers == st.peers[s := p.(mem := d, disk := if d != p.mem then d else p.disk,
                                        status := if d != p.mem then Follower else p.status)]
       && st'.requests == st.requests
       && st'.replies == st.replies + {Ballot(s, args.candidate, args.term, granted, p.mem.currentTerm)}
       && st'.votes == if granted then st.votes + {Cast(s, args.term, args.candidate)} else st.votes
  }

  /** The tally after a reply is handled. */
  function AfterReply(poll: Poll, b: Ballot): Poll {
    Poll(if b.granted then poll.count + 1 else poll.count, poll.heard + {b.from})
  }

  /** Each election asks each server once, so a server's reply is handled at most once. */
  ghost predicate Counts(st: State, s: nat, b: Ballot, st': State)
    requires s < |st.peers|
  {
    var p := st.peers[s];
    && b in st.replies && b.to == s && b.term in p.polls && b.from !in p.polls[b.term].heard && p.status == Candidate
    && var polls := p.polls[b.term := AfterReply(p.polls[b.term], b)];
       if !b.granted && b.replyTerm > p.mem.currentTerm then
         var d := p.mem.(currentTerm := b.replyTerm);
         st' == st.(peers := st.peers[s := p.(mem := d, disk := d, status := Follower, polls := polls)])
       else
         st' == st.(peers := st.peers[s := p.(polls := polls)])
  }

  ghost predicate IsRun(n: nat, run: seq<State>, events: seq<Event>) {
    && |run| == |events| + 1 && run[0] == Initial(n)
    && forall k: nat | k < |events| :: Step(run[k], events[k], run[k + 1])
  }

  // ---------- the invariant ----------

  /** The servers that voted for `c` in term `t`. */
  ghost function Supporters(votes: set<Cast>, t: nat, c: nat): set<nat> {
    set x | x in votes && x.term == t && x.candidate == c :: x.voter
  }

  /** A tally counts the candidate itself and servers that voted for it. */
  ghost predicate PollOk(votes: set<Cast>, s: nat, term: nat, t: nat, poll: Poll) {
    && t <= term && Cast(s, t, s) in votes && s !in poll.heard
    && poll.count <= 1 + |poll.heard * Supporters(votes, t, s)|
  }

  /** The last vote is the newest, and it is on disk. */
  ghost predicate VoteOk(votes: set<Cast>, s: nat, d: Durable) {
    && d.votedTerm <= d.currentTerm
    && (forall x | x in votes && x.voter == s ::
          x.term <= d.votedTerm && (x.term == d.votedTerm ==> x.candidate == d.votedFor))
    && (d.votedTerm > 0 ==> Cast(s, d.votedTerm, d.votedFor) in votes)
  }

  ghost predicate PeerOk(votes: set<Cast>, s: nat, p: Peer) {
    && |p.mem.log| > 0 && |p.disk.log| > 0 && SameVote(p.mem, p.disk)
    && VoteOk(votes, s, p.mem)
    && (forall t | t in p.polls :: PollOk(votes, s, p.mem.currentTerm, t, p.polls[t]))
    && (p.current.Some? ==> p.current.value in p.polls)
  }

  /** Nobody votes for two candidates in one term. */
  ghost predicate VotesUnique(votes: set<Cast>) {
    forall x, y | x in votes && y in votes && x.voter == y.voter && x.term == y.term :: x == y
  }

  ghost predicate BallotOk(votes: set<Cast>, b: Ballot) {
    b.from != b.to && (b.granted ==> Cast(b.from, b.term, b.to) in votes)
  }

  ghost predicate Inv(n: nat, st: State) {
    && |st.peers| == n
    && (forall s: nat | s < n :: PeerOk(st.votes, s, st.peers[s]))
    && (forall x | x in st.votes :: x.voter < n && x.term > 0)
    && VotesUnique(st.votes)
    && (forall b | b in st.replies :: BallotOk(st.votes, b))
    && (forall args | args in st.requests :: args.term > 0)
  }

  /** `votes'` has the same votes as `votes`, and perhaps new ones by server `s`. */
  ghost predicate Adds(votes: set<Cast>, votes': set<Cast>, s: nat) {
    votes <= votes' && forall x | x in votes' && x !in votes :: x.voter == s
  }

  lemma PollKept(votes: set<Cast>, votes': set<Cast>, s: nat, term: nat, term': nat, t: nat, poll: Poll)
    requires PollOk(votes, s, term, t, poll) && votes <= votes' && term <= term'
    ensures PollOk(votes', s, term', t, poll)
  {
    SubsetCard(poll.heard * Supporters(votes, t, s), poll.heard * Supporters(votes', t, s));
  }

  lemma PollsKept(votes: set<Cast>, votes': set<Cast>, s: nat, p: Peer, term': nat)
    requires PeerOk(votes, s, p) && votes <= votes' && p.mem.currentTerm <= term'
    ensures forall t | t in p.polls :: PollOk(votes', s, term', t, p.polls[t])
  {
    forall t | t in p.polls ensures PollOk(votes', s, term', t, p.polls[t]) {
      PollKept(votes, votes', s, p.mem.currentTerm, term', t, p.polls[t]);
    }
  }

  lemma OtherKept(votes: set<Cast>, votes': set<Cast>, s: nat, who: nat, p: Peer)
    requires PeerOk(votes, s, p) && Adds(votes, votes', who) && s != who
    ensures PeerOk(votes', s, p)
  {
    PollsKept(votes, votes', s, p, p.mem.currentTerm);
    forall x | x in votes' && x.voter == s ensures x in votes {}
  }

  /** What a step has to show: only its own server needs a look. */
  lemma Keeps(n: nat, st: State, st': State, s: nat, p: Peer)
    requires Inv(n, st) && s < n && st'.peers == st.peers[s := p] && Adds(st.votes, st'.votes, s)
    requires PeerOk(st'.votes, s, p) && VotesUnique(st'.votes)
    requires forall x | x in st'.votes && x !in st.votes :: x.term > 0
    requires forall b | b in st'.replies && b !in st.replies :: BallotOk(st'.votes, b)
    requires forall args | args in st'.requests && args !in st.requests :: args.term > 0
    ensures Inv(n, st')
  {
    forall k: nat | k < n ensures PeerOk(st'.votes, k, st'.peers[k]) {
      if k != s {
        OtherKept(st.votes, st'.votes, k, s, st.peers[k]);
      }
    }
  }

  /** A vote in a term above the last one. */
  lemma NewVote(votes: set<Cast>, s: nat, d: Durable, d': Durable)
    requires VoteOk(votes, s, d) && VotesUnique(votes) && d.votedTerm < d'.votedTerm <= d'.currentTerm
    ensures var votes' := votes + {Cast(s, d'.votedTerm, d'.votedFor)};
      VotesUnique(votes') && VoteOk(votes', s, d') && Adds(votes, votes', s)
  {
  }

  lemma StartsKeeps(n: nat, st: State, s: nat, st': State)
    requires Inv(n, st) && s < n && Starts(st, s, st')
    ensures Inv(n, st')
  {
    var p, p' := st.peers[s], st'.peers[s];
    NewVote(st.votes, s, p.mem, p'.mem);
    PollsKept(st.votes, st'.votes, s, p, p'.mem.currentTerm);
    assert PollOk(st'.votes, s, p'.mem.currentTerm, p'.mem.currentTerm, Poll(1, {}));
    Keeps(n, st, st', s, p');
  }

  /** A granted request is a vote in a newer term; otherwise only the term may rise. */
  lemma HandleVoteVotes(d: Durable, args: VoteArgs)
    requires |d.log| > 0 && d.votedTerm <= d.currentTerm && args.term > 0
    ensures var (d', granted) := HandleVote(d, args);
      && d'.log == d.log && d.currentTerm <= d'.currentTerm
      && (granted ==> d.votedTerm < d'.votedTerm == d'.currentTerm == args.term && d'.votedFor == args.candidate)
      && (!granted ==> d'.votedTerm == d.votedTerm && d'.votedFor == d.votedFor)
  {
  }

  lemma ReceivesKeeps(n: nat, st: State, s: nat, args: VoteArgs, st': State)
    requires Inv(n, st) && s < n && Receives(st, s, args, st')
    ensures Inv(n, st')
  {
    var p, p' := st.peers[s], st'.peers[s];
    HandleVoteVotes(p.mem, args);
    if HandleVote(p.mem, args).1 {
      NewVote(st.votes, s, p.mem, p'.mem);
    }
    PollsKept(st.votes, st'.votes, s, p, p'.mem.currentTerm);
    Keeps(n, st, st', s, p');
  }

  lemma CountUp(votes: set<Cast>, s: nat, term: nat, t: nat, poll: Poll, from: nat)
    requires PollOk(votes, s, term, t, poll) && from !in poll.heard && from != s && Cast(from, t, s) in votes
    ensures PollOk(votes, s, term, t, Poll(poll.count + 1, poll.heard + {from}))
  {
    var old_ := poll.heard * Supporters(votes, t, s);
    assert from in Supporters(votes, t, s);
    assert (poll.heard + {from}) * Supporters(votes, t, s) == old_ + {from};
  }

  lemma HeardMore(votes: set<Cast>, s: nat, term: nat, t: nat, poll: Poll, from: nat)
    requires PollOk(votes, s, term, t, poll) && from != s
    ensures PollOk(votes, s, term, t, Poll(poll.count, poll.heard + {from}))
  {
    SubsetCard(poll.heard * Supporters(votes, t, s), (poll.heard + {from}) * Supporters(votes, t, s));
  }

  /** Steps that cast no vote and touch no tally. */
  ghost predicate Quiet(p: Peer, p': Peer) {
    && |p'.mem.log| > 0 && |p'.disk.log| > 0 && SameVote(p'.mem, p'.disk)
    && p'.mem.votedTerm == p.mem.votedTerm && p'.mem.votedFor == p.mem.votedFor
    && p.mem.currentTerm <= p'.mem.currentTerm
    && (p'.polls == p.polls || p'.polls == map[])
    && (p'.current == None || (p'.current == p.current && p'.polls == p.polls))
  }

  lemma QuietKeeps(n: nat, st: State, s: nat, p': Peer)
    requires Inv(n, st) && s < n && Quiet(st.peers[s], p')
    ensures Inv(n, st.(peers := st.peers[s := p']))
  {
    PollsKept(st.votes, st.votes, s, st.peers[s], p'.mem.currentTerm);
    Keeps(n, st, st.(peers := st.peers[s := p']), s, p');
  }

  lemma PollChanged(votes: set<Cast>, s: nat, p: Peer, t: nat, poll: Poll)
    requires PeerOk(votes, s, p) && t in p.polls && PollOk(votes, s, p.mem.currentTerm, t, poll)
    ensures PeerOk(votes, s, p.(polls := p.polls[t := poll]))
  {
  }

  lemma CountsKeeps(n: nat, st: State, s: nat, b: Ballot, st': State)
    requires Inv(n, st) && s < n && Counts(st, s, b, st')
    ensures Inv(n, st')
  {
    var p := st.peers[s];
    var poll := AfterReply(p.polls[b.term], b);
    assert BallotOk(st.votes, b);
    if b.granted {
      CountUp(st.votes, s, p.mem.currentTerm, b.term, p.polls[b.term], b.from);
    } else {
      HeardMore(st.votes, s, p.mem.currentTerm, b.term, p.polls[b.term], b.from);
    }
    PollChanged(st.votes, s, p, b.term, poll);
    var counted := st.(peers := st.peers[s := p.(polls := p.polls[b.term := poll])]);
    Keeps(n, st, counted, s, counted.peers[s]);
    if !b.granted && b.replyTerm > p.mem.currentTerm {
      QuietKeeps(n, counted, s, st'.peers[s]);
      assert st'.peers == counted.peers[s := st'.peers[s]];
    }
  }

  lemma QuietStep(st: State, e: Event, st': State)
    requires Step(st, e, st') && PeerOk(st.votes, e.s, st.peers[e.s])
    requires !e.StartElection? && !e.Receive? && !e.Count?
    ensures Quiet(st.peers[e.s], st'.peers[e.s]) && st' == st.(peers := st.peers[e.s := st'.peers[e.s]])
  {
  }

  lemma StepInv(n: nat, st: State, e: Event, st': State)
    requires Inv(n, st) && Step(st, e, st')
    ensures Inv(n, st')
  {
    match e
    case StartElection(s) => StartsKeeps(n, st, s, st');
    case Receive(s, args) => ReceivesKeeps(n, st, s, args, st');
    case Count(s, b) => CountsKeeps(n, st, s, b, st');
    case _ =>
      QuietStep(st, e, st');
      QuietKeeps(n, st, e.s, st'.peers[e.s]);
  }

  lemma {:induction false} RunInv(n: nat, run: seq<State>, events: seq<Event>, k: nat)
    requires IsRun(n, run, events) && k < |run|
    ensures Inv(n, run[k])
  {
    if k > 0 {
      RunInv(n, run, events, k - 1);
      StepInv(n, run[k - 1], events[k - 1], run[k - 1 + 1]);
    }
  }

  lemma StepVotes(st: State, e: Event, st': State)
    requires Step(st, e, st')
    ensures st.votes <= st'.votes
  {
  }

  lemma {:induction false} VotesGrow(n: nat, run: seq<State>, events: seq<Event>, i: nat, j: nat)
    requires IsRun(n, run, events) && i <= j < |run|
    ensures run[i].votes <= run[j].votes
    decreases j
  {
    if i < j {
      VotesGrow(n, run, events, i, j - 1);
      StepVotes(run[j - 1], events[j - 1], run[j - 1 + 1]);
    }
  }

  // ---------- votes ----------

  /** Section 5.4.1 of the Raft paper: logs are compared by the last term, then by length. */
  predicate UpToDate(d: Durable, lastLogTerm: nat, lastLogIndex: int)
    requires |d.log| > 0
  {
    var own := d.log[|d.log| - 1].term;
    lastLogTerm > own || (lastLogTerm == own && lastLogIndex >= LastIndex(d))
  }

  /** A vote is granted exactly to an up-to-date candidate of a term that is not old and in which
      no vote was cast yet. */
  lemma GrantedExactlyWhen(d: Durable, args: VoteArgs)
    requires |d.log| > 0 && d.votedTerm <= d.currentTerm
    ensures HandleVote(d, args).1 <==>
      d.currentTerm <= args.term && d.votedTerm < args.term && UpToDate(d, args.lastLogTerm, args.lastLogIndex)
  {
    assert d.(currentTerm := args.term).log == d.log;
  }

  /** Two votes of one server in one term, seen at any two moments of a run, even across crashes, are the same vote. */
  lemma OneVotePerTerm(n: nat, run: seq<State>, events: seq<Event>, i: nat, j: nat, v: nat)
    requires IsRun(n, run, events) && i <= j < |run| && v < n
    ensures |run[i].peers| == |run[j].peers| == n
    ensures var d, e := run[i].peers[v].mem, run[j].peers[v].mem;
      && d.votedTerm <= d.currentTerm && SameVote(d, run[i].peers[v].disk)
      && (d.votedTerm == e.votedTerm > 0 ==> d.votedFor == e.votedFor)
  {
    RunInv(n, run, events, i);
    RunInv(n, run, events, j);
    VotesGrow(n, run, events, i, j);
    assert PeerOk(run[i].votes, v, run[i].peers[v]) && PeerOk(run[j].votes, v, run[j].peers[v]);
  }

  /** No two granted replies of one server for one term go to different candidates. */
  lemma GrantsAreUnique(n: nat, run: seq<State>, events: seq<Event>, i: nat, j: nat, b: Ballot, c: Ballot)
    requires IsRun(n, run, events) && i < |run| && j < |run|
    requires b in run[i].replies && b.granted && c in run[j].replies && c.granted && b.from == c.from
      && b.term == c.term
    ensures b.to == c.to
  {
    var m := if i <= j then j else i;
    RunInv(n, run, events, i);
    RunInv(n, run, events, j);
    RunInv(n, run, events, m);
    VotesGrow(n, run, events, i, m);
    VotesGrow(n, run, events, j, m);
    assert BallotOk(run[i].votes, b) && BallotOk(run[j].votes, c);
    assert Cast(b.from, b.term, b.to) == Cast(c.from, c.term, c.to);
  }

  /** A server never grants its vote in a term in which it stands itself. */
  lemma CandidatesVoteForThemselves(n: nat, run: seq<State>, events: seq<Event>, i: nat, j: nat, b: Ballot)
    requires IsRun(n, run, events) && i < |run| && j < |run| && b in run[i].replies && b.granted
    requires b.from < |run[j].peers|
    ensures b.term !in run[j].peers[b.from].polls
  {
    var m := if i <= j then j else i;
    RunInv(n, run, events, i);
    RunInv(n, run, events, j);
    RunInv(n, run, events, m);
    VotesGrow(n, run, events, i, m);
    VotesGrow(n, run, events, j, m);
    assert BallotOk(run[i].votes, b) && PeerOk(run[j].votes, b.from, run[j].peers[b.from]);
    assert Cast(b.from, b.term, b.from) !in run[m].votes by {
      assert Cast(b.from, b.term, b.to) in run[m].votes;
    }
  }

  // ---------- terms ----------

  lemma StepTerm(n: nat, st: State, e: Event, st': State, s: nat)
    requires Inv(n, st) && Step(st, e, st') && s < n
    ensures |st'.peers| == n && st.peers[s].mem.currentTerm <= st'.peers[s].mem.currentTerm
  {
    assert PeerOk(st.votes, s, st.peers[s]);
  }

  lemma {:induction false} TermsNeverFall(n: nat, run: seq<State>, events: seq<Event>, j: nat, k: nat, s: nat)
    requires IsRun(n, run, events) && j <= k < |run| && s < n
    ensures |run[j].peers| == |run[k].peers| == n
    ensures run[j].peers[s].mem.currentTerm <= run[k].peers[s].mem.currentTerm
    decreases k
  {
    RunInv(n, run, events, j);
    if j < k {
      TermsNeverFall(n, run, events, j, k - 1, s);
      RunInv(n, run, events, k - 1);
      StepTerm(n, run[k - 1], events[k - 1], run[k - 1 + 1], s);
    }
  }

  /** Whoever receives a vote request, granted or not, is from then on in its term or a later one,
      across crashes, and never again leads an earlier term. */
  lemma RequestBindsForever(n: nat, run: seq<State>, events: seq<Event>, j: nat, k: nat, s: nat, args: VoteArgs)
    requires IsRun(n, run, events) && j < k < |run| && events[j] == Receive(s, args)
    ensures s < n == |run[k].peers| && run[k].peers[s].mem.currentTerm >= args.term
    ensures forall t: nat | t < args.term :: !IsLeader(run[k], s, t)
  {
    RunInv(n, run, events, j);
    assert Step(run[j], events[j], run[j + 1]);
    TermsNeverFall(n, run, events, j + 1, k, s);
  }

  // ---------- winners ----------

  /** A tally never exceeds the number of servers whose vote in that term is for that candidate. */
  lemma TallyBounded(votes: set<Cast>, s: nat, term: nat, t: nat, poll: Poll)
    requires PollOk(votes, s, term, t, poll)
    ensures poll.count <= |Supporters(votes, t, s)|
  {
    var inner := poll.heard * Supporters(votes, t, s);
    assert Cast(s, t, s) in votes && s in Supporters(votes, t, s);
    SubsetCard(inner + {s}, Supporters(votes, t, s));
  }

  lemma MajoritiesMeet(n: nat, votes: set<Cast>, t: nat, a: nat, b: nat)
    requires VotesUnique(votes) && forall x | x in votes :: x.voter < n
    requires |Supporters(votes, t, a)| >= Majority(n) && |Supporters(votes, t, b)| >= Majority(n)
    ensures a == b
  {
    var p, q := Supporters(votes, t, a), Supporters(votes, t, b);
    if p !! q {
      assert |p + q| == |p| + |q|;
      SubsetCard(p + q, Below(n));
    } else {
      var v :| v in p && v in q;
      assert Cast(v, t, a) in votes && Cast(v, t, b) in votes;
      assert Cast(v, t, a) == Cast(v, t, b);
    }
  }

  lemma SupportersGrow(votes: set<Cast>, votes': set<Cast>, t: nat, c: nat)
    requires votes <= votes'
    ensures |Supporters(votes, t, c)| <= |Supporters(votes', t, c)|
  {
    SubsetCard(Supporters(votes, t, c), Supporters(votes', t, c));
  }

  /** Server `s` has reached the threshold in its election of term `t`. */
  ghost predicate Wins(st: State, s: nat, t: nat) {
    s < |st.peers| && t in st.peers[s].polls && st.peers[s].polls[t].count >= Majority(|st.peers|)
  }

  lemma WinnerIsSupported(n: nat, st: State, s: nat, t: nat)
    requires Inv(n, st) && Wins(st, s, t)
    ensures |Supporters(st.votes, t, s)| >= Majority(n)
  {
    assert PeerOk(st.votes, s, st.peers[s]);
    TallyBounded(st.votes, s, st.peers[s].mem.currentTerm, t, st.peers[s].polls[t]);
  }

  lemma SupportedOnce(n: nat, run: seq<State>, events: seq<Event>, i: nat, j: nat, a: nat, b: nat, t: nat)
    requires IsRun(n, run, events) && i < |run| && j < |run|
    requires |Supporters(run[i].votes, t, a)| >= Majority(n) && |Supporters(run[j].votes, t, b)| >= Majority(n)
    ensures a == b
  {
    var m := if i <= j then j else i;
    RunInv(n, run, events, m);
    VotesGrow(n, run, events, i, m);
    VotesGrow(n, run, events, j, m);
    SupportersGrow(run[i].votes, run[m].votes, t, a);
    SupportersGrow(run[j].votes, run[m].votes, t, b);
    MajoritiesMeet(n, run[m].votes, t, a, b);
  }

  /** In any run of any cluster, two tallies of one term that reach the threshold, at whatever
      moments, belong to one candidate. */
  lemma OneWinnerPerTerm(n: nat, run: seq<State>, events: seq<Event>, i: nat, j: nat, a: nat, b: nat, t: nat)
    requires IsRun(n, run, events) && i < |run| && j < |run| && Wins(run[i], a, t) && Wins(run[j], b, t)
    ensures a == b
  {
    RunInv(n, run, events, i);
    RunInv(n, run, events, j);
    WinnerIsSupported(n, run[i], a, t);
    WinnerIsSupported(n, run[j], b, t);
    SupportedOnce(n, run, events, i, j, a, b, t);
  }

  // ---------- leaders ----------

  ghost predicate IsLeader(st: State, s: nat, t: nat) {
    s < |st.peers| && st.peers[s].status == Leader && st.peers[s].mem.currentTerm == t
  }

  /** What GetState can show: a term never has two leaders. */
  ghost predicate OneLeaderPerTerm(run: seq<State>) {
    forall i: nat, j: nat, a: nat, b: nat, t: nat |
      i < |run| && j < |run| && IsLeader(run[i], a, t) && IsLeader(run[j], b, t) :: a == b
  }

  /** Winners are promoted while they are still in the term of their election, which the source does not check. */
  ghost predicate PromotesInTerm(run: seq<State>, events: seq<Event>) {
    forall k: nat, s: nat | k < |events| && k < |run| && events[k] == Promote(s) && s < |run[k].peers| ::
      run[k].peers[s].current == Some(run[k].peers[s].mem.currentTerm)
  }

  ghost predicate LeadersElected(n: nat, st: State) {
    forall s: nat | s < |st.peers| && st.peers[s].status == Leader ::
      |Supporters(st.votes, st.peers[s].mem.currentTerm, s)| >= Majority(n)
  }

  /** A server that is a leader after a step was one before, in the same term, or is promoted by the step. */
  lemma LeadersComeFrom(st: State, e: Event, st': State, s: nat)
    requires Step(st, e, st') && s < |st'.peers| && st'.peers[s].status == Leader
    ensures s < |st.peers| && st'.peers[s].mem.currentTerm == st.peers[s].mem.currentTerm
    ensures st.peers[s].status == Leader || e == Promote(s)
  {
    if e.s == s && e.Receive? {
      var p := st.peers[s];
      assert HandleVote(p.mem, e.args).0 == p.mem;
    }
  }

  lemma LeadersStayElected(n: nat, st: State, e: Event, st': State)
    requires Inv(n, st) && Step(st, e, st') && LeadersElected(n, st)
    requires e.Promote? ==> st.peers[e.s].current == Some(st.peers[e.s].mem.currentTerm)
    ensures LeadersElected(n, st')
  {
    StepVotes(st, e, st');
    forall s: nat | s < |st'.peers| && st'.peers[s].status == Leader
      ensures |Supporters(st'.votes, st'.peers[s].mem.currentTerm, s)| >= Majority(n)
    {
      LeadersComeFrom(st, e, st', s);
      var t := st.peers[s].mem.currentTerm;
      if e == Promote(s) {
        WinnerIsSupported(n, st, s, t);
      }
      SupportersGrow(st.votes, st'.votes, t, s);
    }
  }

  lemma {:induction false} LeadersElectedInRun(n: nat, run: seq<State>, events: seq<Event>, k: nat)
    requires IsRun(n, run, events) && PromotesInTerm(run, events) && k < |run|
    ensures LeadersElected(n, run[k])
  {
    if k > 0 {
      LeadersElectedInRun(n, run, events, k - 1);
      RunInv(n, run, events, k - 1);
      var e := events[k - 1];
      assert Step(run[k - 1], e, run[k - 1 + 1]);
      if e.Promote? {
        assert events[k - 1] == Promote(e.s);
      }
      LeadersStayElected(n, run[k - 1], e, run[k]);
    }
  }

  /** Votes are only for servers that stood in that term, and an election loop waits in the last
      term its server stood in. */
  ghost predicate Stood(st: State) {
    && (forall x | x in st.votes :: Cast(x.candidate, x.term, x.candidate) in st.votes)
    && (forall args | args in st.requests :: Cast(args.candidate, args.term, args.candidate) in st.votes)
    && (forall s: nat | s < |st.peers| :: WaitsInLast(st.votes, s, st.peers[s].current))
  }

  ghost predicate WaitsInLast(votes: set<Cast>, s: nat, current: Option<nat>) {
    current.Some? ==> forall t: nat | Cast(s, t, s) in votes :: t <= current.value
  }

  lemma StartsStood(n: nat, st: State, s: nat, st': State)
    requires Inv(n, st) && Stood(st) && s < n && Starts(st, s, st')
    ensures Stood(st')
  {
    assert PeerOk(st.votes, s, st.peers[s]);
    forall k: nat | k < |st'.peers| ensures WaitsInLast(st'.votes, k, st'.peers[k].current) {
      assert WaitsInLast(st.votes, k, st.peers[k].current);
    }
  }

  lemma ReceivesStood(n: nat, st: State, s: nat, args: VoteArgs, st': State)
    requires Inv(n, st) && Stood(st) && s < n && Receives(st, s, args, st')
    ensures Stood(st')
  {
    forall k: nat | k < |st'.peers| ensures WaitsInLast(st'.votes, k, st'.peers[k].current) {
      assert WaitsInLast(st.votes, k, st.peers[k].current);
    }
  }

  lemma StepStood(n: nat, st: State, e: Event, st': State)
    requires Inv(n, st) && Stood(st) && Step(st, e, st')
    ensures Stood(st')
  {
    match e
    case StartElection(s) => StartsStood(n, st, s, st');
    case Receive(s, args) => ReceivesStood(n, st, s, args, st');
    case _ =>
      OtherCurrent(st, e, st');
      OtherStood(st, st');
  }

  /** The other steps cast no vote, send no request and enter no election. */
  ghost predicate NoNewElection(st: State, st': State) {
    && st'.votes == st.votes && st'.requests == st.requests && |st'.peers| == |st.peers|
    && forall k: nat | k < |st.peers| :: st'.peers[k].current == None || st'.peers[k].current == st.peers[k].current
  }

  lemma OtherCurrent(st: State, e: Event, st': State)
    requires Step(st, e, st') && !e.StartElection? && !e.Receive?
    ensures NoNewElection(st, st')
  {
  }

  lemma OtherStood(st: State, st': State)
    requires Stood(st) && NoNewElection(st, st')
    ensures Stood(st')
  {
    forall k: nat | k < |st'.peers| ensures WaitsInLast(st'.votes, k, st'.peers[k].current) {
      assert WaitsInLast(st.votes, k, st.peers[k].current);
    }
  }

  lemma {:induction false} RunStood(n: nat, run: seq<State>, events: seq<Event>, k: nat)
    requires IsRun(n, run, events) && k < |run|
    ensures Stood(run[k])
  {
    if k > 0 {
      RunStood(n, run, events, k - 1);
      RunInv(n, run, events, k - 1);
      StepStood(n, run[k - 1], events[k - 1], run[k - 1 + 1]);
    }
  }

  /** A promoted server has a majority in the term it is going to lead if and only if that is the
      term of its election. */
  lemma PromotedWithMajorityExactlyWhen(n: nat, run: seq<State>, events: seq<Event>, k: nat, s: nat)
    requires IsRun(n, run, events) && k < |events| && events[k] == Promote(s)
    ensures s < |run[k].peers|
    ensures var p := run[k].peers[s];
      |Supporters(run[k].votes, p.mem.currentTerm, s)| >= Majority(n) <==> p.current == Some(p.mem.currentTerm)
  {
    var st := run[k];
    RunInv(n, run, events, k);
    RunStood(n, run, events, k);
    assert Step(run[k], events[k], run[k + 1]);
    var p := st.peers[s];
    assert PeerOk(st.votes, s, p) && WaitsInLast(st.votes, s, p.current);
    WinnerIsSupported(n, st, s, p.current.value);
    var supporters := Supporters(st.votes, p.mem.currentTerm, s);
    if supporters != {} {
      var v :| v in supporters;
      assert Cast(v, p.mem.currentTerm, s) in st.votes;
    }
  }

  /** If every promotion happens in the term of the election, no term ever has two leaders. */
  lemma UniqueLeaders(n: nat, run: seq<State>, events: seq<Event>)
    requires IsRun(n, run, events) && PromotesInTerm(run, events)
    ensures OneLeaderPerTerm(run)
  {
    forall i: nat, j: nat, a: nat, b: nat, t: nat |
      i < |run| && j < |run| && IsLeader(run[i], a, t) && IsLeader(run[j], b, t)
      ensures a == b
    {
      LeadersElectedInRun(n, run, events, i);
      LeadersElectedInRun(n, run, events, j);
      SupportedOnce(n, run, events, i, j, a, b, t);
    }
  }
}
