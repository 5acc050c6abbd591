// A cluster of Raft nodes as a step relation. Requests, once sent, may be
// delivered any number of times, at any later time, or never. A vote reply is
// the answer to a call of the candidate's current round and is handled at most
// once per peer (crates/raft/src/cluster.rs runs the calls of a round one after
// the other); an append reply goes to the caller of its own request, at any
// later time and any number of times.
module RaftCluster {
  import opened RaftLog
  import opened RaftNode

  datatype Round = Round(req: VoteReq, pending: set<NodeId>)
  datatype VoteReply = VoteReply(voter: NodeId, req: VoteReq, resp: VoteResp)
  datatype AppendReply = AppendReply(follower: NodeId, req: AppendReq, resp: AppendResp)

  datatype Net = Net(
    voteReqs: set<VoteReq>,
    rounds: map<NodeId, Round>,
    voteReplies: set<VoteReply>,
    appendReqs: set<(NodeId, AppendReq)>,
    appendReplies: set<AppendReply>)

  // What happened so far. The protocol never reads it.
  datatype Ballot = Ballot(candidate: NodeId, voterLog: Entries)
  datatype Elected = Elected(leader: NodeId, voters: set<NodeId>, log: Entries)
  datatype History = History(
    supporters: map<NodeId, set<NodeId>>,       // whose votes a candidate counted
    ballots: map<(nat, NodeId), Ballot>,        // (term, voter): first vote granted
    candLogs: map<(nat, NodeId), Entries>,      // (term, candidate): log at its election start
    elected: map<nat, Elected>,                 // term: the leader that won it
    leaderLogs: map<nat, Entries>,              // term: that leader's log, longest so far
    acked: map<(nat, NodeId), nat>)             // (term, node): prefix held in common with the leader

  datatype State = State(nodes: map<NodeId, NodeState>, net: Net, hist: History)

  datatype Action =
    | StartElection(n: NodeId)
    | DeliverVote(n: NodeId, voteReq: VoteReq)
    | HandleVote(n: NodeId, voter: NodeId, voteResp: VoteResp)
    | Propose(n: NodeId, data: seq<Byte>)
    | Heartbeat(n: NodeId)
    | DeliverAppend(n: NodeId, req: AppendReq)
    | HandleAppend(n: NodeId, follower: NodeId, req: AppendReq, resp: AppendResp)
    | SoloCommit(n: NodeId)

  function Init(ids: set<NodeId>): State {
    State(map n | n in ids :: Fresh(n, ids - {n}),
          Net({}, map[], {}, {}, {}),
          History(map[], map[], map[], map[], map[], map[]))
  }

  ghost predicate Enabled(s: State, a: Action) {
    && a.n in s.nodes
    && match a
       case DeliverVote(n, req) => req in s.net.voteReqs && req.candidate != n
       case HandleVote(n, voter, resp) =>
         && n in s.net.rounds && voter in s.net.rounds[n].pending
         && VoteReply(voter, s.net.rounds[n].req, resp) in s.net.voteReplies
       case DeliverAppend(n, req) => (n, req) in s.net.appendReqs
       case HandleAppend(n, follower, req, resp) =>
         req.leader == n && AppendReply(follower, req, resp) in s.net.appendReplies
       case _ => true
  }

  // Every action runs one handler of one node.
  function After(x: NodeState, a: Action): NodeState {
    match a
    case StartElection(_) => x.StartElection()
    case DeliverVote(_, req) => x.HandleRequestVote(req).0
    case HandleVote(_, _, resp) => x.HandleVoteResponse(resp).0
    case Propose(_, data) => x.Propose(data).0
    case Heartbeat(_) => x
    case DeliverAppend(_, req) => x.HandleAppendEntries(req).0
    case HandleAppend(_, follower, _, resp) => x.HandleAppendResponse(follower, resp)
    case SoloCommit(_) => x.AdvanceCommitIfSolo()
  }

  function NextNet(net: Net, x: NodeState, a: Action): Net {
    match a
    case StartElection(n) =>
      var y := x.StartElection();
      if y.role == Leader then net.(rounds := net.rounds - {n})
      else
        var req := VoteReq(y.term, n, LastIndex(y.log), LastTerm(y.log));
        net.(voteReqs := net.voteReqs + {req}, rounds := net.rounds[n := Round(req, x.peers)])
    case DeliverVote(n, req) =>
      net.(voteReplies := net.voteReplies + {VoteReply(n, req, x.HandleRequestVote(req).1)})
    case HandleVote(n, voter, _) =>
      if n !in net.rounds then net
      else net.(rounds := net.rounds[n := net.rounds[n].(pending := net.rounds[n].pending - {voter})])
    case Heartbeat(n) =>
      var out := x.Heartbeat();
      net.(appendReqs := net.appendReqs + set p | p in out :: (p, out[p]))
    case DeliverAppend(n, req) =>
      net.(appendReplies := net.appendReplies + {AppendReply(n, req, x.HandleAppendEntries(req).1)})
    case _ => net
  }

  function Elect(h: History, y: NodeState, voters: set<NodeId>): History {
    h.(elected := h.elected[y.term := Elected(y.id, voters, y.log)],
       leaderLogs := h.leaderLogs[y.term := y.log])
  }

  function Ack(h: History, term: nat, n: NodeId, index: nat): History {
    var known := if (term, n) in h.acked then h.acked[(term, n)] else 0;
    h.(acked := h.acked[(term, n) := Max(known, index)])
  }

  // A candidate stands: it votes for itself; alone in its cluster, it wins.
  function Stood(h: History, x: NodeState): History {
    h.(ballots := h.ballots[(x.term + 1, x.id) := Ballot(x.id, x.log)],
       candLogs := h.candLogs[(x.term + 1, x.id) := x.log],
       supporters := h.supporters[x.id := {x.id}])
  }

  function HistStart(h: History, x: NodeState): History {
    var y := x.StartElection();
    if y.role == Leader then Elect(Stood(h, x), y, {x.id}) else Stood(h, x)
  }

  function HistGrant(h: History, x: NodeState, req: VoteReq): History {
    var (y, resp) := x.HandleRequestVote(req);
    if resp.granted && (y.term, x.id) !in h.ballots
    then h.(ballots := h.ballots[(y.term, x.id) := Ballot(req.candidate, x.log)])
    else h
  }

  function HistCount(h: History, x: NodeState, voter: NodeId, resp: VoteResp): History {
    if resp.term > x.term || x.role != Candidate || !resp.granted || x.id !in h.supporters then h
    else
      var y := x.HandleVoteResponse(resp).0;
      var voters := h.supporters[x.id] + {voter};
      var h1 := h.(supporters := h.supporters[x.id := voters]);
      if y.role == Leader then Elect(h1, y, voters) else h1
  }

  function HistPropose(h: History, x: NodeState, data: seq<Byte>): History {
    if x.role == Leader then h.(leaderLogs := h.leaderLogs[x.term := x.Propose(data).0.log]) else h
  }

  // Up to index `m` the two logs are the same.
  predicate Shared(a: Entries, b: Entries, m: nat) {
    m < |a| && m < |b| && a[..m + 1] == b[..m + 1]
  }

  // How far a follower with log `log` shares the leader's log after a success that
  // reports `m`: as far as reported, if that is true, else as far as was sent.
  function SharedIndex(h: History, req: AppendReq, log: Entries, m: nat): nat {
    if req.term in h.leaderLogs && Shared(log, h.leaderLogs[req.term], m) then m else req.prevIndex + |req.entries|
  }

  function HistAccept(h: History, x: NodeState, req: AppendReq): History {
    var (y, resp) := x.HandleAppendEntries(req);
    if resp.success then Ack(h, req.term, x.id, SharedIndex(h, req, y.log, resp.matchIndex)) else h
  }

  function HistCommit(h: History, x: NodeState, y: NodeState): History {
    if y.commit > x.commit then Ack(h, x.term, x.id, y.commit) else h
  }

  function NextHist(h: History, x: NodeState, a: Action): History {
    match a
    case StartElection(_) => HistStart(h, x)
    case DeliverVote(_, req) => HistGrant(h, x, req)
    case HandleVote(_, voter, resp) => HistCount(h, x, voter, resp)
    case Propose(_, data) => HistPropose(h, x, data)
    case Heartbeat(_) => h
    case DeliverAppend(_, req) => HistAccept(h, x, req)
    case HandleAppend(_, _, _, _) => HistCommit(h, x, After(x, a))
    case SoloCommit(_) => HistCommit(h, x, After(x, a))
  }

  function Next(s: State, a: Action): State
    requires a.n in s.nodes
  {
    var x := s.nodes[a.n];
    State(s.nodes[a.n := After(x, a)], NextNet(s.net, x, a), NextHist(s.hist, x, a))
  }

  // A run from the initial state of cluster `ids`: `run[k+1]` follows `run[k]`.
  ghost predicate IsRun(ids: set<NodeId>, run: seq<State>, actions: seq<Action>) {
    && |run| == |actions| + 1
    && run[0] == Init(ids)
    && forall k | 0 <= k < |actions| :: Follows(run[k], actions[k], run[k + 1])
  }

  ghost predicate Follows(s: State, a: Action, s': State) {
    Enabled(s, a) && s' == Next(s, a)
  }

  lemma Extend(ids: set<NodeId>, run: seq<State>, actions: seq<Action>, a: Action)
    returns (run': seq<State>, actions': seq<Action>)
    requires IsRun(ids, run, actions) && Enabled(run[|run| - 1], a)
    ensures IsRun(ids, run', actions') && run'[|run'| - 1] == Next(run[|run| - 1], a)
    ensures run <= run' && actions <= actions'
  {
    run', actions' := run + [Next(run[|run| - 1], a)], actions + [a];
    forall k | 0 <= k < |actions'| ensures Follows(run'[k], actions'[k], run'[k + 1]) {
      if k < |actions| {
        assert Follows(run[k], actions[k], run[k + 1]);
      }
    }
  }

  // ---- Invariants of every run ----

  // The quantifiers below range over named facts, so that a proof names the
  // instance it uses.

  predicate Voted(h: History, t: nat, v: NodeId, c: NodeId) {
    (t, v) in h.ballots && h.ballots[(t, v)].candidate == c
  }

  predicate AllVoted(h: History, t: nat, voters: set<NodeId>, c: NodeId) {
    forall w | w in voters :: Voted(h, t, w, c)
  }

  // Positions are indexes, and terms of real entries are between 1 and `t`.
  predicate WellFormedLog(log: Entries, t: nat) {
    && |log| > 0 && log[0] == SENTINEL
    && forall i | 1 <= i < |log| :: EntryOk(log, t, i)
  }

  predicate EntryOk(log: Entries, t: nat, i: nat)
    requires i < |log|
  {
    log[i].index == i && 1 <= log[i].term <= t
  }

  // All real entries are of terms below `t`.
  predicate Below(log: Entries, t: nat) {
    forall i | 1 <= i < |log| :: EntryBelow(log, t, i)
  }

  predicate EntryBelow(log: Entries, t: nat, i: nat)
    requires i < |log|
  {
    log[i].term < t
  }

  // Up to any entry, the log is what that entry's leader had.
  predicate Backed(h: History, log: Entries) {
    forall i | 1 <= i < |log| :: BackedAt(h, log, i)
  }

  predicate BackedAt(h: History, log: Entries, i: nat)
    requires i < |log|
  {
    log[i].term in h.leaderLogs && log[..i + 1] <= h.leaderLogs[log[i].term]
  }

  // From position `k` on, all entries are of term `t`.
  predicate Since(log: Entries, k: nat, t: nat) {
    forall i | k <= i < |log| :: EntrySince(log, i, t)
  }

  predicate EntrySince(log: Entries, i: nat, t: nat)
    requires i < |log|
  {
    log[i].term == t
  }

  predicate ElectionOk(ids: set<NodeId>, h: History, t: nat) {
    t in h.elected ==>
      var e := h.elected[t];
      && 1 <= t && e.leader in ids && e.voters <= ids && |e.voters| >= |ids| / 2 + 1
      && AllVoted(h, t, e.voters, e.leader)
      && t in h.leaderLogs && e.log <= h.leaderLogs[t] && |e.log| > 0
      && WellFormedLog(h.leaderLogs[t], t) && Backed(h, h.leaderLogs[t])
      && Below(e.log, t) && Since(h.leaderLogs[t], |e.log|, t)
  }

  ghost predicate HistOk(ids: set<NodeId>, h: History) {
    && h.elected.Keys == h.leaderLogs.Keys
    && forall t :: ElectionOk(ids, h, t)
  }

  // A request of term `t` carries a slice of that leader's log, or an
  // out-of-range predecessor with term 0.
  predicate ReqOk(h: History, req: AppendReq) {
    && req.term in h.leaderLogs
    && (InRange(h.leaderLogs[req.term], req) || OutOfRange(req))
  }

  predicate InRange(full: Entries, req: AppendReq) {
    && req.prevIndex + |req.entries| < |full|
    && req.prevTerm == full[req.prevIndex].term
    && req.entries == full[req.prevIndex + 1..req.prevIndex + 1 + |req.entries|]
  }

  predicate OutOfRange(req: AppendReq) {
    req.prevIndex > 0 && req.prevTerm == 0 && req.entries == []
  }

  predicate VoteReplyOk(ids: set<NodeId>, h: History, m: VoteReply) {
    m.voter in ids && (m.resp.granted ==> Voted(h, m.req.term, m.voter, m.req.candidate))
  }

  predicate RoundOk(ids: set<NodeId>, net: Net, n: NodeId) {
    n in net.rounds ==> net.rounds[n].req.candidate == n && net.rounds[n].pending <= ids - {n}
  }

  ghost predicate NetOk(ids: set<NodeId>, h: History, net: Net) {
    && (forall n :: RoundOk(ids, net, n))
    && (forall m {:trigger VoteReplyOk(ids, h, m)} | m in net.voteReplies :: VoteReplyOk(ids, h, m))
    && (forall m: (NodeId, AppendReq) {:trigger ReqOk(h, m.1)} | m in net.appendReqs :: ReqOk(h, m.1))
    && (forall m: AppendReply {:trigger ReqOk(h, m.req)} | m in net.appendReplies :: ReqOk(h, m.req))
  }

  predicate NextAtLeastOne(x: NodeState, p: NodeId) {
    p in x.nextIndex ==> x.nextIndex[p] >= 1
  }

  ghost predicate NodeShape(ids: set<NodeId>, n: NodeId, x: NodeState) {
    && n in ids && x.id == n && x.peers == ids - {n}
    && x.nextIndex.Keys == x.peers && x.matchIndex.Keys == x.peers
    && (forall p :: NextAtLeastOne(x, p))
    && WellFormedLog(x.log, x.term)
  }

  predicate CandidateOk(ids: set<NodeId>, h: History, net: Net, n: NodeId, x: NodeState) {
    && x.term >= 1 && n in net.rounds && n in h.supporters
    && net.rounds[n].req.term == x.term
    && n in h.supporters[n] && h.supporters[n] <= ids
    && |h.supporters[n]| == x.votes && h.supporters[n] !! net.rounds[n].pending
    && AllVoted(h, x.term, h.supporters[n], n)
    && Below(x.log, x.term)
    && (x.term, n) in h.candLogs && h.candLogs[(x.term, n)] == x.log
  }

  predicate LeaderOk(h: History, n: NodeId, x: NodeState) {
    && x.term in h.elected && h.elected[x.term].leader == n
    && x.term in h.leaderLogs && h.leaderLogs[x.term] == x.log
  }

  // What the history says of node `n` in term `t`.
  predicate PastOk(h: History, n: NodeId, x: NodeState, t: nat) {
    && ((t, n) in h.ballots ==>
          t <= x.term && (t == x.term ==> x.votedFor == Some(h.ballots[(t, n)].candidate)))
    && ((t, n) in h.candLogs ==> t <= x.term)
    && (t in h.elected && h.elected[t].leader == n ==>
          t <= x.term && (t == x.term ==> x.role != Candidate))
  }

  ghost predicate NodeOk(ids: set<NodeId>, h: History, net: Net, n: NodeId, x: NodeState) {
    && NodeShape(ids, n, x)
    && Backed(h, x.log)
    && (forall t :: PastOk(h, n, x, t))
    && (x.role == Candidate ==> CandidateOk(ids, h, net, n, x))
    && (x.role == Leader ==> LeaderOk(h, n, x))
  }

  ghost predicate Inv(ids: set<NodeId>, s: State) {
    && s.nodes.Keys == ids
    && HistOk(ids, s.hist)
    && NetOk(ids, s.hist, s.net)
    && forall n {:trigger NodeOk(ids, s.hist, s.net, n, s.nodes[n])} | n in ids ::
         NodeOk(ids, s.hist, s.net, n, s.nodes[n])
  }

  // ---- History only grows ----

  predicate GrowsTerm(h: History, h': History, t: nat) {
    && (t in h.elected ==> t in h'.elected && h'.elected[t] == h.elected[t])
    && (t in h.leaderLogs ==> t in h'.leaderLogs && h.leaderLogs[t] <= h'.leaderLogs[t])
  }

  predicate GrowsKey(h: History, h': History, t: nat, n: NodeId) {
    && ((t, n) in h.ballots ==> (t, n) in h'.ballots && h'.ballots[(t, n)] == h.ballots[(t, n)])
    && ((t, n) in h.candLogs ==> (t, n) in h'.candLogs && h'.candLogs[(t, n)] == h.candLogs[(t, n)])
    && ((t, n) in h.acked ==> (t, n) in h'.acked && h.acked[(t, n)] <= h'.acked[(t, n)])
  }

  ghost predicate Grows(h: History, h': History) {
    && (forall t :: GrowsTerm(h, h', t))
    && (forall t, n :: GrowsKey(h, h', t, n))
  }

  lemma GrowsTransitive(a: History, b: History, c: History)
    requires Grows(a, b) && Grows(b, c)
    ensures Grows(a, c)
  {
    forall t ensures GrowsTerm(a, c, t) {
      assert GrowsTerm(a, b, t) && GrowsTerm(b, c, t);
    }
    forall t, n ensures GrowsKey(a, c, t, n) {
      assert GrowsKey(a, b, t, n) && GrowsKey(b, c, t, n);
    }
  }

  lemma BackedGrows(h: History, h': History, log: Entries)
    requires Backed(h, log) && Grows(h, h')
    ensures Backed(h', log)
  {
    forall i | 1 <= i < |log| ensures BackedAt(h', log, i) {
      assert BackedAt(h, log, i) && GrowsTerm(h, h', log[i].term);
    }
  }

  lemma VotedGrows(h: History, h': History, t: nat, voters: set<NodeId>, c: NodeId)
    requires AllVoted(h, t, voters, c) && Grows(h, h')
    ensures AllVoted(h', t, voters, c)
  {
    forall w | w in voters ensures Voted(h', t, w, c) {
      assert Voted(h, t, w, c) && GrowsKey(h, h', t, w);
    }
  }

  lemma PrefixOk(h: History, log: Entries, t: nat, k: nat)
    requires Backed(h, log) && WellFormedLog(log, t) && 1 <= k <= |log|
    ensures Backed(h, log[..k]) && WellFormedLog(log[..k], t)
  {
    forall i | 1 <= i < k ensures BackedAt(h, log[..k], i) && EntryOk(log[..k], t, i) {
      assert BackedAt(h, log, i) && EntryOk(log, t, i);
      assert log[..k][..i + 1] == log[..i + 1];
    }
  }

  // Log matching on two backed logs.
  lemma Matching(h: History, a: Entries, b: Entries, ta: nat, tb: nat, i: nat)
    requires Backed(h, a) && Backed(h, b) && WellFormedLog(a, ta) && WellFormedLog(b, tb)
    requires i < |a| && i < |b| && a[i].term == b[i].term
    ensures a[..i + 1] == b[..i + 1]
  {
    if i > 0 {
      assert BackedAt(h, a, i) && BackedAt(h, b, i);
    }
  }

  // ---- Merging a slice of a leader's log ----

  lemma MergeLeaderEntry(h: History, log: Entries, full: Entries, t: nat, t': nat, j: nat)
    requires Backed(h, log) && Backed(h, full) && WellFormedLog(log, t) && WellFormedLog(full, t')
    requires 1 <= j < |full| && full[..j] <= log
    ensures Merged(log, full[j]) == if full[..j + 1] <= log then log else full[..j + 1]
  {
    assert EntryOk(full, t', j);
    if j < |log| && log[j].term == full[j].term {
      Matching(h, log, full, t, t', j);
    } else {
      assert Truncated(log, j - 1) == full[..j];
    }
  }

  lemma SliceStep(full: Entries, j: nat, m: nat)
    requires j < m <= |full|
    ensures full[j..m] != [] && full[j..m][0] == full[j] && full[j..m][1..] == full[j + 1..m]
    ensures full[..j + 1] == full[..m][..j + 1]
  {
  }

  lemma {:induction false} MergeLeaderSlice(h: History, log: Entries, full: Entries, t: nat, t': nat, j: nat, m: nat)
    requires Backed(h, log) && Backed(h, full) && WellFormedLog(log, t) && WellFormedLog(full, t')
    requires 1 <= j <= m <= |full| && full[..j] <= log
    ensures MergedAll(log, full[j..m]) == if full[..m] <= log then log else full[..m]
    decreases m - j
  {
    if j == m {
      assert full[j..m] == [];
    } else {
      MergeLeaderEntry(h, log, full, t, t', j);
      SliceStep(full, j, m);
      if full[..j + 1] <= log {
        MergeLeaderSlice(h, log, full, t, t', j + 1, m);
      } else {
        PrefixOk(h, full, t', j + 1);
        MergeLeaderSlice(h, full[..j + 1], full, t', t', j + 1, m);
        assert full[..m] <= full[..j + 1] ==> full[..m] == full[..j + 1];
      }
    }
  }
}
