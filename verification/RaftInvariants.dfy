// The invariants of RaftCluster hold in every run, whatever the network does.
// From them: election safety and log matching.
module RaftInvariants {
  import opened RaftLog
  import opened RaftNode
  import opened RaftCluster

  // ---- Quorums ----

  lemma SubsetSize<T>(a: set<T>, b: set<T>)
    requires a <= b
    ensures |a| <= |b|
  {
    assert b == a + (b - a);
  }

  lemma QuorumsMeet(ids: set<NodeId>, a: set<NodeId>, b: set<NodeId>) returns (w: NodeId)
    requires a <= ids && b <= ids && |a| >= |ids| / 2 + 1 && |b| >= |ids| / 2 + 1
    ensures w in a && w in b
  {
    SubsetSize(a + b, ids);
    assert |a * b| == |a| + |b| - |a + b|;
    assert a * b != {};
    w :| w in a * b;
  }

  lemma QuorumIsMajority(ids: set<NodeId>, n: NodeId, x: NodeState)
    requires NodeShape(ids, n, x)
    ensures x.Quorum() == |ids| / 2 + 1
  {
    assert ids == x.peers + {n};
  }

  // ---- Parts of the invariant that survive a growing history ----

  lemma WellFormedLater(log: Entries, t: nat, t': nat)
    requires WellFormedLog(log, t) && t < t'
    ensures WellFormedLog(log, t') && Below(log, t')
  {
    forall i | 1 <= i < |log| ensures EntryOk(log, t', i) && EntryBelow(log, t', i) {
      assert EntryOk(log, t, i);
    }
  }

  lemma ElectionGrows(ids: set<NodeId>, h: History, h': History, t: nat)
    requires t in h.elected && t in h.leaderLogs && ElectionOk(ids, h, t) && Grows(h, h')
    requires t in h'.leaderLogs && h'.leaderLogs[t] == h.leaderLogs[t]
    ensures ElectionOk(ids, h', t)
  {
    assert GrowsTerm(h, h', t);
    BackedGrows(h, h', h.leaderLogs[t]);
    VotedGrows(h, h', t, h.elected[t].voters, h.elected[t].leader);
  }

  lemma HistFrame(ids: set<NodeId>, h: History, h': History)
    requires HistOk(ids, h) && Grows(h, h')
    requires h'.elected == h.elected && h'.leaderLogs == h.leaderLogs
    ensures HistOk(ids, h')
  {
    forall t ensures ElectionOk(ids, h', t) {
      assert ElectionOk(ids, h, t);
      if t in h.elected {
        ElectionGrows(ids, h, h', t);
      }
    }
  }

  lemma ReqGrows(h: History, h': History, req: AppendReq)
    requires ReqOk(h, req) && Grows(h, h')
    ensures ReqOk(h', req)
    ensures InRange(h.leaderLogs[req.term], req) ==> InRange(h'.leaderLogs[req.term], req)
  {
    assert GrowsTerm(h, h', req.term);
    var full, full' := h.leaderLogs[req.term], h'.leaderLogs[req.term];
    if InRange(full, req) {
      var lo, hi := req.prevIndex + 1, req.prevIndex + 1 + |req.entries|;
      assert full == full'[..|full|];
      assert full'[lo..hi] == full[lo..hi];
    }
  }

  lemma NetGrows(ids: set<NodeId>, h: History, h': History, net: Net)
    requires NetOk(ids, h, net) && Grows(h, h')
    ensures NetOk(ids, h', net)
  {
    forall m | m in net.voteReplies ensures VoteReplyOk(ids, h', m) {
      assert VoteReplyOk(ids, h, m) && GrowsKey(h, h', m.req.term, m.voter);
    }
    forall m: (NodeId, AppendReq) | m in net.appendReqs ensures ReqOk(h', m.1) {
      assert ReqOk(h, m.1);
      ReqGrows(h, h', m.1);
    }
    forall m: AppendReply | m in net.appendReplies ensures ReqOk(h', m.req) {
      assert ReqOk(h, m.req);
      ReqGrows(h, h', m.req);
    }
  }

  // What a step of another node may add to the history about `n` in term `t`: nothing.
  predicate SamePast(h: History, h': History, n: NodeId, t: nat) {
    && ((t, n) in h'.ballots ==> (t, n) in h.ballots)
    && ((t, n) in h'.candLogs ==> (t, n) in h.candLogs)
    && (t in h'.elected && h'.elected[t].leader == n ==> t in h.elected)
  }

  ghost predicate Bystander(h: History, h': History, net: Net, net': Net, n: NodeId, x: NodeState) {
    && (forall t :: SamePast(h, h', n, t))
    && (n in net.rounds ==> n in net'.rounds && net'.rounds[n] == net.rounds[n])
    && (n in h.supporters ==> n in h'.supporters && h'.supporters[n] == h.supporters[n])
    && (x.role == Leader && x.term in h.leaderLogs && x.term in h'.leaderLogs ==>
          h'.leaderLogs[x.term] == h.leaderLogs[x.term])
  }

  lemma BystanderOk(ids: set<NodeId>, h: History, h': History, net: Net, net': Net, n: NodeId, x: NodeState)
    requires NodeOk(ids, h, net, n, x) && Grows(h, h') && Bystander(h, h', net, net', n, x)
    ensures NodeOk(ids, h', net', n, x)
  {
    BackedGrows(h, h', x.log);
    forall t ensures PastOk(h', n, x, t) {
      assert PastOk(h, n, x, t) && SamePast(h, h', n, t) && GrowsKey(h, h', t, n) && GrowsTerm(h, h', t);
    }
    assert GrowsTerm(h, h', x.term) && GrowsKey(h, h', x.term, n);
    if x.role == Candidate {
      VotedGrows(h, h', x.term, h.supporters[n], n);
    }
  }

  // A step keeps the invariant when its own node is in order, the rest being bystanders.
  lemma StepOk(ids: set<NodeId>, s: State, n: NodeId, y: NodeState, net': Net, h': History)
    requires Inv(ids, s) && n in ids
    requires Grows(s.hist, h') && HistOk(ids, h') && NetOk(ids, h', net') && NodeOk(ids, h', net', n, y)
    requires forall m | m in ids && m != n :: Bystander(s.hist, h', s.net, net', m, s.nodes[m])
    ensures Inv(ids, State(s.nodes[n := y], net', h'))
  {
    var s' := State(s.nodes[n := y], net', h');
    forall m | m in ids ensures NodeOk(ids, h', net', m, s'.nodes[m]) {
      if m != n {
        assert NodeOk(ids, s.hist, s.net, m, s.nodes[m]);
        BystanderOk(ids, s.hist, h', s.net, net', m, s.nodes[m]);
      }
    }
  }

  // A node that changes neither its log nor what it tracks per peer.
  lemma ShapeKept(ids: set<NodeId>, x: NodeState, y: NodeState)
    requires NodeShape(ids, x.id, x) && x.term <= y.term
    requires y == x.(role := y.role, term := y.term, votedFor := y.votedFor, votes := y.votes, commit := y.commit)
    ensures NodeShape(ids, x.id, y)
  {
    if x.term < y.term {
      WellFormedLater(x.log, x.term, y.term);
    }
    forall p ensures NextAtLeastOne(y, p) {
      assert NextAtLeastOne(x, p);
    }
  }

  // ---- Elections ----

  // Winning term `y.term` with a quorum of votes, the term having no leader yet.
  lemma ElectOk(ids: set<NodeId>, h: History, y: NodeState, voters: set<NodeId>)
    requires HistOk(ids, h) && y.term !in h.elected && y.term >= 1
    requires y.id in ids && voters <= ids && |voters| >= |ids| / 2 + 1
    requires AllVoted(h, y.term, voters, y.id)
    requires WellFormedLog(y.log, y.term) && Backed(h, y.log) && Below(y.log, y.term)
    ensures Grows(h, Elect(h, y, voters)) && HistOk(ids, Elect(h, y, voters))
  {
    var h' := Elect(h, y, voters);
    assert y.term !in h.leaderLogs;
    assert Grows(h, h');
    BackedGrows(h, h', y.log);
    VotedGrows(h, h', y.term, voters, y.id);
    forall t ensures ElectionOk(ids, h', t) {
      assert ElectionOk(ids, h, t);
      if t in h.elected {
        ElectionGrows(ids, h, h', t);
      }
    }
  }

  // A term a candidate stands in and collects a quorum for has no leader yet.
  lemma TermIsFree(ids: set<NodeId>, h: History, net: Net, n: NodeId, x: NodeState, voters: set<NodeId>)
    requires HistOk(ids, h) && NodeOk(ids, h, net, n, x) && x.role == Candidate
    requires voters <= ids && |voters| >= |ids| / 2 + 1 && AllVoted(h, x.term, voters, n)
    ensures x.term !in h.elected
  {
    var t := x.term;
    assert ElectionOk(ids, h, t) && PastOk(h, n, x, t);
    if t in h.elected {
      var w := QuorumsMeet(ids, voters, h.elected[t].voters);
    }
  }

  lemma StoodOk(ids: set<NodeId>, h: History, net: Net, x: NodeState)
    requires HistOk(ids, h) && NodeOk(ids, h, net, x.id, x)
    ensures Grows(h, Stood(h, x)) && HistOk(ids, Stood(h, x))
  {
    assert PastOk(h, x.id, x, x.term + 1);
    HistFrame(ids, h, Stood(h, x));
  }

  // A node that wins by standing is alone, and its new term has no leader.
  lemma SoloTermIsFree(ids: set<NodeId>, h: History, net: Net, x: NodeState)
    requires HistOk(ids, h) && NodeOk(ids, h, net, x.id, x) && x.StartElection().role == Leader
    ensures ids == {x.id} && x.term + 1 !in h.elected && x.term + 1 !in h.leaderLogs
  {
    assert ids == {x.id} + x.peers;
    assert ElectionOk(ids, h, x.term + 1) && PastOk(h, x.id, x, x.term + 1);
  }

  lemma StartHist(ids: set<NodeId>, h: History, net: Net, x: NodeState)
    requires HistOk(ids, h) && NodeOk(ids, h, net, x.id, x)
    ensures Grows(h, HistStart(h, x)) && HistOk(ids, HistStart(h, x))
  {
    var h1, y := Stood(h, x), x.StartElection();
    StoodOk(ids, h, net, x);
    if y.role == Leader {
      SoloTermIsFree(ids, h, net, x);
      WellFormedLater(x.log, x.term, y.term);
      BackedGrows(h, h1, x.log);
      ElectOk(ids, h1, y, {x.id});
      GrowsTransitive(h, h1, Elect(h1, y, {x.id}));
    }
  }

  lemma StartNode(ids: set<NodeId>, h: History, net: Net, x: NodeState)
    requires HistOk(ids, h) && NodeOk(ids, h, net, x.id, x)
    ensures NodeOk(ids, HistStart(h, x), NextNet(net, x, StartElection(x.id)), x.id, x.StartElection())
  {
    StartHist(ids, h, net, x);
    var h', y := HistStart(h, x), x.StartElection();
    WellFormedLater(x.log, x.term, y.term);
    BackedGrows(h, h', x.log);
    forall t ensures PastOk(h', x.id, y, t) {
      assert PastOk(h, x.id, x, t) && GrowsKey(h, h', t, x.id) && GrowsTerm(h, h', t);
    }
    forall p ensures NextAtLeastOne(y, p) {
      assert NextAtLeastOne(x, p);
    }
  }

  lemma StartOk(ids: set<NodeId>, s: State, n: NodeId)
    requires Inv(ids, s) && n in ids
    ensures Grows(s.hist, Next(s, StartElection(n)).hist) && Inv(ids, Next(s, StartElection(n)))
  {
    var x := s.nodes[n];
    assert NodeOk(ids, s.hist, s.net, n, x);
    StartHist(ids, s.hist, s.net, x);
    StartNode(ids, s.hist, s.net, x);
    var net', h' := NextNet(s.net, x, StartElection(n)), HistStart(s.hist, x);
    NetGrows(ids, s.hist, h', s.net);
    assert NetOk(ids, h', net') by {
      forall m ensures RoundOk(ids, net', m) {
        assert RoundOk(ids, s.net, m);
      }
    }
    StepOk(ids, s, n, x.StartElection(), net', h');
  }

  // Stepping down to a later term, or to follower in this one.
  lemma StepDownOk(ids: set<NodeId>, h: History, net: Net, x: NodeState, t: nat)
    requires NodeOk(ids, h, net, x.id, x)
    ensures t > x.term ==> NodeOk(ids, h, net, x.id, x.StepDown(t))
    ensures NodeOk(ids, h, net, x.id, x.(role := Follower))
  {
    var y, z := x.StepDown(t), x.(role := Follower);
    ShapeKept(ids, x, z);
    if t > x.term {
      ShapeKept(ids, x, y);
    }
    forall u ensures PastOk(h, x.id, z, u) && (t > x.term ==> PastOk(h, x.id, y, u)) {
      assert PastOk(h, x.id, x, u);
    }
  }

  lemma GrantHist(ids: set<NodeId>, h: History, x: NodeState, req: VoteReq)
    requires HistOk(ids, h)
    ensures Grows(h, HistGrant(h, x, req)) && HistOk(ids, HistGrant(h, x, req))
  {
    assert Grows(h, HistGrant(h, x, req));
    HistFrame(ids, h, HistGrant(h, x, req));
  }

  lemma GrantPast(h: History, x: NodeState, req: VoteReq, u: nat)
    requires req.term == x.term && PastOk(h, x.id, x, u) && PastOk(h, x.id, x, x.term)
    ensures PastOk(HistGrant(h, x, req), x.id, x.HandleRequestVote(req).0, u)
    ensures x.HandleRequestVote(req).1.granted ==> Voted(HistGrant(h, x, req), req.term, x.id, req.candidate)
  {
  }

  // Voting in the node's own term.
  lemma GrantInTerm(ids: set<NodeId>, h: History, net: Net, x: NodeState, req: VoteReq)
    requires HistOk(ids, h) && NodeOk(ids, h, net, x.id, x) && req.term == x.term
    ensures NodeOk(ids, HistGrant(h, x, req), net, x.id, x.HandleRequestVote(req).0)
    ensures x.HandleRequestVote(req).1.granted ==> Voted(HistGrant(h, x, req), req.term, x.id, req.candidate)
  {
    var h', y := HistGrant(h, x, req), x.HandleRequestVote(req).0;
    GrantHist(ids, h, x, req);
    ShapeKept(ids, x, y);
    BackedGrows(h, h', x.log);
    forall u ensures PastOk(h', x.id, y, u) {
      GrantPast(h, x, req, u);
    }
    if x.role == Candidate {
      VotedGrows(h, h', x.term, h.supporters[x.id], x.id);
    }
    GrantPast(h, x, req, x.term);
  }

  lemma GrantNode(ids: set<NodeId>, h: History, net: Net, x: NodeState, req: VoteReq)
    requires HistOk(ids, h) && NodeOk(ids, h, net, x.id, x)
    ensures NodeOk(ids, HistGrant(h, x, req), net, x.id, x.HandleRequestVote(req).0)
    ensures x.HandleRequestVote(req).1.granted ==> Voted(HistGrant(h, x, req), req.term, x.id, req.candidate)
  {
    if req.term > x.term {
      StepDownOk(ids, h, net, x, req.term);
      GrantInTerm(ids, h, net, x.StepDown(req.term), req);
    } else if req.term == x.term {
      GrantInTerm(ids, h, net, x, req);
    }
  }

  lemma GrantOk(ids: set<NodeId>, s: State, n: NodeId, req: VoteReq)
    requires Inv(ids, s) && n in ids
    ensures Grows(s.hist, Next(s, DeliverVote(n, req)).hist) && Inv(ids, Next(s, DeliverVote(n, req)))
  {
    var x := s.nodes[n];
    assert NodeOk(ids, s.hist, s.net, n, x);
    GrantHist(ids, s.hist, x, req);
    GrantNode(ids, s.hist, s.net, x, req);
    var net', h' := NextNet(s.net, x, DeliverVote(n, req)), HistGrant(s.hist, x, req);
    NetGrows(ids, s.hist, h', s.net);
    assert NetOk(ids, h', net') by {
      forall m ensures RoundOk(ids, net', m) {
        assert RoundOk(ids, s.net, m);
      }
    }
    StepOk(ids, s, n, x.HandleRequestVote(req).0, net', h');
  }

  // A granted vote that counts: a new supporter, perhaps a new leader.
  function Counted(h: History, x: NodeState, voter: NodeId): History
    requires x.id in h.supporters
  {
    h.(supporters := h.supporters[x.id := h.supporters[x.id] + {voter}])
  }

  ghost predicate NewVote(ids: set<NodeId>, h: History, net: Net, x: NodeState, voter: NodeId, resp: VoteResp) {
    && NodeOk(ids, h, net, x.id, x) && x.role == Candidate
    && resp.term <= x.term && resp.granted
    && voter in ids && voter in net.rounds[x.id].pending && Voted(h, x.term, voter, x.id)
  }

  lemma CountedOk(ids: set<NodeId>, h: History, net: Net, x: NodeState, voter: NodeId, resp: VoteResp)
    requires HistOk(ids, h) && NewVote(ids, h, net, x, voter, resp)
    ensures Grows(h, Counted(h, x, voter)) && HistOk(ids, Counted(h, x, voter))
    ensures |h.supporters[x.id] + {voter}| == x.votes + 1
    ensures AllVoted(h, x.term, h.supporters[x.id] + {voter}, x.id)
  {
    assert Grows(h, Counted(h, x, voter));
    HistFrame(ids, h, Counted(h, x, voter));
  }

  lemma CountHist(ids: set<NodeId>, h: History, net: Net, x: NodeState, voter: NodeId, resp: VoteResp)
    requires HistOk(ids, h) && NewVote(ids, h, net, x, voter, resp)
    ensures Grows(h, HistCount(h, x, voter, resp)) && HistOk(ids, HistCount(h, x, voter, resp))
  {
    var voters, h1, y := h.supporters[x.id] + {voter}, Counted(h, x, voter), x.HandleVoteResponse(resp).0;
    CountedOk(ids, h, net, x, voter, resp);
    if y.role == Leader {
      QuorumIsMajority(ids, x.id, x);
      TermIsFree(ids, h, net, x.id, x, voters);
      BackedGrows(h, h1, x.log);
      VotedGrows(h, h1, x.term, voters, x.id);
      ElectOk(ids, h1, y, voters);
      GrowsTransitive(h, h1, Elect(h1, y, voters));
    }
  }

  lemma CountNode(ids: set<NodeId>, h: History, net: Net, x: NodeState, voter: NodeId, resp: VoteResp)
    requires HistOk(ids, h) && NewVote(ids, h, net, x, voter, resp)
    ensures NodeOk(ids, HistCount(h, x, voter, resp), NextNet(net, x, HandleVote(x.id, voter, resp)),
                   x.id, x.HandleVoteResponse(resp).0)
  {
    var h', y := HistCount(h, x, voter, resp), x.HandleVoteResponse(resp).0;
    CountedOk(ids, h, net, x, voter, resp);
    CountHist(ids, h, net, x, voter, resp);
    BackedGrows(h, h', x.log);
    forall u ensures PastOk(h', x.id, y, u) {
      assert PastOk(h, x.id, x, u);
    }
    if y.role == Candidate {
      ShapeKept(ids, x, y);
      VotedGrows(h, h', x.term, h.supporters[x.id] + {voter}, x.id);
    }
  }

  // A reply that does not count: stale, refused, or from a later term.
  lemma IgnoredVote(ids: set<NodeId>, h: History, net: Net, x: NodeState, voter: NodeId, resp: VoteResp)
    requires NodeOk(ids, h, net, x.id, x) && x.id in net.rounds
    requires resp.term > x.term || x.role != Candidate || !resp.granted
    ensures NodeOk(ids, h, NextNet(net, x, HandleVote(x.id, voter, resp)), x.id, x.HandleVoteResponse(resp).0)
  {
    StepDownOk(ids, h, net, x, resp.term);
  }

  lemma CountParts(ids: set<NodeId>, h: History, net: Net, x: NodeState, voter: NodeId, resp: VoteResp)
    requires HistOk(ids, h) && NetOk(ids, h, net) && NodeOk(ids, h, net, x.id, x)
    requires x.id in net.rounds && voter in net.rounds[x.id].pending
    requires VoteReply(voter, net.rounds[x.id].req, resp) in net.voteReplies
    ensures
      var h' := HistCount(h, x, voter, resp);
      var net' := NextNet(net, x, HandleVote(x.id, voter, resp));
      Grows(h, h') && HistOk(ids, h') && NodeOk(ids, h', net', x.id, x.HandleVoteResponse(resp).0)
  {
    assert RoundOk(ids, net, x.id) && VoteReplyOk(ids, h, VoteReply(voter, net.rounds[x.id].req, resp));
    if resp.term <= x.term && x.role == Candidate && resp.granted {
      CountHist(ids, h, net, x, voter, resp);
      CountNode(ids, h, net, x, voter, resp);
    } else {
      assert Grows(h, h);
      IgnoredVote(ids, h, net, x, voter, resp);
    }
  }

  lemma CountOk(ids: set<NodeId>, s: State, n: NodeId, voter: NodeId, resp: VoteResp)
    requires Inv(ids, s) && Enabled(s, HandleVote(n, voter, resp))
    ensures Grows(s.hist, Next(s, HandleVote(n, voter, resp)).hist)
    ensures Inv(ids, Next(s, HandleVote(n, voter, resp)))
  {
    var x, h := s.nodes[n], s.hist;
    var y, net', h' := x.HandleVoteResponse(resp).0, NextNet(s.net, x, HandleVote(n, voter, resp)), HistCount(h, x, voter, resp);
    assert NodeOk(ids, h, s.net, n, x);
    CountParts(ids, h, s.net, x, voter, resp);
    NetGrows(ids, h, h', s.net);
    assert NetOk(ids, h', net') by {
      forall m ensures RoundOk(ids, net', m) {
        assert RoundOk(ids, s.net, m);
      }
    }
    forall m | m in ids && m != n ensures Bystander(h, h', s.net, net', m, s.nodes[m]) {
      assert NodeOk(ids, h, s.net, m, s.nodes[m]) && GrowsTerm(h, h', s.nodes[m].term);
    }
    StepOk(ids, s, n, y, net', h');
  }

  // ---- Replication ----

  lemma ProposeLog(ids: set<NodeId>, h: History, x: NodeState, data: seq<Byte>)
    requires HistOk(ids, h) && x.role == Leader && LeaderOk(h, x.id, x)
    ensures Grows(h, HistPropose(h, x, data))
    ensures
      var log := Appended(x.log, x.term, data);
      && Backed(HistPropose(h, x, data), log) && WellFormedLog(log, x.term)
      && Since(log, |h.elected[x.term].log|, x.term)
  {
    var h', log := HistPropose(h, x, data), Appended(x.log, x.term, data);
    assert ElectionOk(ids, h, x.term);
    assert x.log <= log;
    assert Grows(h, h');
    BackedGrows(h, h', x.log);
    forall i | 1 <= i < |log| ensures BackedAt(h', log, i) && EntryOk(log, x.term, i) {
      if i < |x.log| {
        assert BackedAt(h', x.log, i) && EntryOk(x.log, x.term, i) && log[..i + 1] == x.log[..i + 1];
      }
    }
    forall i | |h.elected[x.term].log| <= i < |log| ensures EntrySince(log, i, x.term) {
      if i < |x.log| {
        assert EntrySince(x.log, i, x.term);
      }
    }
  }

  lemma ProposeHist(ids: set<NodeId>, h: History, x: NodeState, data: seq<Byte>)
    requires HistOk(ids, h) && x.role == Leader && LeaderOk(h, x.id, x)
    ensures HistOk(ids, HistPropose(h, x, data))
  {
    var h' := HistPropose(h, x, data);
    ProposeLog(ids, h, x, data);
    forall t ensures ElectionOk(ids, h', t) {
      assert ElectionOk(ids, h, t);
      if t == x.term {
        VotedGrows(h, h', t, h.elected[t].voters, h.elected[t].leader);
      } else if t in h.elected {
        ElectionGrows(ids, h, h', t);
      }
    }
  }

  lemma ProposeNode(ids: set<NodeId>, h: History, net: Net, x: NodeState, data: seq<Byte>)
    requires HistOk(ids, h) && NodeOk(ids, h, net, x.id, x) && x.role == Leader
    ensures NodeOk(ids, HistPropose(h, x, data), net, x.id, x.Propose(data).0)
  {
    var h', y := HistPropose(h, x, data), x.Propose(data).0;
    ProposeLog(ids, h, x, data);
    forall u ensures PastOk(h', x.id, y, u) {
      assert PastOk(h, x.id, x, u);
    }
    forall p ensures NextAtLeastOne(y, p) {
      assert NextAtLeastOne(x, p);
    }
  }

  lemma ProposeOk(ids: set<NodeId>, s: State, n: NodeId, data: seq<Byte>)
    requires Inv(ids, s) && n in ids
    ensures Grows(s.hist, Next(s, Propose(n, data)).hist) && Inv(ids, Next(s, Propose(n, data)))
  {
    var x, h := s.nodes[n], s.hist;
    var h' := HistPropose(h, x, data);
    assert NodeOk(ids, h, s.net, n, x);
    if x.role == Leader {
      ProposeLog(ids, h, x, data);
      ProposeHist(ids, h, x, data);
      ProposeNode(ids, h, s.net, x, data);
    } else {
      assert Grows(h, h);
    }
    NetGrows(ids, h, h', s.net);
    forall m | m in ids && m != n ensures Bystander(h, h', s.net, s.net, m, s.nodes[m]) {
      assert NodeOk(ids, h, s.net, m, s.nodes[m]);
    }
    StepOk(ids, s, n, x.Propose(data).0, s.net, h');
  }

  lemma HeartbeatReq(ids: set<NodeId>, h: History, net: Net, x: NodeState, p: NodeId)
    requires NodeOk(ids, h, net, x.id, x) && x.role == Leader && p in x.peers
    ensures ReqOk(h, x.HeartbeatTo(x.NextIndexFor(p)))
    ensures x.NextIndexFor(p) <= |x.log| ==>
      InRange(h.leaderLogs[x.term], x.HeartbeatTo(x.NextIndexFor(p)))
  {
    assert NextAtLeastOne(x, p);
    var next := x.nextIndex[p];
    if next < |x.log| {
      assert x.log[next..] == x.log[next..next + |x.log[next..]|];
    }
  }

  lemma HeartbeatOk(ids: set<NodeId>, s: State, n: NodeId)
    requires Inv(ids, s) && n in ids
    ensures Grows(s.hist, Next(s, Heartbeat(n)).hist) && Inv(ids, Next(s, Heartbeat(n)))
  {
    var x, h := s.nodes[n], s.hist;
    var net' := NextNet(s.net, x, Heartbeat(n));
    assert NodeOk(ids, h, s.net, n, x);
    assert Grows(h, h);
    forall m: (NodeId, AppendReq) | m in net'.appendReqs ensures ReqOk(h, m.1) {
      if m in s.net.appendReqs {
        assert ReqOk(h, m.1);
      } else {
        HeartbeatReq(ids, h, s.net, x, m.0);
      }
    }
    forall m ensures RoundOk(ids, net', m) {
      assert RoundOk(ids, s.net, m);
    }
    StepOk(ids, s, n, x, net', h);
  }

  // How much of the leader's log a request covers.
  function Covered(req: AppendReq): nat { req.prevIndex + 1 + |req.entries| }

  // What a request does to the log: a success leaves the follower with the
  // leader's log up to what the request covers; a failure only cuts.
  lemma AcceptLog(ids: set<NodeId>, h: History, x: NodeState, req: AppendReq)
    requires HistOk(ids, h) && NodeShape(ids, x.id, x) && Backed(h, x.log) && ReqOk(h, req)
    ensures
      var (y, resp) := x.HandleAppendEntries(req);
      var full := h.leaderLogs[req.term];
      if resp.success then
        && InRange(full, req)
        && y.log == (if full[..Covered(req)] <= x.log then x.log else full[..Covered(req)])
      else
        || y.log == x.log
        || (&& 0 < req.prevIndex < |x.log| && x.log[req.prevIndex].term != req.prevTerm
            && y.log == x.log[..req.prevIndex])
  {
    var (y, resp) := x.HandleAppendEntries(req);
    var full := h.leaderLogs[req.term];
    assert ElectionOk(ids, h, req.term);
    if resp.success {
      var prev := req.prevIndex;
      if prev > 0 {
        assert EntryOk(x.log, x.term, prev);
      }
      assert InRange(full, req);
      Matching(h, x.log, full, x.term, req.term, prev);
      assert full[..prev + 1] <= x.log by { assert x.log[..prev + 1] <= x.log; }
      MergeLeaderSlice(h, x.log, full, x.term, req.term, prev + 1, Covered(req));
    }
  }

  lemma AcceptNode(ids: set<NodeId>, h: History, net: Net, x: NodeState, req: AppendReq)
    requires HistOk(ids, h) && NodeOk(ids, h, net, x.id, x) && ReqOk(h, req)
    ensures NodeOk(ids, h, net, x.id, x.HandleAppendEntries(req).0)
  {
    var y := x.HandleAppendEntries(req).0;
    if req.term >= x.term {
      AcceptLog(ids, h, x, req);
      AcceptShape(ids, h, x, req, y);
      forall u ensures PastOk(h, x.id, y, u) {
        assert PastOk(h, x.id, x, u);
      }
    }
  }

  lemma AcceptShape(ids: set<NodeId>, h: History, x: NodeState, req: AppendReq, y: NodeState)
    requires HistOk(ids, h) && NodeShape(ids, x.id, x) && Backed(h, x.log) && ReqOk(h, req)
    requires y == x.(role := y.role, term := req.term, votedFor := y.votedFor, log := y.log, commit := y.commit)
    requires x.term <= req.term
    requires y.log == x.log || (exists k | 1 <= k <= |x.log| :: y.log == x.log[..k])
      || (exists k | 1 <= k <= |h.leaderLogs[req.term]| :: y.log == h.leaderLogs[req.term][..k])
    ensures NodeShape(ids, x.id, y) && Backed(h, y.log)
  {
    forall p ensures NextAtLeastOne(y, p) {
      assert NextAtLeastOne(x, p);
    }
    assert ElectionOk(ids, h, req.term);
    if x.term < req.term {
      WellFormedLater(x.log, x.term, req.term);
    }
    if exists k | 1 <= k <= |x.log| :: y.log == x.log[..k] {
      var k :| 1 <= k <= |x.log| && y.log == x.log[..k];
      PrefixOk(h, x.log, req.term, k);
    } else if exists k | 1 <= k <= |h.leaderLogs[req.term]| :: y.log == h.leaderLogs[req.term][..k] {
      var k :| 1 <= k <= |h.leaderLogs[req.term]| && y.log == h.leaderLogs[req.term][..k];
      PrefixOk(h, h.leaderLogs[req.term], req.term, k);
    }
  }

  // Acknowledging touches only the acknowledgement record.
  lemma AckFrame(ids: set<NodeId>, h: History, net: Net, n: NodeId, x: NodeState, t: nat, index: nat)
    requires HistOk(ids, h) && NodeOk(ids, h, net, n, x)
    ensures Grows(h, Ack(h, t, n, index)) && HistOk(ids, Ack(h, t, n, index))
    ensures NodeOk(ids, Ack(h, t, n, index), net, n, x)
  {
    var h' := Ack(h, t, n, index);
    assert Grows(h, h');
    HistFrame(ids, h, h');
    BystanderOk(ids, h, h', net, net, n, x);
  }

  lemma AcceptOk(ids: set<NodeId>, s: State, n: NodeId, req: AppendReq)
    requires Inv(ids, s) && Enabled(s, DeliverAppend(n, req))
    ensures Grows(s.hist, Next(s, DeliverAppend(n, req)).hist) && Inv(ids, Next(s, DeliverAppend(n, req)))
  {
    var x, h := s.nodes[n], s.hist;
    var (y, resp) := x.HandleAppendEntries(req);
    var net', h' := NextNet(s.net, x, DeliverAppend(n, req)), HistAccept(h, x, req);
    assert NodeOk(ids, h, s.net, n, x);
    assert ReqOk(h, (n, req).1);
    AcceptNode(ids, h, s.net, x, req);
    AckFrame(ids, h, s.net, n, y, req.term, SharedIndex(h, req, y.log, resp.matchIndex));
    assert Grows(h, h);
    NetGrows(ids, h, h', s.net);
    assert NetOk(ids, h', net') by {
      ReqGrows(h, h', req);
      forall m ensures RoundOk(ids, net', m) {
        assert RoundOk(ids, s.net, m);
      }
    }
    StepOk(ids, s, n, y, net', h');
  }

  lemma ReplyNode(ids: set<NodeId>, h: History, net: Net, x: NodeState, follower: NodeId, resp: AppendResp)
    requires HistOk(ids, h) && NodeOk(ids, h, net, x.id, x)
    ensures NodeOk(ids, h, net, x.id, x.HandleAppendResponse(follower, resp))
  {
    var y := x.HandleAppendResponse(follower, resp);
    if resp.term > x.term {
      StepDownOk(ids, h, net, x, resp.term);
    } else if x.role == Leader {
      forall u ensures PastOk(h, x.id, y, u) {
        assert PastOk(h, x.id, x, u);
      }
      forall p ensures NextAtLeastOne(y, p) {
        assert NextAtLeastOne(x, p);
      }
    }
  }

  // Steps that change only what the leader tracks, and its commit index.
  lemma CommitOk(ids: set<NodeId>, s: State, n: NodeId, y: NodeState)
    requires Inv(ids, s) && n in ids && NodeOk(ids, s.hist, s.net, n, y)
    ensures
      var h' := HistCommit(s.hist, s.nodes[n], y);
      Grows(s.hist, h') && Inv(ids, State(s.nodes[n := y], s.net, h'))
  {
    var x, h := s.nodes[n], s.hist;
    var h' := HistCommit(h, x, y);
    assert NodeOk(ids, h, s.net, n, x);
    AckFrame(ids, h, s.net, n, y, x.term, y.commit);
    assert Grows(h, h);
    NetGrows(ids, h, h', s.net);
    StepOk(ids, s, n, y, s.net, h');
  }

  lemma SoloNode(ids: set<NodeId>, h: History, net: Net, x: NodeState)
    requires NodeOk(ids, h, net, x.id, x)
    ensures NodeOk(ids, h, net, x.id, x.AdvanceCommitIfSolo())
  {
    var y := x.AdvanceCommitIfSolo();
    ShapeKept(ids, x, y);
    forall u ensures PastOk(h, x.id, y, u) {
      assert PastOk(h, x.id, x, u);
    }
  }

  // ---- Every step, every run ----

  lemma NextOk(ids: set<NodeId>, s: State, a: Action)
    requires Inv(ids, s) && Enabled(s, a)
    ensures Grows(s.hist, Next(s, a).hist) && Inv(ids, Next(s, a))
  {
    assert NodeOk(ids, s.hist, s.net, a.n, s.nodes[a.n]);
    match a
    case StartElection(n) => StartOk(ids, s, n);
    case DeliverVote(n, req) => GrantOk(ids, s, n, req);
    case HandleVote(n, voter, resp) => CountOk(ids, s, n, voter, resp);
    case Propose(n, data) => ProposeOk(ids, s, n, data);
    case Heartbeat(n) => HeartbeatOk(ids, s, n);
    case DeliverAppend(n, req) => AcceptOk(ids, s, n, req);
    case HandleAppend(n, follower, _, resp) =>
      ReplyNode(ids, s.hist, s.net, s.nodes[n], follower, resp);
      CommitOk(ids, s, n, After(s.nodes[n], a));
    case SoloCommit(n) =>
      SoloNode(ids, s.hist, s.net, s.nodes[n]);
      CommitOk(ids, s, n, After(s.nodes[n], a));
  }

  lemma FreshOk(ids: set<NodeId>, h: History, net: Net, n: NodeId)
    requires n in ids && h == Init(ids).hist && net == Init(ids).net
    ensures NodeOk(ids, h, net, n, Fresh(n, ids - {n}))
  {
    var x := Fresh(n, ids - {n});
    assert WellFormedLog(x.log, 0) && Backed(h, x.log);
    forall t ensures PastOk(h, n, x, t) {
    }
    forall p ensures NextAtLeastOne(x, p) {
    }
  }

  lemma InitOk(ids: set<NodeId>)
    ensures Inv(ids, Init(ids))
  {
    var s := Init(ids);
    assert HistOk(ids, s.hist) by {
      forall t ensures ElectionOk(ids, s.hist, t) {
      }
    }
    assert NetOk(ids, s.hist, s.net) by {
      forall n ensures RoundOk(ids, s.net, n) {
      }
    }
    forall n | n in ids ensures NodeOk(ids, s.hist, s.net, n, s.nodes[n]) {
      FreshOk(ids, s.hist, s.net, n);
    }
  }

  lemma {:induction false} RunOk(ids: set<NodeId>, run: seq<State>, actions: seq<Action>, k: nat)
    requires IsRun(ids, run, actions) && k < |run|
    ensures Inv(ids, run[k])
  {
    if k == 0 {
      InitOk(ids);
    } else {
      RunOk(ids, run, actions, k - 1);
      assert Follows(run[k - 1], actions[k - 1], run[k]);
      NextOk(ids, run[k - 1], actions[k - 1]);
    }
  }

  lemma {:induction false} RunGrows(ids: set<NodeId>, run: seq<State>, actions: seq<Action>, j: nat, k: nat)
    requires IsRun(ids, run, actions) && j <= k < |run|
    ensures Grows(run[j].hist, run[k].hist)
    decreases k
  {
    if j < k {
      RunGrows(ids, run, actions, j, k - 1);
      assert Grows(run[k - 1].hist, run[k].hist) by {
        RunOk(ids, run, actions, k - 1);
        assert Follows(run[k - 1], actions[k - 1], run[k]);
        NextOk(ids, run[k - 1], actions[k - 1]);
      }
      GrowsTransitive(run[j].hist, run[k - 1].hist, run[k].hist);
    }
  }

  // Election safety: over a whole run, a term has at most one leader.
  lemma ElectionSafety(ids: set<NodeId>, run: seq<State>, actions: seq<Action>, j: nat, k: nat, a: NodeId, b: NodeId)
    requires IsRun(ids, run, actions) && j <= k < |run| && a in run[j].nodes && b in run[k].nodes
    requires run[j].nodes[a].role == Leader && run[k].nodes[b].role == Leader
    requires run[j].nodes[a].term == run[k].nodes[b].term
    ensures a == b
  {
    RunOk(ids, run, actions, j);
    RunOk(ids, run, actions, k);
    RunGrows(ids, run, actions, j, k);
    assert NodeOk(ids, run[j].hist, run[j].net, a, run[j].nodes[a]);
    assert NodeOk(ids, run[k].hist, run[k].net, b, run[k].nodes[b]);
    assert GrowsTerm(run[j].hist, run[k].hist, run[j].nodes[a].term);
  }

  // Log matching: two logs of any reachable state that hold an entry of the
  // same index and term are identical up to that index.
  lemma LogMatching(ids: set<NodeId>, run: seq<State>, actions: seq<Action>, k: nat, a: NodeId, b: NodeId, i: nat)
    requires IsRun(ids, run, actions) && k < |run| && a in run[k].nodes && b in run[k].nodes
    requires i < |run[k].nodes[a].log| && i < |run[k].nodes[b].log|
    requires run[k].nodes[a].log[i].term == run[k].nodes[b].log[i].term
    ensures run[k].nodes[a].log[..i + 1] == run[k].nodes[b].log[..i + 1]
  {
    RunOk(ids, run, actions, k);
    var s := run[k];
    assert NodeOk(ids, s.hist, s.net, a, s.nodes[a]) && NodeOk(ids, s.hist, s.net, b, s.nodes[b]);
    Matching(s.hist, s.nodes[a].log, s.nodes[b].log, s.nodes[a].term, s.nodes[b].term, i);
  }
}
