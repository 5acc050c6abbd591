// Why state-machine safety needs true reports. A follower answers a success
// with its own last index, so a stale tail is reported as matched: in a cluster
// of three, nodes 1 and 3 come to commit different entries at index 1.
module RaftDivergence {
  import opened RaftLog
  import opened RaftNode
  import opened RaftCluster
  import opened RaftInvariants
  import opened RaftSafety

  // ---- When is a report true? ----

  // In every reachable state: a success reports the follower's last index, at least
  // what was sent. Up to there the follower's log is the leader's if and only if the
  // leader has an entry there and it is of the follower's last term. A report of no
  // more than was sent is true.
  lemma ReportTrueIff(ids: set<NodeId>, run: seq<State>, actions: seq<Action>, k: nat, n: NodeId, req: AppendReq)
    requires IsRun(ids, run, actions) && k < |run| && Enabled(run[k], DeliverAppend(n, req))
    requires run[k].nodes[n].HandleAppendEntries(req).1.success
    ensures req.term in run[k].hist.leaderLogs
    ensures
      var (y, resp) := run[k].nodes[n].HandleAppendEntries(req);
      var m, full := resp.matchIndex, run[k].hist.leaderLogs[req.term];
      && m == LastIndex(y.log) && req.prevIndex + |req.entries| <= m < |y.log|
      && (TrueReport(run[k], n, req, resp) <==> m < |full| && full[m].term == LastTerm(y.log))
      && (m == req.prevIndex + |req.entries| ==> TrueReport(run[k], n, req, resp))
  {
    RunOk(ids, run, actions, k);
    assert ReqOk(run[k].hist, (n, req).1);
    ReportAt(ids, run[k], n, req);
  }

  lemma ReportAt(ids: set<NodeId>, s: State, n: NodeId, req: AppendReq)
    requires Inv(ids, s) && n in ids && ReqOk(s.hist, req) && s.nodes[n].HandleAppendEntries(req).1.success
    ensures
      var (y, resp) := s.nodes[n].HandleAppendEntries(req);
      var m, full := resp.matchIndex, s.hist.leaderLogs[req.term];
      && m == LastIndex(y.log) && req.prevIndex + |req.entries| <= m < |y.log|
      && (Shared(y.log, full, m) <==> m < |full| && full[m].term == LastTerm(y.log))
      && (m == req.prevIndex + |req.entries| ==> Shared(y.log, full, m))
  {
    var h := s.hist;
    var (y, resp) := s.nodes[n].HandleAppendEntries(req);
    assert NodeOk(ids, h, s.net, n, s.nodes[n]) && ElectionOk(ids, h, req.term);
    var m, full := resp.matchIndex, h.leaderLogs[req.term];
    AcceptLog(ids, h, s.nodes[n], req);
    AcceptNode(ids, h, s.net, s.nodes[n], req);
    if m < |full| && full[m].term == LastTerm(y.log) {
      Matching(h, y.log, full, y.term, req.term, m);
    }
  }

  // A follower that already holds more of the leader's log than an older request
  // carries reports more than was sent, and truly.
  lemma MoreThanSent(ids: set<NodeId>, run: seq<State>, actions: seq<Action>, k: nat, n: NodeId, req: AppendReq)
    requires IsRun(ids, run, actions) && k < |run| && Enabled(run[k], DeliverAppend(n, req))
    requires req.term in run[k].hist.leaderLogs && run[k].nodes[n].log <= run[k].hist.leaderLogs[req.term]
    requires req.term >= run[k].nodes[n].term && req.prevIndex + |req.entries| < LastIndex(run[k].nodes[n].log)
    requires InRange(run[k].hist.leaderLogs[req.term], req)
    ensures
      var x := run[k].nodes[n];
      var (y, resp) := x.HandleAppendEntries(req);
      resp.success && y.log == x.log && resp.matchIndex > req.prevIndex + |req.entries| && TrueReport(run[k], n, req, resp)
  {
    RunOk(ids, run, actions, k);
    var s, h := run[k], run[k].hist;
    assert NodeOk(ids, h, s.net, n, s.nodes[n]) && ReqOk(h, (n, req).1);
    assert s.nodes[n].log[req.prevIndex] == h.leaderLogs[req.term][req.prevIndex];
    AcceptLog(ids, h, s.nodes[n], req);
  }

  // ---- The run ----

  const IDS: set<NodeId> := {1, 2, 3}
  const P1: set<NodeId> := {2, 3}
  const P2: set<NodeId> := {1, 3}
  const P3: set<NodeId> := {1, 2}
  const A: LogEntry := LogEntry(1, 1, [1])
  const B: LogEntry := LogEntry(2, 1, [2])
  const C: LogEntry := LogEntry(3, 2, [3])

  predicate Nodes(s: State, x1: NodeState, x2: NodeState, x3: NodeState) {
    s.nodes.Keys == IDS && s.nodes[1] == x1 && s.nodes[2] == x2 && s.nodes[3] == x3
  }

  lemma Stand(run: seq<State>, actions: seq<Action>, c: NodeId) returns (run': seq<State>, actions': seq<Action>)
    requires IsRun(IDS, run, actions) && c in run[|run| - 1].nodes
    requires |run[|run| - 1].nodes[c].peers| == 2 && run[|run| - 1].nodes[c].id == c
    ensures IsRun(IDS, run', actions')
    ensures
      var s, s' := run[|run| - 1], run'[|run'| - 1];
      var x := s.nodes[c];
      var req := VoteReq(x.term + 1, c, LastIndex(x.log), LastTerm(x.log));
      && s'.nodes == s.nodes[c := x.(term := x.term + 1, role := Candidate, votedFor := Some(c), votes := 1)]
      && req in s'.net.voteReqs && c in s'.net.rounds && s'.net.rounds[c] == Round(req, x.peers)
  {
    run', actions' := Extend(IDS, run, actions, StartElection(c));
  }

  // `c` stands, `v` votes for it, and it wins.
  lemma Win(run: seq<State>, actions: seq<Action>, c: NodeId, v: NodeId)
    returns (run': seq<State>, actions': seq<Action>)
    requires IsRun(IDS, run, actions) && c != v && c in run[|run| - 1].nodes && v in run[|run| - 1].nodes
    requires
      var x, y := run[|run| - 1].nodes[c], run[|run| - 1].nodes[v];
      && |x.peers| == 2 && v in x.peers && x.term + 1 > y.term && x.id == c
      && UpToDate(x.log, y.log) && x.log != [] && y.log != []
    ensures IsRun(IDS, run', actions')
    ensures
      var s, s' := run[|run| - 1], run'[|run'| - 1];
      var x, y := s.nodes[c], s.nodes[v];
      && s'.nodes == s.nodes[c := x.(term := x.term + 1, votedFor := Some(c), votes := 2).BecomeLeader()]
                            [v := y.StepDown(x.term + 1).(votedFor := Some(c))]
  {
    var s := run[|run| - 1];
    var x, y := s.nodes[c], s.nodes[v];
    var r1, a1 := Stand(run, actions, c);
    var req := VoteReq(x.term + 1, c, LastIndex(x.log), LastTerm(x.log));
    var r2, a2 := Extend(IDS, r1, a1, DeliverVote(v, req));
    var resp := VoteResp(x.term + 1, true);
    assert y.HandleRequestVote(req).1 == resp;
    run', actions' := Extend(IDS, r2, a2, HandleVote(c, v, resp));
  }

  // Leader `l` sends a heartbeat and `v` handles the request to it.
  lemma Send(run: seq<State>, actions: seq<Action>, l: NodeId, v: NodeId)
    returns (run': seq<State>, actions': seq<Action>)
    requires IsRun(IDS, run, actions) && l != v && l in run[|run| - 1].nodes && v in run[|run| - 1].nodes
    requires run[|run| - 1].nodes[l].role == Leader && v in run[|run| - 1].nodes[l].peers
    ensures IsRun(IDS, run', actions')
    ensures
      var s, s' := run[|run| - 1], run'[|run'| - 1];
      var req := s.nodes[l].HeartbeatTo(s.nodes[l].NextIndexFor(v));
      var (y, resp) := s.nodes[v].HandleAppendEntries(req);
      s'.nodes == s.nodes[v := y] && AppendReply(v, req, resp) in s'.net.appendReplies
  {
    var s := run[|run| - 1];
    var x := s.nodes[l];
    var req := x.HeartbeatTo(x.NextIndexFor(v));
    var r1, a1 := Extend(IDS, run, actions, Heartbeat(l));
    assert (v, req) in r1[|r1| - 1].net.appendReqs by {
      assert v in x.Heartbeat() && x.Heartbeat()[v] == req;
    }
    assert r1[|r1| - 1].nodes == s.nodes;
    run', actions' := Extend(IDS, r1, a1, DeliverAppend(v, req));
  }

  function Started(id: NodeId, peers: set<NodeId>, term: nat, vote: Option<NodeId>, log: Entries): NodeState {
    Fresh(id, peers).(term := term, votedFor := vote, log := log)
  }

  function All(peers: set<NodeId>, v: nat): map<NodeId, nat> { map p | p in peers :: v }

  function Leading(id: NodeId, peers: set<NodeId>, term: nat, log: Entries, next: map<NodeId, nat>, matched: map<NodeId, nat>, commit: nat): NodeState {
    NodeState(id, peers, Leader, term, Some(id), log, commit, next, matched, 2)
  }

  lemma LeaderMaps(x: NodeState)
    requires x.nextIndex.Keys == x.peers && x.matchIndex.Keys == x.peers
    ensures x.BecomeLeader().nextIndex == All(x.peers, LastIndex(x.log) + 1)
    ensures x.BecomeLeader().matchIndex == All(x.peers, 0)
  {
  }

  lemma Beginning() returns (run: seq<State>, actions: seq<Action>)
    ensures IsRun(IDS, run, actions)
    ensures Nodes(run[|run| - 1], Fresh(1, P1), Fresh(2, P2), Fresh(3, P3))
  {
    run, actions := [Init(IDS)], [];
    assert IDS - {1} == P1 && IDS - {2} == P2 && IDS - {3} == P3;
  }

  lemma FirstLeader() returns (run: seq<State>, actions: seq<Action>)
    ensures IsRun(IDS, run, actions)
    ensures Nodes(run[|run| - 1],
                  Fresh(1, P1),
                  Started(2, P2, 1, Some(3), [SENTINEL]),
                  Leading(3, P3, 1, [SENTINEL], All(P3, 1), All(P3, 0), 0))
  {
    run, actions := Beginning();
    LeaderMaps(Fresh(3, P3).(term := 1, votedFor := Some(3), votes := 2));
    run, actions := Win(run, actions, 3, 2);
  }

  // Node 3 leads term 1 and keeps entry A to itself; node 1 stands.
  lemma Hoarded() returns (run: seq<State>, actions: seq<Action>)
    ensures IsRun(IDS, run, actions)
    ensures Nodes(run[|run| - 1],
                  Fresh(1, P1).(term := 1, role := Candidate, votedFor := Some(1), votes := 1),
                  Started(2, P2, 1, Some(3), [SENTINEL]),
                  Leading(3, P3, 1, [SENTINEL, A], All(P3, 1), All(P3, 0), 0))
  {
    run, actions := FirstLeader();
    run, actions := Extend(IDS, run, actions, Propose(3, [1]));
    run, actions := Extend(IDS, run, actions, StartElection(1));
  }

  // Node 1 stands again and wins term 2 without seeing A.
  lemma StaleTail() returns (run: seq<State>, actions: seq<Action>)
    ensures IsRun(IDS, run, actions)
    ensures Nodes(run[|run| - 1],
                  Leading(1, P1, 2, [SENTINEL], All(P1, 1), All(P1, 0), 0),
                  Started(2, P2, 2, Some(1), [SENTINEL]),
                  Leading(3, P3, 1, [SENTINEL, A], All(P3, 1), All(P3, 0), 0))
  {
    run, actions := Hoarded();
    LeaderMaps(run[|run| - 1].nodes[1].(term := 2, votedFor := Some(1), votes := 2));
    run, actions := Win(run, actions, 1, 2);
  }

  // The reply of the stale node makes the leader commit.
  lemma StaleReply(x: NodeState)
    requires x == Leading(1, P1, 2, [SENTINEL, B], All(P1, 1), All(P1, 0), 0)
    ensures x.HandleAppendResponse(3, AppendResp(2, true, 1))
         == Leading(1, P1, 2, [SENTINEL, B], All(P1, 1)[3 := 2], All(P1, 0)[3 := 1], 1)
  {
    var s := x.(matchIndex := x.matchIndex[3 := 1], nextIndex := x.nextIndex[3 := 2]);
    assert s.Matched(1) == {3};
    assert s.Committable(1);
    assert s.HighestCommittable(1) == 1;
  }

  // Node 3 reports its stale entry as matched, and node 1 commits B on its own.
  lemma FalseCommit() returns (run: seq<State>, actions: seq<Action>)
    ensures IsRun(IDS, run, actions)
    ensures Nodes(run[|run| - 1],
                  Leading(1, P1, 2, [SENTINEL, B], All(P1, 1)[3 := 2], All(P1, 0)[3 := 1], 1),
                  Started(2, P2, 2, Some(1), [SENTINEL]),
                  Leading(3, P3, 1, [SENTINEL, A], All(P3, 1), All(P3, 0), 0).StepDown(2))
  {
    run, actions := StaleTail();
    var x1, x3 := run[|run| - 1].nodes[1], run[|run| - 1].nodes[3];
    var req := AppendReq(2, 1, 0, 0, [], 0);
    assert x1.HeartbeatTo(x1.NextIndexFor(3)) == req;
    assert x3.HandleAppendEntries(req) == (x3.StepDown(2), AppendResp(2, true, 1));
    run, actions := Send(run, actions, 1, 3);
    run, actions := Extend(IDS, run, actions, Propose(1, [2]));
    StaleReply(run[|run| - 1].nodes[1]);
    run, actions := Extend(IDS, run, actions, HandleAppend(1, 3, req, AppendResp(2, true, 1)));
  }

  // Node 3 wins term 3 with the votes of nodes that never saw B.
  lemma Usurped() returns (run: seq<State>, actions: seq<Action>)
    ensures IsRun(IDS, run, actions)
    ensures Nodes(run[|run| - 1],
                  Leading(1, P1, 2, [SENTINEL, B], All(P1, 1)[3 := 2], All(P1, 0)[3 := 1], 1),
                  Started(2, P2, 3, Some(3), [SENTINEL]),
                  Leading(3, P3, 3, [SENTINEL, A, C], All(P3, 2), All(P3, 0), 0))
  {
    run, actions := FalseCommit();
    var x3 := run[|run| - 1].nodes[3];
    LeaderMaps(x3.(term := 3, votedFor := Some(3), votes := 2));
    run, actions := Win(run, actions, 3, 2);
    run, actions := Extend(IDS, run, actions, Propose(3, [3]));
  }

  // Node 2's first reply makes node 3 back up.
  lemma BackedUp() returns (run: seq<State>, actions: seq<Action>)
    ensures IsRun(IDS, run, actions)
    ensures Nodes(run[|run| - 1],
                  Leading(1, P1, 2, [SENTINEL, B], All(P1, 1)[3 := 2], All(P1, 0)[3 := 1], 1),
                  Started(2, P2, 3, Some(3), [SENTINEL]),
                  Leading(3, P3, 3, [SENTINEL, A, C], All(P3, 2)[2 := 1], All(P3, 0), 0))
  {
    run, actions := Usurped();
    var x2, x3 := run[|run| - 1].nodes[2], run[|run| - 1].nodes[3];
    var req, resp := AppendReq(3, 3, 1, 1, [C], 0), AppendResp(3, false, 0);
    assert x3.HeartbeatTo(x3.NextIndexFor(2)) == req;
    assert x2.HandleAppendEntries(req) == (x2, resp);
    run, actions := Send(run, actions, 3, 2);
    assert x3.HandleAppendResponse(2, resp) == x3.(nextIndex := All(P3, 2)[2 := 1]);
    run, actions := Extend(IDS, run, actions, HandleAppend(3, 2, req, resp));
  }

  lemma TrueReply(x: NodeState)
    requires x == Leading(3, P3, 3, [SENTINEL, A, C], All(P3, 2)[2 := 1], All(P3, 0), 0)
    ensures x.HandleAppendResponse(2, AppendResp(3, true, 2)).log == [SENTINEL, A, C]
    ensures x.HandleAppendResponse(2, AppendResp(3, true, 2)).commit == 2
  {
    var s := x.(matchIndex := x.matchIndex[2 := 2], nextIndex := x.nextIndex[2 := 3]);
    assert s.Matched(2) == {2};
    assert s.Committable(2);
    assert s.HighestCommittable(2) == 2;
  }

  // State-machine safety fails in general: a run in which nodes 1 and 3 have
  // both committed index 1, with different entries.
  lemma CommittedLogsDiverge() returns (run: seq<State>, actions: seq<Action>)
    ensures IsRun(IDS, run, actions)
    ensures
      var s := run[|run| - 1];
      && 1 in s.nodes && 3 in s.nodes
      && 1 <= s.nodes[1].commit < |s.nodes[1].log| && 1 <= s.nodes[3].commit < |s.nodes[3].log|
      && s.nodes[1].log[1] != s.nodes[3].log[1]
  {
    run, actions := BackedUp();
    var x2, x3 := run[|run| - 1].nodes[2], run[|run| - 1].nodes[3];
    var req, resp := AppendReq(3, 3, 0, 0, [A, C], 0), AppendResp(3, true, 2);
    assert x3.HeartbeatTo(x3.NextIndexFor(2)) == req;
    FullSync(x2, req);
    run, actions := Send(run, actions, 3, 2);
    TrueReply(x3);
    run, actions := Extend(IDS, run, actions, HandleAppend(3, 2, req, resp));
  }

  lemma FullSync(x: NodeState, req: AppendReq)
    requires x == Started(2, P2, 3, Some(3), [SENTINEL]) && req == AppendReq(3, 3, 0, 0, [A, C], 0)
    ensures x.HandleAppendEntries(req).1 == AppendResp(3, true, 2)
  {
    assert [A, C][1..] == [C];
    assert Merged([SENTINEL], A) == [SENTINEL, A];
    assert Merged([SENTINEL, A], C) == [SENTINEL, A, C];
    assert MergedAll([SENTINEL, A], [C]) == MergedAll([SENTINEL, A, C], [C][1..]);
  }
}
