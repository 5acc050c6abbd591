// What a cluster gets done. Accepted heartbeats carry commit indexes and entries to
// followers, and from every reachable state of every cluster there is a way on that
// commits a new entry everywhere.
module RaftProgress {
  import opened RaftLog
  import opened RaftNode
  import opened RaftCluster
  import opened RaftInvariants
  import opened RaftSafety

  // ---- Followers commit ----

  // In every run: after a success the follower has committed every index that was sent,
  // or lies before what was sent, and that the leader says is committed.
  lemma AcceptCommits(ids: set<NodeId>, run: seq<State>, actions: seq<Action>, k: nat, n: NodeId, req: AppendReq, i: nat)
    requires IsRun(ids, run, actions) && k < |run| && Enabled(run[k], DeliverAppend(n, req))
    requires run[k].nodes[n].HandleAppendEntries(req).1.success
    requires i <= req.leaderCommit && i <= req.prevIndex + |req.entries|
    ensures
      var x, y := run[k].nodes[n], run[k].nodes[n].HandleAppendEntries(req).0;
      i <= y.commit && i < |y.log| && (y.commit == x.commit || y.commit <= req.leaderCommit)
  {
    RunOk(ids, run, actions, k);
    var s := run[k];
    assert NodeOk(ids, s.hist, s.net, n, s.nodes[n]) && ReqOk(s.hist, (n, req).1);
    AcceptLog(ids, s.hist, s.nodes[n], req);
  }

  // A heartbeat covers all of the leader's log, or names a predecessor it has not.
  lemma HeartbeatCovers(ids: set<NodeId>, h: History, net: Net, x: NodeState, p: NodeId)
    requires NodeOk(ids, h, net, x.id, x) && p in x.peers
    ensures
      var req := x.HeartbeatTo(x.NextIndexFor(p));
      req.leaderCommit == x.commit && req.term == x.term && (Covered(req) == |x.log| || OutOfRange(req))
  {
    assert NextAtLeastOne(x, p);
  }

  // Leader `l` sends `p` a heartbeat in step `j`, and in step `k` the follower accepts it.
  ghost predicate HeartbeatAccepted(run: seq<State>, actions: seq<Action>, j: nat, k: nat, l: NodeId, p: NodeId) {
    && j < k < |actions| < |run| && l in run[j].nodes && p in run[k].nodes
    && actions[j] == Heartbeat(l) && run[j].nodes[l].role == Leader && p in run[j].nodes[l].peers
    && actions[k] == DeliverAppend(p, run[j].nodes[l].HeartbeatTo(run[j].nodes[l].NextIndexFor(p)))
    && run[k].nodes[p].HandleAppendEntries(actions[k].req).1.success
  }

  // A follower that accepts a heartbeat, whenever it arrives, has then the log the leader
  // had when it sent it, and has committed what the leader had.
  lemma HeartbeatCommits(ids: set<NodeId>, run: seq<State>, actions: seq<Action>, j: nat, k: nat, l: NodeId, p: NodeId)
    requires IsRun(ids, run, actions) && HeartbeatAccepted(run, actions, j, k, l, p)
    ensures p in run[k + 1].nodes
    ensures
      var x, y := run[j].nodes[l], run[k + 1].nodes[p];
      x.log <= y.log && Min(x.commit, LastIndex(x.log)) <= y.commit
  {
    var x, req, s := run[j].nodes[l], actions[k].req, run[k];
    RunOk(ids, run, actions, j);
    RunOk(ids, run, actions, k);
    RunGrows(ids, run, actions, j, k);
    assert Follows(s, actions[k], run[k + 1]);
    assert NodeOk(ids, run[j].hist, run[j].net, l, x);
    assert GrowsTerm(run[j].hist, s.hist, x.term);
    HeartbeatCovers(ids, run[j].hist, run[j].net, x, p);
    SuccessCovers(ids, s, p, req, x.log);
  }

  lemma SuccessCovers(ids: set<NodeId>, s: State, n: NodeId, req: AppendReq, log: Entries)
    requires Inv(ids, s) && n in ids && ReqOk(s.hist, req) && log != [] && log <= s.hist.leaderLogs[req.term]
    requires s.nodes[n].HandleAppendEntries(req).1.success && (Covered(req) == |log| || OutOfRange(req))
    ensures var y := s.nodes[n].HandleAppendEntries(req).0; log <= y.log && Min(req.leaderCommit, LastIndex(log)) <= y.commit
  {
    var full := s.hist.leaderLogs[req.term];
    assert NodeOk(ids, s.hist, s.net, n, s.nodes[n]) && ElectionOk(ids, s.hist, req.term);
    AcceptLog(ids, s.hist, s.nodes[n], req);
    assert req.prevIndex > 0 ==> EntryOk(full, req.term, req.prevIndex);
    assert log == full[..|log|];
  }

  // ---- ... and apply ----

  // `applied` are all committed entries from index 1 on.
  predicate AllApplied(applied: Entries, x: NodeState) {
    x.commit < |x.log| && applied == x.log[1..x.commit + 1]
  }

  // A take leaves nothing committed unapplied.
  lemma TakeIsComplete(ids: set<NodeId>, run: seq<State>, actions: seq<Action>, n: NodeId, takes: nat -> bool, k: nat)
    requires IsHonestRun(ids, run, actions) && k < |run| && n in ids && forall j | 0 <= j < |run| :: n in run[j].nodes
    requires takes(k)
    ensures AllApplied(Applied(run, n, takes, k), run[k].nodes[n])
  {
    AppliedIsCommitted(ids, run, actions, n, takes, k);
    if k > 0 {
      AppliedIsCommitted(ids, run, actions, n, takes, k - 1);
      CommitNeverFalls(ids, run, actions, k - 1, k, n);
    }
  }

  // In the honest runs of RaftSafety: once a follower has accepted a heartbeat, every later
  // take leaves it with all entries applied that the leader had committed.
  lemma HeartbeatApplies(ids: set<NodeId>, run: seq<State>, actions: seq<Action>, j: nat, k: nat, l: NodeId, p: NodeId,
                         takes: nat -> bool, m: nat)
    requires IsHonestRun(ids, run, actions) && HeartbeatAccepted(run, actions, j, k, l, p) && p in ids
    requires k < m < |run| && takes(m)
    ensures forall i | 0 <= i < |run| :: p in run[i].nodes
    ensures var x := run[j].nodes[l]; x.commit < |x.log| && x.log[1..x.commit + 1] <= Applied(run, p, takes, m)
  {
    NodesOfRun(ids, run, actions, p);
    HeartbeatCommits(ids, run, actions, j, k, l, p);
    var x := run[j].nodes[l];
    RunSafe(ids, run, actions, j);
    assert SafeNode(ids, run[j].hist, l, x);
    AppliedFrom(ids, run, actions, x.log, x.commit, k + 1, p, takes, m);
  }

  lemma AppliedFrom(ids: set<NodeId>, run: seq<State>, actions: seq<Action>, log: Entries, c: nat, k: nat, p: NodeId,
                    takes: nat -> bool, m: nat)
    requires IsHonestRun(ids, run, actions) && k <= m < |run| && p in ids && forall i | 0 <= i < |run| :: p in run[i].nodes
    requires takes(m) && c < |log| && log <= run[k].nodes[p].log && c <= run[k].nodes[p].commit
    ensures log[1..c + 1] <= Applied(run, p, takes, m)
  {
    var y, z := run[k].nodes[p], run[m].nodes[p];
    CommitNeverFalls(ids, run, actions, k, m, p);
    TakeIsComplete(ids, run, actions, p, takes, m);
    assert log[1..c + 1] == y.log[..y.commit + 1][1..c + 1] == z.log[1..c + 1];
  }

  // ---- Terms ----

  // The term of the message an action handles.
  function MessageTerm(a: Action): Option<nat> {
    match a
    case DeliverVote(_, req) => Some(req.term)
    case HandleVote(_, _, resp) => Some(resp.term)
    case DeliverAppend(_, req) => Some(req.term)
    case HandleAppend(_, _, _, resp) => Some(resp.term)
    case _ => None
  }

  // Terms never fall. Whatever the message, a later term makes its receiver a follower in
  // that term, and a request of an earlier term is refused and changes nothing.
  lemma LaterTermsRule(x: NodeState, a: Action)
    ensures x.term <= After(x, a).term
    ensures MessageTerm(a).Some? && MessageTerm(a).value > x.term ==>
      After(x, a).term == MessageTerm(a).value && After(x, a).role == Follower
    ensures a.DeliverVote? && a.voteReq.term < x.term ==>
      After(x, a) == x && x.HandleRequestVote(a.voteReq).1 == VoteResp(x.term, false)
    ensures a.DeliverAppend? && a.req.term < x.term ==>
      After(x, a) == x && !x.HandleAppendEntries(a.req).1.success && x.HandleAppendEntries(a.req).1.term == x.term
  {
  }

  // A vote is given exactly to a candidate of the node's term, or a later one, whose log
  // is as recent, unless it went to another in that term; it is kept, and the reply says so.
  lemma VotesIff(x: NodeState, req: VoteReq)
    requires x.log != []
    ensures
      var (y, resp) := x.HandleRequestVote(req);
      && (resp.granted <==>
            && req.term >= x.term && (req.term > x.term || x.votedFor == None || x.votedFor == Some(req.candidate))
            && (req.lastTerm > LastTerm(x.log) || (req.lastTerm == LastTerm(x.log) && req.lastIndex + 1 >= |x.log|)))
      && (resp.granted ==> y.votedFor == Some(req.candidate) && resp.term == y.term == req.term)
      && y.log == x.log && y.commit == x.commit
  {
  }

  // A request is accepted exactly when it is not of an earlier term and its predecessor is
  // in the log. A refused one costs the log a predecessor of another term and all after
  // it, and nothing else. The reply always gives the log's last index.
  lemma AcceptsIff(x: NodeState, req: AppendReq)
    requires x.log != []
    ensures
      var (y, resp) := x.HandleAppendEntries(req);
      var prev := req.prevIndex;
      && (resp.success <==> req.term >= x.term && (prev == 0 || (prev < |x.log| && x.log[prev].term == req.prevTerm)))
      && resp.matchIndex == LastIndex(y.log) && resp.term == y.term == Max(x.term, req.term)
      && (!resp.success ==>
            y.commit == x.commit && y.log == if req.term >= x.term && prev < |x.log| then x.log[..prev] else x.log)
  {
  }
}
