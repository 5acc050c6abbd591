// From every reachable state of every cluster there is a way on that commits a new entry
// on all nodes: some node can win an election, any leader can bring any follower of no
// higher term to its own log, and then it commits.
module RaftAvailability {
  import opened RaftLog
  import opened RaftNode
  import opened RaftCluster
  import opened RaftInvariants
  import opened RaftSafety
  import opened RaftProgress

  // ---- Schedules ----

  ghost predicate CanDo(s: State, acts: seq<Action>)
    decreases |acts|
  {
    acts == [] || (Enabled(s, acts[0]) && CanDo(Next(s, acts[0]), acts[1..]))
  }

  ghost function Do(s: State, acts: seq<Action>): State
    requires CanDo(s, acts)
    decreases |acts|
  {
    if acts == [] then s else Do(Next(s, acts[0]), acts[1..])
  }

  // A schedule from `s` leads to `s'`. The fact is expanded only where `Unfold` is
  // mentioned.
  ghost predicate Leads(s: State, acts: seq<Action>, s': State) {
    forall k {:trigger Unfold(k)} :: Unfold(k) ==> CanDo(s, acts) && Do(s, acts) == s'
  }

  predicate Unfold(k: int) { true }

  lemma LeadsNowhere(s: State)
    ensures Leads(s, [], s)
  {
  }

  lemma {:induction false} LeadsOn(s: State, acts: seq<Action>, s': State, more: seq<Action>, s'': State)
    requires Leads(s, acts, s') && Leads(s', more, s'')
    ensures Leads(s, acts + more, s'')
    decreases |acts|
  {
    assert Unfold(0);
    if acts == [] {
      assert acts + more == more;
    } else {
      var s1 := Next(s, acts[0]);
      LeadsOn(s1, acts[1..], s', more, s'');
      assert (acts + more)[1..] == acts[1..] + more;
    }
  }

  lemma LeadsStep(s: State, acts: seq<Action>, s': State, a: Action)
    requires Leads(s, acts, s') && Enabled(s', a)
    ensures Leads(s, acts + [a], Next(s', a))
  {
    assert [a][1..] == [];
    LeadsOn(s, acts, s', [a], Next(s', a));
  }

  lemma {:induction false} LeadsRun(ids: set<NodeId>, run: seq<State>, actions: seq<Action>, acts: seq<Action>, s: State)
    returns (run': seq<State>, actions': seq<Action>)
    requires IsRun(ids, run, actions) && Leads(run[|run| - 1], acts, s)
    ensures IsRun(ids, run', actions') && run <= run' && actions <= actions' && run'[|run'| - 1] == s
    decreases |acts|
  {
    assert Unfold(0);
    run', actions' := run, actions;
    if acts != [] {
      run', actions' := Extend(ids, run, actions, acts[0]);
      run', actions' := LeadsRun(ids, run', actions', acts[1..], s);
    }
  }

  // ---- One exchange ----

  // A leader's heartbeat to `p`, its delivery and the reply.
  lemma Exchange(ids: set<NodeId>, s: State, l: NodeId, p: NodeId) returns (acts: seq<Action>, s': State)
    requires Inv(ids, s) && l in ids && p in ids && l != p && s.nodes[l].role == Leader
    ensures Leads(s, acts, s') && Inv(ids, s')
    ensures
      var x := s.nodes[l];
      var req := x.HeartbeatTo(x.NextIndexFor(p));
      var (y, resp) := s.nodes[p].HandleAppendEntries(req);
      s'.nodes == s.nodes[p := y][l := x.HandleAppendResponse(p, resp)] && ReqOk(s.hist, req)
  {
    assert NodeOk(ids, s.hist, s.net, l, s.nodes[l]);
    var x := s.nodes[l];
    var req := x.HeartbeatTo(x.NextIndexFor(p));
    var (y, resp) := s.nodes[p].HandleAppendEntries(req);
    var s1 := Next(s, Heartbeat(l));
    assert (p, req) in s1.net.appendReqs by {
      assert p in x.Heartbeat() && x.Heartbeat()[p] == req;
    }
    assert s1.nodes == s.nodes;
    var s2 := Next(s1, DeliverAppend(p, req));
    s' := Next(s2, HandleAppend(l, p, req, resp));
    LeadsNowhere(s);
    LeadsStep(s, [], s, Heartbeat(l));
    LeadsStep(s, [] + [Heartbeat(l)], s1, DeliverAppend(p, req));
    acts := [] + [Heartbeat(l)] + [DeliverAppend(p, req)];
    LeadsStep(s, acts, s2, HandleAppend(l, p, req, resp));
    acts := acts + [HandleAppend(l, p, req, resp)];
    NextOk(ids, s, Heartbeat(l));
    NextOk(ids, s1, DeliverAppend(p, req));
    NextOk(ids, s2, HandleAppend(l, p, req, resp));
    HeartbeatReq(ids, s.hist, s.net, x, p);
  }

  // ---- Log repair ----

  // The leader has committed all it may.
  ghost predicate Quorate(x: NodeState) {
    forall i | x.commit < i <= LastIndex(x.log) :: !x.Committable(i)
  }

  // The leader `x` is now `x'`: still leading, its log untouched.
  predicate StillLeads(x: NodeState, x': NodeState) {
    && x'.role == Leader && x'.term == x.term && x'.log == x.log && x'.peers == x.peers && x'.id == x.id
    && x.commit <= x'.commit
  }

  // `y` has the leader's log, and has committed what the leader had.
  predicate CaughtUp(x: NodeState, y: NodeState) {
    y.term == x.term && x.log <= y.log && Min(x.commit, LastIndex(x.log)) <= y.commit
  }

  // What the leader knows of `p` is as before.
  predicate SameMatch(x: NodeState, x': NodeState, p: NodeId) {
    && (p in x.matchIndex ==> p in x'.matchIndex && x'.matchIndex[p] == x.matchIndex[p])
    && x'.NextIndexFor(p) == x.NextIndexFor(p)
  }

  // The leader knows that `p` has all of its log, and would send it what comes after.
  predicate MatchedAll(x: NodeState, p: NodeId) {
    p in x.matchIndex && x.matchIndex[p] >= LastIndex(x.log) && x.NextIndexFor(p) == x.matchIndex[p] + 1
  }

  // A refused heartbeat moves the leader back, by at least one and behind the follower's end.
  lemma Refused(ids: set<NodeId>, s: State, l: NodeId, p: NodeId)
    requires Inv(ids, s) && l in ids && p in ids && l != p && s.nodes[l].role == Leader
    requires s.nodes[p].term <= s.nodes[l].term
    requires !s.nodes[p].HandleAppendEntries(s.nodes[l].HeartbeatTo(s.nodes[l].NextIndexFor(p))).1.success
    ensures
      var x := s.nodes[l];
      var (y, resp) := s.nodes[p].HandleAppendEntries(x.HeartbeatTo(x.NextIndexFor(p)));
      var x' := x.HandleAppendResponse(p, resp);
      && StillLeads(x, x') && x'.commit == x.commit && x'.matchIndex == x.matchIndex
      && (forall q | q != p :: SameMatch(x, x', q))
      && 1 <= x'.NextIndexFor(p) == Min(LastIndex(y.log) + 1, x.NextIndexFor(p) - 1) < x.NextIndexFor(p) && y.term == x'.term
  {
    assert NodeOk(ids, s.hist, s.net, l, s.nodes[l]) && NodeOk(ids, s.hist, s.net, p, s.nodes[p]);
    assert NextAtLeastOne(s.nodes[l], p);
  }

  // An accepted one ends the matter.
  lemma AcceptedByAll(ids: set<NodeId>, s: State, l: NodeId, p: NodeId)
    requires Inv(ids, s) && l in ids && p in ids && l != p && s.nodes[l].role == Leader
    requires s.nodes[p].term <= s.nodes[l].term && ReqOk(s.hist, s.nodes[l].HeartbeatTo(s.nodes[l].NextIndexFor(p)))
    requires s.nodes[p].HandleAppendEntries(s.nodes[l].HeartbeatTo(s.nodes[l].NextIndexFor(p))).1.success
    ensures
      var x := s.nodes[l];
      var (y, resp) := s.nodes[p].HandleAppendEntries(x.HeartbeatTo(x.NextIndexFor(p)));
      var x' := x.HandleAppendResponse(p, resp);
      && StillLeads(x, x') && Quorate(x') && MatchedAll(x', p) && CaughtUp(x, y)
      && forall q | q != p :: SameMatch(x, x', q)
  {
    var x := s.nodes[l];
    assert NodeOk(ids, s.hist, s.net, l, x) && NodeOk(ids, s.hist, s.net, p, s.nodes[p]);
    var req := x.HeartbeatTo(x.NextIndexFor(p));
    var (y, resp) := s.nodes[p].HandleAppendEntries(req);
    HeartbeatCovers(ids, s.hist, s.net, x, p);
    SuccessCovers(ids, s, p, req, x.log);
    RepliedTo(x, p, resp);
  }

  // What the leader makes of a success.
  lemma RepliedTo(x: NodeState, p: NodeId, resp: AppendResp)
    requires x.role == Leader && p in x.matchIndex && p in x.nextIndex && resp.success && resp.term == x.term && resp.matchIndex >= LastIndex(x.log)
    ensures
      var x' := x.HandleAppendResponse(p, resp);
      StillLeads(x, x') && Quorate(x') && MatchedAll(x', p) && forall q | q != p :: SameMatch(x, x', q)
  {
    var x' := x.HandleAppendResponse(p, resp);
    var z := x'.(commit := x.commit);
    HighestCommittableIsMaximal(z, LastIndex(x.log));
    forall i | x'.commit < i <= LastIndex(x'.log) ensures !x'.Committable(i) {
      assert !z.Committable(i);
      assert z.Matched(i) == x'.Matched(i);
    }
  }

  // From `s` to `s'`, leader `l` has brought `p` up to date; nothing else has changed.
  ghost predicate BroughtUp(ids: set<NodeId>, s: State, s': State, l: NodeId, p: NodeId) {
    && Inv(ids, s) && Inv(ids, s') && l in ids && p in ids
    && StillLeads(s.nodes[l], s'.nodes[l]) && Quorate(s'.nodes[l]) && MatchedAll(s'.nodes[l], p)
    && CaughtUp(s.nodes[l], s'.nodes[p])
    && (forall q | q != p :: SameMatch(s.nodes[l], s'.nodes[l], q))
    && (forall n | n in ids && n != l && n != p :: Unmoved(s, s', n))
  }

  predicate Unmoved(s: State, s': State, n: NodeId) {
    n in s.nodes && n in s'.nodes && s'.nodes[n] == s.nodes[n]
  }

  // The leader's heartbeat to `p`, and the reply.
  function Request(s: State, l: NodeId, p: NodeId): AppendReq
    requires l in s.nodes
  {
    s.nodes[l].HeartbeatTo(s.nodes[l].NextIndexFor(p))
  }

  ghost predicate Exchanged(s: State, s': State, l: NodeId, p: NodeId)
    requires l in s.nodes && p in s.nodes
  {
    var (y, resp) := s.nodes[p].HandleAppendEntries(Request(s, l, p));
    s'.nodes == s.nodes[p := y][l := s.nodes[l].HandleAppendResponse(p, resp)]
  }

  lemma BroughtUpAtOnce(ids: set<NodeId>, s: State, s': State, l: NodeId, p: NodeId)
    requires Inv(ids, s) && Inv(ids, s') && l in ids && p in ids && l != p && s.nodes[l].role == Leader
    requires s.nodes[p].term <= s.nodes[l].term && ReqOk(s.hist, Request(s, l, p))
    requires s.nodes[p].HandleAppendEntries(Request(s, l, p)).1.success && Exchanged(s, s', l, p)
    ensures BroughtUp(ids, s, s', l, p)
  {
    AcceptedByAll(ids, s, l, p);
  }

  lemma BroughtUpLater(ids: set<NodeId>, s: State, s1: State, s': State, l: NodeId, p: NodeId)
    requires Inv(ids, s) && Inv(ids, s1) && l in ids && p in ids && l != p && s.nodes[l].role == Leader
    requires StillLeads(s.nodes[l], s1.nodes[l]) && s1.nodes[l].commit == s.nodes[l].commit
    requires (forall q | q != p :: SameMatch(s.nodes[l], s1.nodes[l], q)) && Exchanged(s, s1, l, p)
    requires BroughtUp(ids, s1, s', l, p)
    ensures BroughtUp(ids, s, s', l, p)
  {
    forall q | q != p ensures SameMatch(s.nodes[l], s'.nodes[l], q) {
      assert SameMatch(s.nodes[l], s1.nodes[l], q) && SameMatch(s1.nodes[l], s'.nodes[l], q);
    }
    forall n | n in ids && n != l && n != p ensures Unmoved(s, s', n) {
      assert Unmoved(s1, s', n);
    }
  }

  // Some exchanges bring any follower of no higher term to the leader's log.
  lemma {:induction false} CatchUp(ids: set<NodeId>, s: State, l: NodeId, p: NodeId) returns (acts: seq<Action>, s': State)
    requires Inv(ids, s) && l in ids && p in ids && l != p && s.nodes[l].role == Leader
    requires s.nodes[p].term <= s.nodes[l].term
    ensures Leads(s, acts, s') && BroughtUp(ids, s, s', l, p)
    decreases s.nodes[l].NextIndexFor(p)
  {
    var s1;
    acts, s1 := Exchange(ids, s, l, p);
    if s.nodes[p].HandleAppendEntries(Request(s, l, p)).1.success {
      BroughtUpAtOnce(ids, s, s1, l, p);
      s' := s1;
    } else {
      Refused(ids, s, l, p);
      var more;
      more, s' := CatchUp(ids, s1, l, p);
      LeadsOn(s, acts, s1, more, s');
      acts := acts + more;
      BroughtUpLater(ids, s, s1, s', l, p);
    }
  }

  // ---- All followers ----

  // Leader `l` has brought all of `todo` up to date.
  ghost predicate AllUp(ids: set<NodeId>, s: State, s': State, l: NodeId, todo: set<NodeId>) {
    && Inv(ids, s) && Inv(ids, s') && l in ids && todo <= ids - {l}
    && StillLeads(s.nodes[l], s'.nodes[l]) && (if todo == {} then Unmoved(s, s', l) else Quorate(s'.nodes[l]))
    && (forall p | p in todo :: MatchedAll(s'.nodes[l], p) && CaughtUp(s.nodes[l], s'.nodes[p]))
    && (forall q | q !in todo :: SameMatch(s.nodes[l], s'.nodes[l], q))
    && (forall n | n in ids - todo && n != l :: Unmoved(s, s', n))
  }

  lemma UpBefore(ids: set<NodeId>, s: State, s1: State, s': State, l: NodeId, p: NodeId, more: set<NodeId>)
    requires BroughtUp(ids, s, s1, l, p) && AllUp(ids, s1, s', l, more) && p !in more && p != l
    ensures AllUp(ids, s, s', l, more + {p})
  {
    assert p in ids;
    var x, x1, x' := s.nodes[l], s1.nodes[l], s'.nodes[l];
    assert SameMatch(x1, x', p) && Unmoved(s1, s', p);
    forall q | q !in more + {p} ensures SameMatch(x, x', q) {
      assert SameMatch(x, x1, q) && SameMatch(x1, x', q);
    }
    forall n | n in ids - (more + {p}) && n != l ensures Unmoved(s, s', n) {
      assert Unmoved(s, s1, n) && Unmoved(s1, s', n);
    }
    forall q | q in more + {p} ensures MatchedAll(x', q) && CaughtUp(x, s'.nodes[q]) {
      if q != p {
        assert MatchedAll(x', q) && CaughtUp(x1, s'.nodes[q]);
      }
    }
  }

  // No node of `ns` is in a later term than `l`.
  ghost predicate NoneAhead(s: State, l: NodeId, ns: set<NodeId>) {
    l in s.nodes && forall n | n in ns :: n in s.nodes && s.nodes[n].term <= s.nodes[l].term
  }

  lemma StillNoneAhead(ids: set<NodeId>, s: State, s': State, l: NodeId, p: NodeId, ns: set<NodeId>)
    requires BroughtUp(ids, s, s', l, p) && NoneAhead(s, l, ns) && ns <= ids && p !in ns && l !in ns
    ensures NoneAhead(s', l, ns)
  {
    forall n | n in ns ensures n in s'.nodes && s'.nodes[n].term <= s'.nodes[l].term {
      assert Unmoved(s, s', n);
    }
  }

  lemma NoneToDo(ids: set<NodeId>, s: State, l: NodeId)
    requires Inv(ids, s) && l in ids && s.nodes[l].role == Leader
    ensures AllUp(ids, s, s, l, {})
  {
  }

  lemma {:induction false} CatchUpAll(ids: set<NodeId>, s: State, l: NodeId, todo: set<NodeId>) returns (acts: seq<Action>, s': State)
    requires Inv(ids, s) && l in ids && todo <= ids - {l} && s.nodes[l].role == Leader
    requires NoneAhead(s, l, todo)
    ensures Leads(s, acts, s') && AllUp(ids, s, s', l, todo)
    decreases |todo|
  {
    if todo == {} {
      acts, s' := [], s;
      LeadsNowhere(s);
      NoneToDo(ids, s, l);
    } else {
      var p :| p in todo;
      var rest := todo - {p};
      var s1;
      acts, s1 := CatchUp(ids, s, l, p);
      StillNoneAhead(ids, s, s1, l, p, rest);
      var more;
      more, s' := CatchUpAll(ids, s1, l, rest);
      LeadsOn(s, acts, s1, more, s');
      acts := acts + more;
      assert todo == rest + {p};
      UpBefore(ids, s, s1, s', l, p, rest);
    }
  }

  // ---- Committing ----

  // A leader whose followers all match commits its last entry, if that is of its term.
  lemma MatchedCommits(ids: set<NodeId>, s: State, l: NodeId)
    requires Inv(ids, s) && l in ids && s.nodes[l].role == Leader && Quorate(s.nodes[l])
    requires s.nodes[l].peers != {} && forall p | p in s.nodes[l].peers :: MatchedAll(s.nodes[l], p)
    requires LastIndex(s.nodes[l].log) > 0 && LastTerm(s.nodes[l].log) == s.nodes[l].term
    ensures s.nodes[l].commit >= LastIndex(s.nodes[l].log)
  {
    var x := s.nodes[l];
    assert NodeOk(ids, s.hist, s.net, l, x);
    var i := LastIndex(x.log);
    assert x.Matched(i) == x.peers by {
      forall p | p in x.peers ensures p in x.Matched(i) {
        assert MatchedAll(x, p);
      }
    }
    assert x.Committable(i);
  }

  // The leader commits its log: through its followers, or alone.
  lemma LeaderCommits(ids: set<NodeId>, s: State, l: NodeId) returns (acts: seq<Action>, s': State)
    requires Inv(ids, s) && l in ids && s.nodes[l].role == Leader
    requires LastIndex(s.nodes[l].log) > 0 && LastTerm(s.nodes[l].log) == s.nodes[l].term
    requires NoneAhead(s, l, ids)
    ensures Leads(s, acts, s') && Inv(ids, s') && StillLeads(s.nodes[l], s'.nodes[l])
    ensures s'.nodes[l].commit >= LastIndex(s'.nodes[l].log) && NoneAhead(s', l, ids)
  {
    assert NodeOk(ids, s.hist, s.net, l, s.nodes[l]);
    if s.nodes[l].peers == {} {
      acts, s' := [SoloCommit(l)], Next(s, SoloCommit(l));
      LeadsNowhere(s);
      LeadsStep(s, [], s, SoloCommit(l));
      assert [] + [SoloCommit(l)] == acts;
      NextOk(ids, s, SoloCommit(l));
    } else {
      acts, s' := CatchUpAll(ids, s, l, s.nodes[l].peers);
      MatchedCommits(ids, s', l);
      forall p | p in ids ensures p in s'.nodes && s'.nodes[p].term <= s'.nodes[l].term {
        assert p in s.nodes[l].peers ==> CaughtUp(s.nodes[l], s'.nodes[p]);
      }
    }
  }

  // An entry holds `data` at index `i` on every node, committed.
  ghost predicate CommittedOnAll(ids: set<NodeId>, s: State, i: nat, data: seq<Byte>) {
    s.nodes.Keys == ids && forall n | n in ids :: CommittedOn(s.nodes[n], i, data)
  }

  predicate CommittedOn(x: NodeState, i: nat, data: seq<Byte>) {
    i <= x.commit && i < |x.log| && x.log[i].data == data
  }

  lemma Proposes(ids: set<NodeId>, s: State, l: NodeId, data: seq<Byte>) returns (acts: seq<Action>, s': State, i: nat)
    requires Inv(ids, s) && l in ids && s.nodes[l].role == Leader && NoneAhead(s, l, ids)
    ensures Leads(s, acts, s') && Inv(ids, s') && NoneAhead(s', l, ids) && s.nodes[l].Propose(data).1 == Some(i)
    ensures
      var x := s'.nodes[l];
      x.role == Leader && 0 < i == LastIndex(x.log) && |x.log| == i + 1 && LastTerm(x.log) == x.term && x.log[i].data == data
  {
    assert NodeOk(ids, s.hist, s.net, l, s.nodes[l]);
    i := |s.nodes[l].log|;
    acts, s' := [] + [Propose(l, data)], Next(s, Propose(l, data));
    LeadsNowhere(s);
    LeadsStep(s, [], s, Propose(l, data));
    NextOk(ids, s, Propose(l, data));
  }

  // A leader no node is ahead of gets any proposal committed on all nodes.
  lemma ProposalCommits(ids: set<NodeId>, s: State, l: NodeId, data: seq<Byte>) returns (acts: seq<Action>, s': State)
    requires Inv(ids, s) && l in ids && s.nodes[l].role == Leader
    requires NoneAhead(s, l, ids)
    ensures Leads(s, acts, s') && s.nodes[l].Propose(data).1.Some?
    ensures CommittedOnAll(ids, s', s.nodes[l].Propose(data).1.value, data)
  {
    var s1, s2, i, more;
    acts, s1, i := Proposes(ids, s, l, data);
    more, s2 := LeaderCommits(ids, s1, l);
    LeadsOn(s, acts, s1, more, s2);
    acts := acts + more;
    assert NodeOk(ids, s2.hist, s2.net, l, s2.nodes[l]);
    more, s' := CatchUpAll(ids, s2, l, s2.nodes[l].peers);
    LeadsOn(s, acts, s2, more, s');
    acts := acts + more;
    EntrySpread(ids, s2, s', l, i, data);
  }

  lemma EntrySpread(ids: set<NodeId>, s: State, s': State, l: NodeId, i: nat, data: seq<Byte>)
    requires AllUp(ids, s, s', l, ids - {l}) && |s.nodes[l].log| == i + 1 && s.nodes[l].log[i].data == data && s.nodes[l].commit >= i
    ensures CommittedOnAll(ids, s', i, data)
  {
    forall n | n in ids ensures CommittedOn(s'.nodes[n], i, data) {
      if n != l {
        assert CaughtUp(s.nodes[l], s'.nodes[n]);
      }
    }
  }

  // ---- Winning an election ----

  predicate WouldVote(x: NodeState, y: NodeState) {
    y.term < x.term && UpToDate(x.log, y.log)
  }

  function Ballot(x: NodeState): VoteReq { VoteReq(x.term, x.id, LastIndex(x.log), LastTerm(x.log)) }

  // Candidate `c` still needs votes, and all of `todo` would give theirs.
  ghost predicate Standing(ids: set<NodeId>, s: State, c: NodeId, todo: set<NodeId>) {
    && Inv(ids, s) && c in ids && todo <= ids - {c}
    && var x := s.nodes[c];
       && x.role == Candidate && x.votes < x.Quorum() && x.votes + |todo| == |ids|
       && Ballot(x) in s.net.voteReqs && c in s.net.rounds
       && s.net.rounds[c].req == Ballot(x) && todo <= s.net.rounds[c].pending
       && forall v | v in todo :: WouldVote(x, s.nodes[v])
  }

  // `c` leads, and no node is ahead of it.
  ghost predicate InCharge(ids: set<NodeId>, s: State, c: NodeId) {
    Inv(ids, s) && c in ids && s.nodes[c].role == Leader && NoneAhead(s, c, ids)
  }

  // A leader that has heard of nobody yet: it would send each peer what comes after its log.
  predicate Unheard(x: NodeState) {
    forall p | p in x.peers :: p in x.matchIndex && x.matchIndex[p] == 0 && x.NextIndexFor(p) == |x.log|
  }

  predicate Polled(s: State, s': State, c: NodeId, v: NodeId)
    requires c in s.nodes && v in s.nodes
  {
    s'.nodes == s.nodes[v := s.nodes[v].StepDown(s.nodes[c].term).(votedFor := Some(c))]
                       [c := s.nodes[c].HandleVoteResponse(VoteResp(s.nodes[c].term, true)).0]
  }

  // One vote asked for, given and counted.
  lemma Poll(ids: set<NodeId>, s: State, c: NodeId, todo: set<NodeId>, v: NodeId) returns (acts: seq<Action>, s': State)
    requires Standing(ids, s, c, todo) && v in todo
    ensures Leads(s, acts, s') && Inv(ids, s') && Polled(s, s', c, v)
    ensures Ballot(s.nodes[c]) in s'.net.voteReqs && c in s'.net.rounds
    ensures s'.net.rounds[c] == s.net.rounds[c].(pending := s.net.rounds[c].pending - {v})
  {
    var x, y := s.nodes[c], s.nodes[v];
    assert NodeOk(ids, s.hist, s.net, c, x) && NodeOk(ids, s.hist, s.net, v, y);
    assert WouldVote(x, y);
    var req, resp := Ballot(x), VoteResp(x.term, true);
    assert y.HandleRequestVote(req) == (y.StepDown(x.term).(votedFor := Some(c)), resp);
    var s1 := Next(s, DeliverVote(v, req));
    s' := Next(s1, HandleVote(c, v, resp));
    LeadsNowhere(s);
    LeadsStep(s, [], s, DeliverVote(v, req));
    LeadsStep(s, [] + [DeliverVote(v, req)], s1, HandleVote(c, v, resp));
    acts := [] + [DeliverVote(v, req)] + [HandleVote(c, v, resp)];
    NextOk(ids, s, DeliverVote(v, req));
    NextOk(ids, s1, HandleVote(c, v, resp));
  }

  lemma PolledNoneAhead(ids: set<NodeId>, s: State, s': State, c: NodeId, v: NodeId)
    requires Inv(ids, s) && c in ids && v in ids && c != v && Polled(s, s', c, v) && NoneAhead(s, c, ids)
    requires s.nodes[c].role == Candidate
    ensures s'.nodes[c].term == s.nodes[c].term && NoneAhead(s', c, ids)
  {
  }

  // The vote either wins the election or leaves one vote less to get.
  lemma PolledStanding(ids: set<NodeId>, s: State, s': State, c: NodeId, todo: set<NodeId>, v: NodeId)
    requires Standing(ids, s, c, todo) && v in todo && Inv(ids, s') && Polled(s, s', c, v)
    requires Ballot(s.nodes[c]) in s'.net.voteReqs && c in s'.net.rounds
    requires s'.net.rounds[c] == s.net.rounds[c].(pending := s.net.rounds[c].pending - {v})
    ensures if s.nodes[c].HandleVoteResponse(VoteResp(s.nodes[c].term, true)).1
            then s'.nodes[c].role == Leader && Unheard(s'.nodes[c]) else Standing(ids, s', c, todo - {v})
  {
    var x, x' := s.nodes[c], s'.nodes[c];
    assert NodeOk(ids, s.hist, s.net, c, x);
    if x'.role != Leader {
      assert x' == x.(votes := x.votes + 1);
      forall w | w in todo - {v} ensures WouldVote(x', s'.nodes[w]) {
        assert WouldVote(x, s.nodes[w]);
      }
    }
  }

  // With everyone left to ask willing, the candidate wins.
  lemma {:induction false} Gather(ids: set<NodeId>, s: State, c: NodeId, todo: set<NodeId>) returns (acts: seq<Action>, s': State)
    requires Standing(ids, s, c, todo) && NoneAhead(s, c, ids)
    ensures Leads(s, acts, s') && InCharge(ids, s', c) && Unheard(s'.nodes[c])
    decreases |todo|
  {
    VotesAreMissing(ids, s, c, todo);
    var v :| v in todo;
    var s1;
    acts, s1 := Poll(ids, s, c, todo, v);
    PolledNoneAhead(ids, s, s1, c, v);
    PolledStanding(ids, s, s1, c, todo, v);
    if s.nodes[c].HandleVoteResponse(VoteResp(s.nodes[c].term, true)).1 {
      s' := s1;
    } else {
      var more;
      more, s' := Gather(ids, s1, c, todo - {v});
      LeadsOn(s, acts, s1, more, s');
      acts := acts + more;
    }
  }

  lemma VotesAreMissing(ids: set<NodeId>, s: State, c: NodeId, todo: set<NodeId>)
    requires Standing(ids, s, c, todo)
    ensures todo != {}
  {
    assert NodeOk(ids, s.hist, s.net, c, s.nodes[c]);
    QuorumIsMajority(ids, c, s.nodes[c]);
  }

  // The log of `c` is as recent as that of every node.
  ghost predicate MostRecent(s: State, c: NodeId, ns: set<NodeId>) {
    c in s.nodes && forall n | n in ns :: n in s.nodes && UpToDate(s.nodes[c].log, s.nodes[n].log)
  }

  // What standing does, for a node that does not win at once.
  lemma StartOne(ids: set<NodeId>, s: State, c: NodeId)
    requires Inv(ids, s) && c in ids
    ensures
      var x, s' := s.nodes[c], Next(s, StartElection(c));
      var y := s'.nodes[c];
      && Inv(ids, s') && s'.nodes == s.nodes[c := y] && y.term == x.term + 1 && y.log == x.log && y.peers == ids - {c}
      && ((y.role == Leader && Unheard(y))
          || (&& y.role == Candidate && y.votes == 1 < y.Quorum() && Ballot(y) in s'.net.voteReqs
              && c in s'.net.rounds && s'.net.rounds[c] == Round(Ballot(y), ids - {c})))
  {
    assert NodeOk(ids, s.hist, s.net, c, s.nodes[c]);
    NextOk(ids, s, StartElection(c));
  }

  lemma Stands(ids: set<NodeId>, s: State, c: NodeId)
    requires Inv(ids, s) && c in ids && NoneAhead(s, c, ids) && MostRecent(s, c, ids)
    ensures
      var s' := Next(s, StartElection(c));
      && Inv(ids, s') && NoneAhead(s', c, ids)
      && ((s'.nodes[c].role == Leader && Unheard(s'.nodes[c])) || Standing(ids, s', c, ids - {c}))
  {
    StartOne(ids, s, c);
    var s' := Next(s, StartElection(c));
    var y, others := s'.nodes[c], ids - {c};
    StandingOf(ids, s, s', c, y, others);
  }

  lemma StandingOf(ids: set<NodeId>, s: State, s': State, c: NodeId, y: NodeState, others: set<NodeId>)
    requires Inv(ids, s) && Inv(ids, s') && c in ids && others == ids - {c} && s'.nodes == s.nodes[c := y]
    requires NoneAhead(s, c, ids) && MostRecent(s, c, ids) && y.term == s.nodes[c].term + 1 && y.log == s.nodes[c].log
    ensures NoneAhead(s', c, ids)
    ensures
      && y.role == Candidate && y.votes == 1 < y.Quorum() && Ballot(y) in s'.net.voteReqs
      && c in s'.net.rounds && s'.net.rounds[c] == Round(Ballot(y), others)
      ==> Standing(ids, s', c, others)
  {
    assert ids == others + {c};
  }

  lemma Elects(ids: set<NodeId>, s: State, c: NodeId) returns (acts: seq<Action>, s': State)
    requires Inv(ids, s) && c in ids && NoneAhead(s, c, ids) && MostRecent(s, c, ids)
    ensures Leads(s, acts, s') && InCharge(ids, s', c) && Unheard(s'.nodes[c])
  {
    var s1 := Next(s, StartElection(c));
    Stands(ids, s, c);
    LeadsNowhere(s);
    LeadsStep(s, [], s, StartElection(c));
    acts := [] + [StartElection(c)];
    if s1.nodes[c].role == Leader {
      s' := s1;
    } else {
      var more;
      more, s' := Gather(ids, s1, c, ids - {c});
      LeadsOn(s, acts, s1, more, s');
      acts := acts + more;
    }
  }

  // A node may stand again and again, until it has reached any term.
  lemma {:induction false} Raise(ids: set<NodeId>, s: State, c: NodeId, t: nat) returns (acts: seq<Action>, s': State)
    requires Inv(ids, s) && c in ids
    ensures Leads(s, acts, s') && Inv(ids, s')
    ensures s'.nodes[c].term >= t && s'.nodes[c].log == s.nodes[c].log
    ensures forall n | n in ids && n != c :: s'.nodes[n] == s.nodes[n]
    decreases t - s.nodes[c].term
  {
    if s.nodes[c].term >= t {
      acts, s' := [], s;
      LeadsNowhere(s);
    } else {
      var s1 := Next(s, StartElection(c));
      NextOk(ids, s, StartElection(c));
      LeadsNowhere(s);
      LeadsStep(s, [], s, StartElection(c));
      var more;
      more, s' := Raise(ids, s1, c, t);
      LeadsOn(s, [] + [StartElection(c)], s1, more, s');
      acts := [] + [StartElection(c)] + more;
    }
  }

  lemma {:induction false} HighestTerm(s: State, ns: set<NodeId>) returns (t: nat)
    requires ns <= s.nodes.Keys
    ensures forall n | n in ns :: s.nodes[n].term <= t
    decreases |ns|
  {
    t := 0;
    if ns != {} {
      var n :| n in ns;
      t := HighestTerm(s, ns - {n});
      t := Max(t, s.nodes[n].term);
    }
  }

  lemma {:induction false} SomeMostRecent(s: State, ns: set<NodeId>) returns (c: NodeId)
    requires ns <= s.nodes.Keys && ns != {}
    ensures c in ns && MostRecent(s, c, ns)
    decreases |ns|
  {
    c :| c in ns;
    if ns != {c} {
      var d := SomeMostRecent(s, ns - {c});
      if !UpToDate(s.nodes[c].log, s.nodes[d].log) {
        c := d;
      }
    }
  }

  // ---- The theorem ----

  // Whatever has happened, the run can go on so that a new entry with the data is
  // committed, at one index, on every node.
  lemma AlwaysAvailable(ids: set<NodeId>, run: seq<State>, actions: seq<Action>, data: seq<Byte>)
    returns (run': seq<State>, actions': seq<Action>, i: nat)
    requires ids != {} && IsRun(ids, run, actions)
    ensures IsRun(ids, run', actions') && run <= run' && actions <= actions'
    ensures CommittedOnAll(ids, run'[|run'| - 1], i, data)
  {
    var s := run[|run| - 1];
    RunOk(ids, run, actions, |run| - 1);
    var acts, s';
    acts, s', i := CanCommit(ids, s, data);
    run', actions' := LeadsRun(ids, run, actions, acts, s');
  }

  lemma CanCommit(ids: set<NodeId>, s: State, data: seq<Byte>) returns (acts: seq<Action>, s': State, i: nat)
    requires ids != {} && Inv(ids, s)
    ensures Leads(s, acts, s') && CommittedOnAll(ids, s', i, data)
  {
    var c := SomeMostRecent(s, ids);
    var t := HighestTerm(s, ids);
    var s1, s2, more;
    acts, s1 := Raise(ids, s, c, t);
    more, s2 := Elects(ids, s1, c);
    LeadsOn(s, acts, s1, more, s2);
    acts := acts + more;
    i := s2.nodes[c].Propose(data).1.value;
    more, s' := ProposalCommits(ids, s2, c, data);
    LeadsOn(s, acts, s2, more, s');
    acts := acts + more;
  }
}
