// State-machine safety. The leader takes a success reply's `match_index` at
// face value, though it is the follower's last index and may come from an
// earlier term; so the result is about runs in which each accepted success
// reply is of the leader's own term and its report is true: up to the index
// reported the follower had the leader's log. RaftDivergence says when a report
// is true, and shows that with false ones the nodes can diverge.
module RaftSafety {
  import opened RaftLog
  import opened RaftNode
  import opened RaftCluster
  import opened RaftInvariants

  // The leader acts on this reply as a success.
  predicate Accepted(x: NodeState, resp: AppendResp) {
    resp.success && resp.term <= x.term && x.role == Leader
  }

  // Delivering `req` to node `n` in state `s` gives the success `resp`, and up to the
  // index it reports the node's log is then that of the request's leader.
  predicate TrueReport(s: State, n: NodeId, req: AppendReq, resp: AppendResp) {
    && n in s.nodes && req.term in s.hist.leaderLogs
    && var (y, r) := s.nodes[n].HandleAppendEntries(req);
       r == resp && resp.success && Shared(y.log, s.hist.leaderLogs[req.term], resp.matchIndex)
  }

  // If step `k` accepts a success reply, it is of the leader's term, and a delivery
  // earlier in the run gave it with a true report.
  ghost predicate HonestAt(run: seq<State>, actions: seq<Action>, k: nat)
    requires k < |run| && k < |actions|
  {
    var s, a := run[k], actions[k];
    a.HandleAppend? && a.n in s.nodes && Accepted(s.nodes[a.n], a.resp) ==>
      && a.req.term == s.nodes[a.n].term
      && exists j :: 0 <= j < k && DeliversTruth(run, actions, j, a.follower, a.req, a.resp)
  }

  ghost predicate DeliversTruth(run: seq<State>, actions: seq<Action>, j: nat, n: NodeId, req: AppendReq, resp: AppendResp)
    requires j < |run| && j < |actions|
  {
    actions[j] == DeliverAppend(n, req) && TrueReport(run[j], n, req, resp)
  }

  ghost predicate IsHonestRun(ids: set<NodeId>, run: seq<State>, actions: seq<Action>) {
    && IsRun(ids, run, actions)
    && forall k | 0 <= k < |actions| :: HonestAt(run, actions, k)
  }

  // What such a step may rely on: the follower has acknowledged what is reported.
  ghost predicate Honest(s: State, a: Action) {
    a.HandleAppend? && a.n in s.nodes && Accepted(s.nodes[a.n], a.resp) ==>
      a.req.term == s.nodes[a.n].term && HasAcked(s.hist, a.req.term, a.follower, a.resp.matchIndex)
  }

  // ---- The invariant of honest runs ----

  predicate UpToDate(c: Entries, v: Entries) {
    LastTerm(c) > LastTerm(v) || (LastTerm(c) == LastTerm(v) && |c| >= |v|)
  }

  // The leader log of term `t` up to index `i`.
  function Upto(h: History, t: nat, i: nat): Entries
    requires t in h.leaderLogs && i < |h.leaderLogs[t]|
  {
    h.leaderLogs[t][..i + 1]
  }

  predicate AckBound(h: History, t: nat, n: NodeId) {
    (t, n) in h.acked ==> t in h.elected && t in h.leaderLogs && h.acked[(t, n)] < |h.leaderLogs[t]|
  }

  // The leader of term `u` was elected without index `i` of term `t`'s log.
  predicate Misses(h: History, t: nat, i: nat, u: nat) {
    && t in h.leaderLogs && i < |h.leaderLogs[t]|
    && t < u && u in h.elected && !(Upto(h, t, i) <= h.elected[u].log)
  }

  ghost predicate Lost(h: History, t: nat, i: nat, last: nat) {
    exists u: nat :: u <= last && Misses(h, t, i, u)
  }

  predicate HasAcked(h: History, t: nat, n: NodeId, i: nat) {
    (t, n) in h.acked && i <= h.acked[(t, n)]
  }

  // What was acknowledged stays, unless a later leader did without it.
  ghost predicate Kept(h: History, n: NodeId, x: NodeState, t: nat, i: nat) {
    HasAcked(h, t, n, i) && AckBound(h, t, n) ==> Upto(h, t, i) <= x.log || Lost(h, t, i, x.term)
  }

  // The same at the time of a vote in term `u` that counted.
  ghost predicate VoteKept(h: History, n: NodeId, t: nat, i: nat, u: nat) {
    HasAcked(h, t, n, i) && AckBound(h, t, n) && t < u && (u, n) in h.ballots ==>
      || Upto(h, t, i) <= h.ballots[(u, n)].voterLog
      || Lost(h, t, i, u - 1)
      || (u in h.elected && n !in h.elected[u].voters)
  }

  predicate CandOk(h: History, t: nat, n: NodeId) {
    (t, n) in h.candLogs ==>
      Backed(h, h.candLogs[(t, n)]) && WellFormedLog(h.candLogs[(t, n)], t) && Below(h.candLogs[(t, n)], t)
  }

  predicate BallotOk(h: History, t: nat, n: NodeId) {
    (t, n) in h.ballots ==>
      var b := h.ballots[(t, n)];
      && (t, b.candidate) in h.candLogs && UpToDate(h.candLogs[(t, b.candidate)], b.voterLog)
      && Backed(h, b.voterLog) && WellFormedLog(b.voterLog, t)
      && (n == b.candidate ==> b.voterLog == h.candLogs[(t, n)])
  }

  predicate WinnerOk(h: History, t: nat) {
    t in h.elected ==>
      (t, h.elected[t].leader) in h.candLogs && h.candLogs[(t, h.elected[t].leader)] == h.elected[t].log
  }

  ghost predicate SafeHist(h: History) {
    && (forall t, n :: AckBound(h, t, n))
    && (forall t, n :: CandOk(h, t, n))
    && (forall t, n :: BallotOk(h, t, n))
    && (forall t :: WinnerOk(h, t))
    && (forall n, t, i, u :: VoteKept(h, n, t, i, u))
  }

  function Ackers(ids: set<NodeId>, h: History, t: nat, i: nat): set<NodeId> {
    set n | n in ids && HasAcked(h, t, n, i)
  }

  // A majority acknowledged index `i` of term `t`, an entry of that very term.
  predicate Chosen(ids: set<NodeId>, h: History, t: nat, i: nat) {
    && t in h.elected && t in h.leaderLogs && i < |h.leaderLogs[t]|
    && (h.leaderLogs[t][i].term == t || |ids| == 1)
    && |Ackers(ids, h, t, i)| >= |ids| / 2 + 1
  }

  predicate CommittedBy(ids: set<NodeId>, h: History, log: Entries, c: nat, last: nat, t: nat, i: nat) {
    && t <= last && c <= i && Chosen(ids, h, t, i)
    && c < |log| && log[..c + 1] == h.leaderLogs[t][..c + 1]
  }

  ghost predicate Committed(ids: set<NodeId>, h: History, log: Entries, c: nat, last: nat) {
    && c < |log|
    && (c > 0 ==> exists t: nat, i: nat :: CommittedBy(ids, h, log, c, last, t, i))
  }

  predicate Tracks(h: History, x: NodeState, p: NodeId) {
    p in x.nextIndex && p in x.matchIndex ==>
      && x.nextIndex[p] <= |x.log|
      && (x.matchIndex[p] == 0 || HasAcked(h, x.term, p, x.matchIndex[p]))
  }

  predicate AckPast(h: History, n: NodeId, x: NodeState, t: nat) {
    (t, n) in h.acked ==> t <= x.term
  }

  ghost predicate SafeNode(ids: set<NodeId>, h: History, n: NodeId, x: NodeState) {
    && (forall t :: AckPast(h, n, x, t))
    && (forall t, i :: Kept(h, n, x, t, i))
    && (x.role == Leader ==> forall p :: Tracks(h, x, p))
    && Committed(ids, h, x.log, x.commit, x.term)
  }

  predicate VoteReqOk(h: History, req: VoteReq) {
    && (req.term, req.candidate) in h.candLogs
    && req.lastIndex == LastIndex(h.candLogs[(req.term, req.candidate)])
    && req.lastTerm == LastTerm(h.candLogs[(req.term, req.candidate)])
  }

  // The whole suffix was shipped, so the leader's commit index is covered.
  ghost predicate GoodReq(ids: set<NodeId>, h: History, req: AppendReq) {
    && req.term in h.elected && req.term in h.leaderLogs && InRange(h.leaderLogs[req.term], req)
    && req.leaderCommit <= req.prevIndex + |req.entries|
    && Committed(ids, h, h.leaderLogs[req.term], req.leaderCommit, req.term)
  }

  ghost predicate SafeNet(ids: set<NodeId>, h: History, net: Net) {
    && (forall m {:trigger VoteReqOk(h, m)} | m in net.voteReqs :: VoteReqOk(h, m))
    && (forall m: (NodeId, AppendReq) {:trigger GoodReq(ids, h, m.1)} | m in net.appendReqs :: GoodReq(ids, h, m.1))
  }

  ghost predicate Safe(ids: set<NodeId>, s: State) {
    && Inv(ids, s)
    && SafeHist(s.hist)
    && SafeNet(ids, s.hist, s.net)
    && forall n {:trigger SafeNode(ids, s.hist, n, s.nodes[n])} | n in ids :: SafeNode(ids, s.hist, n, s.nodes[n])
  }

  // ---- Leader completeness ----

  // A log at least as up to date as one holding an entry of term `t` at `i`
  // holds it too, provided every leader between `t` and `u` does.
  lemma UpToDateHolds(ids: set<NodeId>, h: History, t: nat, i: nat, u: nat, c: Entries, v: Entries)
    requires HistOk(ids, h) && t in h.leaderLogs && 1 <= i < |h.leaderLogs[t]| && h.leaderLogs[t][i].term == t
    requires Backed(h, c) && WellFormedLog(c, u) && Below(c, u) && Backed(h, v) && WellFormedLog(v, u)
    requires UpToDate(c, v) && Upto(h, t, i) <= v
    requires forall w | t < w < u :: !Misses(h, t, i, w)
    ensures Upto(h, t, i) <= c
  {
    var tv, tc := LastTerm(v), LastTerm(c);
    assert v[i] == Upto(h, t, i)[i];
    assert BackedAt(h, v, |v| - 1) && v[..|v| - 1 + 1] == v;
    assert ElectionOk(ids, h, tv);
    assert EntryOk(h.leaderLogs[tv], tv, i);
    assert |c| > 1 by { assert EntryOk(v, u, |v| - 1); }
    assert BackedAt(h, c, |c| - 1) && c[..|c| - 1 + 1] == c;
    assert ElectionOk(ids, h, tc);
    if tc > tv {
      assert EntryBelow(c, u, |c| - 1);
      assert !Misses(h, t, i, tc);
      assert |c| - 1 < |h.elected[tc].log| ==> EntryBelow(h.elected[tc].log, tc, |c| - 1);
    }
  }

  // Every leader of a later term was elected with every chosen entry.
  lemma {:induction false} LeaderCompleteness(ids: set<NodeId>, h: History, t: nat, i: nat, u: nat)
    requires HistOk(ids, h) && SafeHist(h) && Chosen(ids, h, t, i) && t < u && u in h.elected
    ensures Upto(h, t, i) <= h.elected[u].log
    decreases u
  {
    forall w | t < w < u ensures !Misses(h, t, i, w) {
      if w in h.elected {
        LeaderCompleteness(ids, h, t, i, w);
      }
    }
    assert ElectionOk(ids, h, u) && ElectionOk(ids, h, t) && WinnerOk(h, u);
    var e := h.elected[u];
    var w := QuorumsMeet(ids, Ackers(ids, h, t, i), e.voters);
    assert Voted(h, u, w, e.leader) && VoteKept(h, w, t, i, u) && AckBound(h, t, w);
    assert BallotOk(h, u, w) && CandOk(h, u, e.leader);
    assert !Lost(h, t, i, u - 1);
    var v := h.ballots[(u, w)].voterLog;
    assert Upto(h, t, i) <= v;
    if w != e.leader && i > 0 {
      assert {w, e.leader} <= ids;
      SubsetSize({w, e.leader}, ids);
      UpToDateHolds(ids, h, t, i, u, e.log, v);
    }
  }

  // ---- What survives a growing history ----

  lemma UptoGrows(h: History, h': History, t: nat, i: nat)
    requires Grows(h, h') && t in h.leaderLogs && i < |h.leaderLogs[t]|
    ensures t in h'.leaderLogs && i < |h'.leaderLogs[t]| && Upto(h', t, i) == Upto(h, t, i)
  {
    assert GrowsTerm(h, h', t);
  }

  lemma LostGrows(h: History, h': History, t: nat, i: nat, last: nat, last': nat)
    requires Grows(h, h') && Lost(h, t, i, last) && last <= last'
    ensures Lost(h', t, i, last')
  {
    var u: nat :| u <= last && Misses(h, t, i, u);
    UptoGrows(h, h', t, i);
    assert GrowsTerm(h, h', u);
    assert Misses(h', t, i, u);
  }

  lemma ChosenGrows(ids: set<NodeId>, h: History, h': History, t: nat, i: nat)
    requires Grows(h, h') && Chosen(ids, h, t, i)
    ensures Chosen(ids, h', t, i)
  {
    assert GrowsTerm(h, h', t);
    forall n | n in Ackers(ids, h, t, i) ensures n in Ackers(ids, h', t, i) {
      assert GrowsKey(h, h', t, n);
    }
    SubsetSize(Ackers(ids, h, t, i), Ackers(ids, h', t, i));
  }

  lemma CommittedGrows(ids: set<NodeId>, h: History, h': History, log: Entries, c: nat, last: nat, log': Entries, last': nat)
    requires Grows(h, h') && Committed(ids, h, log, c, last) && last <= last' && c < |log'| && log[..c + 1] == log'[..c + 1]
    ensures Committed(ids, h', log', c, last')
  {
    if c > 0 {
      var t: nat, i: nat :| CommittedBy(ids, h, log, c, last, t, i);
      ChosenGrows(ids, h, h', t, i);
      UptoGrows(h, h', t, c);
      assert CommittedBy(ids, h', log', c, last', t, i);
    }
  }

  lemma CommittedLess(ids: set<NodeId>, h: History, log: Entries, c: nat, last: nat, c': nat)
    requires Committed(ids, h, log, c, last) && c' <= c
    ensures Committed(ids, h, log, c', last)
  {
    if c' > 0 {
      var t: nat, i: nat :| CommittedBy(ids, h, log, c, last, t, i);
      assert log[..c' + 1] == log[..c + 1][..c' + 1];
      assert h.leaderLogs[t][..c' + 1] == h.leaderLogs[t][..c + 1][..c' + 1];
      assert CommittedBy(ids, h, log, c', last, t, i);
    }
  }

  // A log that only got longer keeps what it held.
  lemma KeptGrows(h: History, h': History, n: NodeId, x: NodeState, y: NodeState, t: nat, i: nat)
    requires Grows(h, h') && AckBound(h, t, n) && Kept(h, n, x, t, i) && x.log <= y.log && x.term <= y.term
    requires HasAcked(h', t, n, i) ==> HasAcked(h, t, n, i)
    ensures Kept(h', n, y, t, i)
  {
    if HasAcked(h', t, n, i) {
      UptoGrows(h, h', t, i);
      if Lost(h, t, i, x.term) {
        LostGrows(h, h', t, i, x.term, y.term);
      }
    }
  }

  lemma VoteKeptGrows(h: History, h': History, n: NodeId, t: nat, i: nat, u: nat)
    requires Grows(h, h') && AckBound(h, t, n) && VoteKept(h, n, t, i, u)
    requires HasAcked(h', t, n, i) ==> HasAcked(h, t, n, i)
    requires (u, n) in h'.ballots ==> (u, n) in h.ballots
    ensures VoteKept(h', n, t, i, u)
  {
    if HasAcked(h', t, n, i) && t < u && (u, n) in h'.ballots {
      UptoGrows(h, h', t, i);
      assert GrowsKey(h, h', u, n) && GrowsTerm(h, h', u);
      if Lost(h, t, i, u - 1) {
        LostGrows(h, h', t, i, u - 1, u - 1);
      }
    }
  }

  lemma AckBoundGrows(h: History, h': History, t: nat, n: NodeId)
    requires Grows(h, h') && AckBound(h, t, n) && ((t, n) in h'.acked ==> (t, n) in h.acked && h'.acked[(t, n)] == h.acked[(t, n)])
    ensures AckBound(h', t, n)
  {
    assert GrowsTerm(h, h', t);
  }

  lemma CandGrows(h: History, h': History, t: nat, n: NodeId)
    requires Grows(h, h') && CandOk(h, t, n) && ((t, n) in h'.candLogs ==> (t, n) in h.candLogs)
    ensures CandOk(h', t, n)
  {
    if (t, n) in h.candLogs {
      assert GrowsKey(h, h', t, n);
      BackedGrows(h, h', h.candLogs[(t, n)]);
    }
  }

  lemma BallotGrows(h: History, h': History, t: nat, n: NodeId)
    requires Grows(h, h') && BallotOk(h, t, n) && ((t, n) in h'.ballots ==> (t, n) in h.ballots)
    ensures BallotOk(h', t, n)
  {
    if (t, n) in h.ballots {
      assert GrowsKey(h, h', t, n) && GrowsKey(h, h', t, h.ballots[(t, n)].candidate);
      BackedGrows(h, h', h.ballots[(t, n)].voterLog);
    }
  }

  lemma WinnerGrows(h: History, h': History, t: nat)
    requires Grows(h, h') && WinnerOk(h, t) && (t in h'.elected ==> t in h.elected)
    ensures WinnerOk(h', t)
  {
    assert GrowsTerm(h, h', t);
    if t in h.elected {
      assert GrowsKey(h, h', t, h.elected[t].leader);
    }
  }

  lemma GoodReqGrows(ids: set<NodeId>, h: History, h': History, req: AppendReq)
    requires Grows(h, h') && GoodReq(ids, h, req)
    ensures GoodReq(ids, h', req)
  {
    assert ReqOk(h, req) && GrowsTerm(h, h', req.term);
    ReqGrows(h, h', req);
    CommittedGrows(ids, h, h', h.leaderLogs[req.term], req.leaderCommit, req.term, h'.leaderLogs[req.term], req.term);
  }

  lemma SafeNetGrows(ids: set<NodeId>, h: History, h': History, net: Net)
    requires Grows(h, h') && SafeNet(ids, h, net)
    ensures SafeNet(ids, h', net)
  {
    forall m | m in net.voteReqs ensures VoteReqOk(h', m) {
      assert VoteReqOk(h, m) && GrowsKey(h, h', m.term, m.candidate);
    }
    forall m: (NodeId, AppendReq) | m in net.appendReqs ensures GoodReq(ids, h', m.1) {
      assert GoodReq(ids, h, m.1);
      GoodReqGrows(ids, h, h', m.1);
    }
  }

  // A node whose log only grew and that acknowledged nothing new.
  predicate SameAcks(h: History, h': History, t: nat, n: NodeId) {
    (t, n) in h'.acked ==> (t, n) in h.acked && h'.acked[(t, n)] == h.acked[(t, n)]
  }

  lemma SafeNodeGrows(ids: set<NodeId>, h: History, h': History, n: NodeId, x: NodeState, y: NodeState)
    requires Grows(h, h') && SafeHist(h) && SafeNode(ids, h, n, x)
    requires x.log <= y.log && x.term <= y.term && x.commit == y.commit
    requires y.role == Leader ==> forall p :: Tracks(h, y, p)
    requires forall t :: SameAcks(h, h', t, n)
    ensures SafeNode(ids, h', n, y)
  {
    forall t ensures AckPast(h', n, y, t) {
      assert AckPast(h, n, x, t) && SameAcks(h, h', t, n);
    }
    forall t, i ensures Kept(h', n, y, t, i) {
      assert AckBound(h, t, n) && Kept(h, n, x, t, i) && SameAcks(h, h', t, n);
      KeptGrows(h, h', n, x, y, t, i);
    }
    CommittedGrows(ids, h, h', x.log, x.commit, x.term, y.log, y.term);
    if y.role == Leader {
      forall p ensures Tracks(h', y, p) {
        assert Tracks(h, y, p) && GrowsKey(h, h', y.term, p);
      }
    }
  }

  // All nodes but the one that acted.
  lemma OthersSafe(ids: set<NodeId>, s: State, n: NodeId, y: NodeState, net': Net, h': History)
    requires Safe(ids, s) && n in ids && Grows(s.hist, h')
    requires forall t, m | m != n :: SameAcks(s.hist, h', t, m)
    requires Inv(ids, State(s.nodes[n := y], net', h')) && SafeHist(h') && SafeNet(ids, h', net') && SafeNode(ids, h', n, y)
    ensures Safe(ids, State(s.nodes[n := y], net', h'))
  {
    var s' := State(s.nodes[n := y], net', h');
    forall m | m in ids ensures SafeNode(ids, h', m, s'.nodes[m]) {
      if m != n {
        assert SafeNode(ids, s.hist, m, s.nodes[m]);
        SafeNodeGrows(ids, s.hist, h', m, s.nodes[m], s.nodes[m]);
      }
    }
  }

  // What a step adds to the history has to be shown in order; the rest is.
  ghost predicate NewAck(h: History, h': History, t: nat, n: NodeId) {
    SameAcks(h, h', t, n) || (AckBound(h', t, n) && forall i: nat, u: nat :: VoteKept(h', n, t, i, u))
  }

  ghost predicate NewKey(h: History, h': History, t: nat, n: NodeId) {
    && ((t, n) in h'.candLogs && (t, n) !in h.candLogs ==> CandOk(h', t, n))
    && ((t, n) in h'.ballots && (t, n) !in h.ballots ==>
          BallotOk(h', t, n) && forall v: nat, i: nat :: VoteKept(h', n, v, i, t))
  }

  predicate NewWinner(h: History, h': History, t: nat) {
    t in h'.elected && t !in h.elected ==> WinnerOk(h', t)
  }

  lemma SafeHistStep(h: History, h': History)
    requires SafeHist(h) && Grows(h, h')
    requires forall t: nat, n: nat :: NewAck(h, h', t, n)
    requires forall t: nat, n: nat :: NewKey(h, h', t, n)
    requires forall t: nat :: NewWinner(h, h', t)
    ensures SafeHist(h')
  {
    forall t: nat, n: nat ensures AckBound(h', t, n) && CandOk(h', t, n) && BallotOk(h', t, n) {
      assert AckBound(h, t, n) && CandOk(h, t, n) && BallotOk(h, t, n);
      assert NewAck(h, h', t, n) && NewKey(h, h', t, n);
      if SameAcks(h, h', t, n) {
        AckBoundGrows(h, h', t, n);
      }
      if (t, n) in h'.candLogs ==> (t, n) in h.candLogs {
        CandGrows(h, h', t, n);
      }
      if (t, n) in h'.ballots ==> (t, n) in h.ballots {
        BallotGrows(h, h', t, n);
      }
    }
    forall t: nat ensures WinnerOk(h', t) {
      assert WinnerOk(h, t) && NewWinner(h, h', t);
      if t in h'.elected ==> t in h.elected {
        WinnerGrows(h, h', t);
      }
    }
    forall n: nat, t: nat, i: nat, u: nat ensures VoteKept(h', n, t, i, u) {
      assert VoteKept(h, n, t, i, u) && AckBound(h, t, n);
      assert NewAck(h, h', t, n) && NewKey(h, h', u, n);
      if SameAcks(h, h', t, n) && ((u, n) in h'.ballots ==> (u, n) in h.ballots) {
        VoteKeptGrows(h, h', n, t, i, u);
      }
    }
  }

  lemma ElectSafe(ids: set<NodeId>, h: History, y: NodeState, voters: set<NodeId>)
    requires SafeHist(h) && Grows(h, Elect(h, y, voters))
    requires (y.term, y.id) in h.candLogs && h.candLogs[(y.term, y.id)] == y.log
    ensures SafeHist(Elect(h, y, voters))
  {
    var h' := Elect(h, y, voters);
    forall t: nat, n: nat ensures NewAck(h, h', t, n) && NewKey(h, h', t, n) {
      assert SameAcks(h, h', t, n);
    }
    SafeHistStep(h, h');
  }

  lemma StoodSafe(ids: set<NodeId>, h: History, net: Net, x: NodeState)
    requires HistOk(ids, h) && NodeOk(ids, h, net, x.id, x) && SafeHist(h) && SafeNode(ids, h, x.id, x)
    ensures SafeHist(Stood(h, x))
  {
    var h', n, u := Stood(h, x), x.id, x.term + 1;
    StoodOk(ids, h, net, x);
    WellFormedLater(x.log, x.term, x.term + 1);
    BackedGrows(h, h', x.log);
    forall v: nat, i: nat ensures VoteKept(h', n, v, i, u) {
      assert Kept(h, n, x, v, i) && AckBound(h, v, n);
      KeptGrows(h, h', n, x, x, v, i);
    }
    forall t: nat, m: nat ensures NewAck(h, h', t, m) && NewKey(h, h', t, m) {
      assert SameAcks(h, h', t, m);
    }
    SafeHistStep(h, h');
  }

  lemma StartSafeHist(ids: set<NodeId>, h: History, net: Net, x: NodeState)
    requires HistOk(ids, h) && NodeOk(ids, h, net, x.id, x) && SafeHist(h) && SafeNode(ids, h, x.id, x)
    ensures SafeHist(HistStart(h, x))
  {
    StoodSafe(ids, h, net, x);
    var y, h1 := x.StartElection(), Stood(h, x);
    if y.role == Leader {
      SoloTermIsFree(ids, h, net, x);
      ElectSafe(ids, h1, y, {x.id});
    }
  }

  // A new vote in term `u`: the leader of `u`, if any, did without this voter.
  lemma GrantVoteKept(ids: set<NodeId>, h: History, h': History, x: NodeState, u: nat, t: nat, i: nat)
    requires HistOk(ids, h) && SafeHist(h) && Grows(h, h') && h'.elected == h.elected && h'.acked == h.acked
    requires Kept(h, x.id, x, t, i) && x.term <= u && (u, x.id) !in h.ballots
    requires (u, x.id) in h'.ballots && h'.ballots[(u, x.id)].voterLog == x.log
    ensures VoteKept(h', x.id, t, i, u)
  {
    assert AckBound(h, t, x.id) && ElectionOk(ids, h, u);
    if HasAcked(h, t, x.id, i) && t < u {
      UptoGrows(h, h', t, i);
      if Lost(h, t, i, x.term) {
        var w: nat :| w <= x.term && Misses(h, t, i, w);
        if w < u {
          assert Lost(h, t, i, u - 1);
          LostGrows(h, h', t, i, u - 1, u - 1);
        } else {
          assert x.id in h.elected[u].voters ==> Voted(h, u, x.id, h.elected[u].leader);
        }
      }
    }
  }

  lemma GrantSafe(ids: set<NodeId>, h: History, net: Net, x: NodeState, req: VoteReq)
    requires HistOk(ids, h) && NodeOk(ids, h, net, x.id, x) && SafeHist(h) && SafeNode(ids, h, x.id, x)
    requires VoteReqOk(h, req) && req.candidate != x.id
    ensures SafeHist(HistGrant(h, x, req))
  {
    var h', n, u := HistGrant(h, x, req), x.id, req.term;
    GrantHist(ids, h, x, req);
    if h' != h {
      if x.term < u {
        WellFormedLater(x.log, x.term, u);
      }
      BackedGrows(h, h', x.log);
      forall t: nat, i: nat ensures VoteKept(h', n, t, i, u) {
        assert Kept(h, n, x, t, i);
        GrantVoteKept(ids, h, h', x, u, t, i);
      }
      assert CandOk(h, u, req.candidate);
      assert BallotOk(h', u, n);
      forall t: nat, m: nat ensures NewAck(h, h', t, m) && NewKey(h, h', t, m) {
        assert SameAcks(h, h', t, m);
      }
      SafeHistStep(h, h');
    }
  }

  lemma CountSafe(ids: set<NodeId>, h: History, net: Net, x: NodeState, voter: NodeId, resp: VoteResp)
    requires HistOk(ids, h) && NewVote(ids, h, net, x, voter, resp) && SafeHist(h)
    ensures SafeHist(HistCount(h, x, voter, resp))
  {
    var voters, h1, y := h.supporters[x.id] + {voter}, Counted(h, x, voter), x.HandleVoteResponse(resp).0;
    CountedOk(ids, h, net, x, voter, resp);
    forall t: nat, n: nat ensures NewAck(h, h1, t, n) && NewKey(h, h1, t, n) {
      assert SameAcks(h, h1, t, n);
    }
    SafeHistStep(h, h1);
    if y.role == Leader {
      QuorumIsMajority(ids, x.id, x);
      TermIsFree(ids, h, net, x.id, x, voters);
      ElectSafe(ids, h1, y, voters);
    }
  }

  lemma ProposeSafe(ids: set<NodeId>, h: History, x: NodeState, data: seq<Byte>)
    requires HistOk(ids, h) && x.role == Leader && LeaderOk(h, x.id, x) && SafeHist(h)
    ensures SafeHist(HistPropose(h, x, data))
  {
    var h' := HistPropose(h, x, data);
    ProposeLog(ids, h, x, data);
    forall t: nat, n: nat ensures NewAck(h, h', t, n) && NewKey(h, h', t, n) {
      assert SameAcks(h, h', t, n);
    }
    SafeHistStep(h, h');
  }

  // Acknowledging an index of the current term's leader log. The node has
  // cast no vote in a later term.
  lemma AckSafe(ids: set<NodeId>, h: History, net: Net, n: NodeId, x: NodeState, i: nat)
    requires HistOk(ids, h) && NodeOk(ids, h, net, n, x) && SafeHist(h)
    requires x.term in h.elected && x.term in h.leaderLogs && i < |h.leaderLogs[x.term]|
    ensures SafeHist(Ack(h, x.term, n, i))
  {
    var h' := Ack(h, x.term, n, i);
    AckFrame(ids, h, net, n, x, x.term, i);
    assert AckBound(h, x.term, n);
    forall j: nat, u: nat ensures VoteKept(h', n, x.term, j, u) {
      assert PastOk(h, n, x, u);
    }
    forall t: nat, m: nat ensures NewAck(h, h', t, m) && NewKey(h, h', t, m) {
      assert (t, m) != (x.term, n) ==> SameAcks(h, h', t, m);
    }
    SafeHistStep(h, h');
  }

  // ---- Each step keeps honest runs safe ----

  lemma StartSafe(ids: set<NodeId>, s: State, n: NodeId)
    requires Safe(ids, s) && n in ids
    ensures Safe(ids, Next(s, StartElection(n)))
  {
    var x, h := s.nodes[n], s.hist;
    var y, net', h' := x.StartElection(), NextNet(s.net, x, StartElection(n)), HistStart(h, x);
    assert NodeOk(ids, h, s.net, n, x) && SafeNode(ids, h, n, x);
    StartOk(ids, s, n);
    StartSafeHist(ids, h, s.net, x);
    SafeNetGrows(ids, h, h', s.net);
    assert SafeNet(ids, h', net');
    forall t: nat ensures SameAcks(h, h', t, n) {
    }
    if y.role == Leader {
      forall p ensures Tracks(h, y, p) {
      }
    }
    SafeNodeGrows(ids, h, h', n, x, y);
    OthersSafe(ids, s, n, y, net', h');
  }

  lemma VoteSafe(ids: set<NodeId>, s: State, n: NodeId, req: VoteReq)
    requires Safe(ids, s) && Enabled(s, DeliverVote(n, req))
    ensures Safe(ids, Next(s, DeliverVote(n, req)))
  {
    var x, h := s.nodes[n], s.hist;
    var y, net', h' := x.HandleRequestVote(req).0, NextNet(s.net, x, DeliverVote(n, req)), HistGrant(h, x, req);
    assert NodeOk(ids, h, s.net, n, x) && SafeNode(ids, h, n, x) && VoteReqOk(h, req);
    GrantOk(ids, s, n, req);
    GrantSafe(ids, h, s.net, x, req);
    SafeNetGrows(ids, h, h', s.net);
    assert SafeNet(ids, h', net');
    forall t: nat ensures SameAcks(h, h', t, n) {
    }
    if y.role == Leader {
      forall p ensures Tracks(h, y, p) {
        assert Tracks(h, x, p);
      }
    }
    SafeNodeGrows(ids, h, h', n, x, y);
    OthersSafe(ids, s, n, y, net', h');
  }

  lemma CountTracks(h: History, x: NodeState, resp: VoteResp, p: NodeId)
    requires x.role == Leader ==> Tracks(h, x, p)
    requires x.log != [] && x.nextIndex.Keys == x.matchIndex.Keys
    ensures x.HandleVoteResponse(resp).0.role == Leader ==> Tracks(h, x.HandleVoteResponse(resp).0, p)
  {
  }

  lemma CountStepSafe(ids: set<NodeId>, s: State, n: NodeId, voter: NodeId, resp: VoteResp)
    requires Safe(ids, s) && Enabled(s, HandleVote(n, voter, resp))
    ensures Safe(ids, Next(s, HandleVote(n, voter, resp)))
  {
    var x, h, a := s.nodes[n], s.hist, HandleVote(n, voter, resp);
    var y, net', h' := x.HandleVoteResponse(resp).0, NextNet(s.net, x, a), HistCount(h, x, voter, resp);
    assert NodeOk(ids, h, s.net, n, x) && SafeNode(ids, h, n, x) && RoundOk(ids, s.net, n);
    assert VoteReplyOk(ids, h, VoteReply(voter, s.net.rounds[n].req, resp));
    CountOk(ids, s, n, voter, resp);
    if resp.term <= x.term && x.role == Candidate && resp.granted {
      CountSafe(ids, h, s.net, x, voter, resp);
    }
    SafeNetGrows(ids, h, h', s.net);
    assert SafeNet(ids, h', net');
    forall t: nat ensures SameAcks(h, h', t, n) {
    }
    if y.role == Leader {
      forall p ensures Tracks(h, y, p) {
        assert x.role == Leader ==> Tracks(h, x, p);
        CountTracks(h, x, resp, p);
      }
    }
    SafeNodeGrows(ids, h, h', n, x, y);
    OthersSafe(ids, s, n, y, net', h');
  }

  lemma ProposeStepSafe(ids: set<NodeId>, s: State, n: NodeId, data: seq<Byte>)
    requires Safe(ids, s) && n in ids
    ensures Safe(ids, Next(s, Propose(n, data)))
  {
    var x, h := s.nodes[n], s.hist;
    var y, h' := x.Propose(data).0, HistPropose(h, x, data);
    assert NodeOk(ids, h, s.net, n, x) && SafeNode(ids, h, n, x);
    ProposeOk(ids, s, n, data);
    if x.role == Leader {
      ProposeSafe(ids, h, x, data);
      forall p ensures Tracks(h, y, p) {
        assert Tracks(h, x, p);
      }
    }
    SafeNetGrows(ids, h, h', s.net);
    forall t: nat ensures SameAcks(h, h', t, n) {
    }
    SafeNodeGrows(ids, h, h', n, x, y);
    OthersSafe(ids, s, n, y, s.net, h');
  }

  lemma HeartbeatStepSafe(ids: set<NodeId>, s: State, n: NodeId)
    requires Safe(ids, s) && n in ids
    ensures Safe(ids, Next(s, Heartbeat(n)))
  {
    var x, h, net' := s.nodes[n], s.hist, NextNet(s.net, s.nodes[n], Heartbeat(n));
    assert NodeOk(ids, h, s.net, n, x) && SafeNode(ids, h, n, x);
    HeartbeatOk(ids, s, n);
    forall m: (NodeId, AppendReq) | m in net'.appendReqs ensures GoodReq(ids, h, m.1) {
      if m in s.net.appendReqs {
        assert GoodReq(ids, h, m.1);
      } else {
        assert Tracks(h, x, m.0);
        HeartbeatReq(ids, h, s.net, x, m.0);
      }
    }
    assert SafeNet(ids, h, net') by {
      SafeNetGrows(ids, h, h, s.net);
    }
    OthersSafe(ids, s, n, x, net', h);
  }

  // ---- Accepting entries ----

  // A prefix common to the follower's log and the leader's survives the request.
  lemma CommonPrefixKept(ids: set<NodeId>, h: History, x: NodeState, req: AppendReq, prefix: Entries)
    requires HistOk(ids, h) && NodeShape(ids, x.id, x) && Backed(h, x.log)
    requires req.term in h.leaderLogs && InRange(h.leaderLogs[req.term], req)
    requires prefix <= x.log && prefix <= h.leaderLogs[req.term]
    ensures prefix <= x.HandleAppendEntries(req).0.log
  {
    AcceptLog(ids, h, x, req);
    var full, m := h.leaderLogs[req.term], Covered(req);
    if |prefix| > m {
      assert full[..m] == prefix[..m];
      assert full[..m] <= x.log;
    } else {
      assert prefix <= full[..m];
    }
    if 0 < req.prevIndex < |prefix| {
      assert x.log[req.prevIndex] == prefix[req.prevIndex] == full[req.prevIndex];
    }
  }

  lemma AcceptKept(ids: set<NodeId>, h: History, x: NodeState, req: AppendReq, t: nat, i: nat)
    requires HistOk(ids, h) && NodeShape(ids, x.id, x) && Backed(h, x.log)
    requires GoodReq(ids, h, req) && req.term >= x.term
    requires AckBound(h, t, x.id) && AckPast(h, x.id, x, t) && Kept(h, x.id, x, t, i)
    ensures Kept(h, x.id, x.HandleAppendEntries(req).0, t, i)
  {
    var y := x.HandleAppendEntries(req).0;
    if HasAcked(h, t, x.id, i) {
      if Lost(h, t, i, x.term) {
        assert Grows(h, h);
        LostGrows(h, h, t, i, x.term, y.term);
      } else if t < req.term && !(Upto(h, t, i) <= h.elected[req.term].log) {
        assert Misses(h, t, i, req.term);
      } else {
        assert ElectionOk(ids, h, req.term);
        assert Upto(h, t, i) <= h.leaderLogs[req.term];
        CommonPrefixKept(ids, h, x, req, Upto(h, t, i));
      }
    }
  }

  // What is committed is in the log of every leader of the same or a later term.
  lemma CommittedInLeader(ids: set<NodeId>, h: History, log: Entries, c: nat, last: nat, u: nat)
    requires HistOk(ids, h) && SafeHist(h) && Committed(ids, h, log, c, last) && last <= u && u in h.elected
    requires WellFormedLog(log, last)
    ensures u in h.leaderLogs && log[..c + 1] <= h.leaderLogs[u]
  {
    assert ElectionOk(ids, h, u);
    if c > 0 {
      var t: nat, i: nat :| CommittedBy(ids, h, log, c, last, t, i);
      assert h.leaderLogs[t][..c + 1] == Upto(h, t, i)[..c + 1];
      if t < u {
        LeaderCompleteness(ids, h, t, i, u);
      }
    }
  }

  // After a success the follower holds the leader's log as far as it was sent.
  lemma AcceptHolds(ids: set<NodeId>, h: History, x: NodeState, req: AppendReq)
    requires HistOk(ids, h) && NodeShape(ids, x.id, x) && Backed(h, x.log) && GoodReq(ids, h, req)
    requires x.HandleAppendEntries(req).1.success
    ensures
      var y, i := x.HandleAppendEntries(req).0, req.prevIndex + |req.entries|;
      y.term == req.term && Upto(h, req.term, i) <= y.log
  {
    AcceptLog(ids, h, x, req);
  }

  lemma OldCommitKept(ids: set<NodeId>, h: History, x: NodeState, req: AppendReq, y: NodeState)
    requires HistOk(ids, h) && SafeHist(h) && NodeShape(ids, x.id, x) && Backed(h, x.log)
    requires GoodReq(ids, h, req) && req.term >= x.term && Committed(ids, h, x.log, x.commit, x.term)
    requires y.log == x.HandleAppendEntries(req).0.log && y.term >= x.term
    ensures Committed(ids, h, y.log, x.commit, y.term)
  {
    CommittedInLeader(ids, h, x.log, x.commit, x.term, req.term);
    CommonPrefixKept(ids, h, x, req, x.log[..x.commit + 1]);
    assert Grows(h, h);
    CommittedGrows(ids, h, h, x.log, x.commit, x.term, y.log, y.term);
  }

  lemma NewCommitHeld(ids: set<NodeId>, h: History, req: AppendReq, y: NodeState, c: nat)
    requires GoodReq(ids, h, req) && c <= req.leaderCommit && req.term <= y.term
    requires Upto(h, req.term, req.prevIndex + |req.entries|) <= y.log
    ensures Committed(ids, h, y.log, c, y.term)
  {
    var full := h.leaderLogs[req.term];
    CommittedLess(ids, h, full, req.leaderCommit, req.term, c);
    assert full[..c + 1] == Upto(h, req.term, req.prevIndex + |req.entries|)[..c + 1];
    assert Grows(h, h);
    CommittedGrows(ids, h, h, full, c, req.term, y.log, y.term);
  }

  lemma AcceptCommitted(ids: set<NodeId>, h: History, x: NodeState, req: AppendReq)
    requires HistOk(ids, h) && SafeHist(h) && NodeShape(ids, x.id, x) && Backed(h, x.log)
    requires GoodReq(ids, h, req) && req.term >= x.term && Committed(ids, h, x.log, x.commit, x.term)
    ensures
      var y := x.HandleAppendEntries(req).0;
      Committed(ids, h, y.log, y.commit, y.term)
  {
    var (y, resp) := x.HandleAppendEntries(req);
    if y.commit == x.commit {
      OldCommitKept(ids, h, x, req, y);
    } else {
      AcceptHolds(ids, h, x, req);
      NewCommitHeld(ids, h, req, y, y.commit);
    }
  }

  // Acknowledging index `i`, held in common with the current leader.
  lemma AckedNode(ids: set<NodeId>, h: History, n: NodeId, y: NodeState, i: nat)
    requires SafeHist(h) && SafeHist(Ack(h, y.term, n, i)) && Grows(h, Ack(h, y.term, n, i)) && SafeNode(ids, h, n, y)
    requires y.term in h.leaderLogs && i < |h.leaderLogs[y.term]| && Upto(h, y.term, i) <= y.log
    ensures SafeNode(ids, Ack(h, y.term, n, i), n, y)
  {
    var h' := Ack(h, y.term, n, i);
    forall t: nat ensures AckPast(h', n, y, t) {
      assert AckPast(h, n, y, t);
    }
    forall t: nat, j: nat ensures Kept(h', n, y, t, j) {
      assert Kept(h, n, y, t, j) && AckBound(h, t, n);
      if HasAcked(h, t, n, j) || t != y.term {
        KeptGrows(h, h', n, y, y, t, j);
      } else if HasAcked(h', t, n, j) {
        assert Upto(h', t, j) <= Upto(h, t, i);
      }
    }
    CommittedGrows(ids, h, h', y.log, y.commit, y.term, y.log, y.term);
    if y.role == Leader {
      forall p ensures Tracks(h', y, p) {
        assert Tracks(h, y, p) && GrowsKey(h, h', y.term, p);
      }
    }
  }

  lemma AcceptNodeSafe(ids: set<NodeId>, h: History, x: NodeState, req: AppendReq)
    requires HistOk(ids, h) && SafeHist(h) && NodeShape(ids, x.id, x) && Backed(h, x.log)
    requires GoodReq(ids, h, req) && SafeNode(ids, h, x.id, x)
    ensures SafeNode(ids, h, x.id, x.HandleAppendEntries(req).0)
  {
    var y := x.HandleAppendEntries(req).0;
    if req.term >= x.term {
      forall t: nat ensures AckPast(h, x.id, y, t) {
        assert AckPast(h, x.id, x, t);
      }
      forall t: nat, i: nat ensures Kept(h, x.id, y, t, i) {
        assert AckBound(h, t, x.id) && AckPast(h, x.id, x, t) && Kept(h, x.id, x, t, i);
        AcceptKept(ids, h, x, req, t, i);
      }
      AcceptCommitted(ids, h, x, req);
    }
  }

  lemma AcceptAck(ids: set<NodeId>, h: History, net: Net, x: NodeState, req: AppendReq)
    requires HistOk(ids, h) && SafeHist(h) && NodeOk(ids, h, net, x.id, x)
    requires GoodReq(ids, h, req) && SafeNode(ids, h, x.id, x) && x.HandleAppendEntries(req).1.success
    ensures
      var h' := HistAccept(h, x, req);
      SafeHist(h') && SafeNode(ids, h', x.id, x.HandleAppendEntries(req).0)
  {
    var (y, resp) := x.HandleAppendEntries(req);
    var i := SharedIndex(h, req, y.log, resp.matchIndex);
    assert ReqOk(h, req);
    AcceptNode(ids, h, net, x, req);
    AcceptNodeSafe(ids, h, x, req);
    AcceptHolds(ids, h, x, req);
    AckFrame(ids, h, net, x.id, y, req.term, i);
    AckSafe(ids, h, net, x.id, y, i);
    AckedNode(ids, h, x.id, y, i);
  }

  lemma AcceptStepSafe(ids: set<NodeId>, s: State, n: NodeId, req: AppendReq)
    requires Safe(ids, s) && Enabled(s, DeliverAppend(n, req))
    ensures Safe(ids, Next(s, DeliverAppend(n, req)))
  {
    var x, h := s.nodes[n], s.hist;
    var (y, resp) := x.HandleAppendEntries(req);
    var net', h' := NextNet(s.net, x, DeliverAppend(n, req)), HistAccept(h, x, req);
    assert NodeOk(ids, h, s.net, n, x) && SafeNode(ids, h, n, x) && GoodReq(ids, h, (n, req).1);
    AcceptOk(ids, s, n, req);
    if resp.success {
      AcceptAck(ids, h, s.net, x, req);
    } else {
      AcceptNodeSafe(ids, h, x, req);
    }
    SafeNetGrows(ids, h, h', s.net);
    OthersSafe(ids, s, n, y, net', h');
  }

  // ---- Committing ----

  lemma ReplyTracks(ids: set<NodeId>, h: History, net: Net, x: NodeState, m: AppendReply, p: NodeId)
    requires NodeOk(ids, h, net, x.id, x) && x.role == Leader && AckBound(h, m.req.term, m.follower) && Tracks(h, x, p)
    requires Accepted(x, m.resp) ==>
      m.req.term == x.term && HasAcked(h, m.req.term, m.follower, m.resp.matchIndex)
    ensures
      var y := x.HandleAppendResponse(m.follower, m.resp);
      y.role == Leader ==> Tracks(h, y, p)
  {
  }

  // Counting reported matches finds a majority that acknowledged.
  lemma CommitChosen(ids: set<NodeId>, h: History, net: Net, x: NodeState, c: nat)
    requires HistOk(ids, h) && NodeOk(ids, h, net, x.id, x) && x.role == Leader
    requires forall p :: Tracks(h, x, p)
    requires 0 < c < |x.log| && x.Committable(c)
    ensures Chosen(ids, Ack(h, x.term, x.id, c), x.term, c)
  {
    var h' := Ack(h, x.term, x.id, c);
    QuorumIsMajority(ids, x.id, x);
    var matched := x.Matched(c);
    forall p | p in matched + {x.id} ensures p in Ackers(ids, h', x.term, c) {
      assert Tracks(h, x, p);
    }
    assert |matched + {x.id}| == |matched| + 1;
    SubsetSize(matched + {x.id}, Ackers(ids, h', x.term, c));
  }

  // A leader that raises its commit index to a chosen one.
  lemma CommitSafe(ids: set<NodeId>, s: State, n: NodeId, y: NodeState)
    requires Safe(ids, s) && n in ids && NodeOk(ids, s.hist, s.net, n, y)
    requires var x := s.nodes[n]; y.term >= x.term && y.commit >= x.commit && y.log == x.log
    requires SafeNode(ids, s.hist, n, y.(commit := s.nodes[n].commit))
    requires y.commit > s.nodes[n].commit ==>
      && y.role == Leader && y.term == s.nodes[n].term && y.commit < |y.log|
      && Chosen(ids, Ack(s.hist, y.term, n, y.commit), y.term, y.commit)
    ensures Safe(ids, State(s.nodes[n := y], s.net, HistCommit(s.hist, s.nodes[n], y)))
  {
    var x, h := s.nodes[n], s.hist;
    var h', z := HistCommit(h, x, y), y.(commit := x.commit);
    assert NodeOk(ids, h, s.net, n, x);
    CommitOk(ids, s, n, y);
    if y.commit > x.commit {
      assert h' == Ack(h, y.term, n, y.commit);
      AckSafe(ids, h, s.net, n, y, y.commit);
      assert Upto(h, y.term, y.commit) <= y.log;
      AckedNode(ids, h, n, z, y.commit);
      CommitRaised(ids, h', n, z, y);
    }
    SafeNetGrows(ids, h, h', s.net);
    OthersSafe(ids, s, n, y, s.net, h');
  }

  lemma CommitRaised(ids: set<NodeId>, h: History, n: NodeId, z: NodeState, y: NodeState)
    requires SafeNode(ids, h, n, z) && y == z.(commit := y.commit)
    requires y.commit < |y.log| && y.term in h.leaderLogs && h.leaderLogs[y.term] == y.log
    requires Chosen(ids, h, y.term, y.commit)
    ensures SafeNode(ids, h, n, y)
  {
    forall t: nat ensures AckPast(h, n, y, t) {
      assert AckPast(h, n, z, t);
    }
    forall t: nat, i: nat ensures Kept(h, n, y, t, i) {
      assert Kept(h, n, z, t, i);
    }
    if y.role == Leader {
      forall p ensures Tracks(h, y, p) {
        assert Tracks(h, z, p);
      }
    }
    assert CommittedBy(ids, h, y.log, y.commit, y.term, y.term, y.commit);
  }

  lemma ReplyStepSafe(ids: set<NodeId>, s: State, a: Action)
    requires Safe(ids, s) && Enabled(s, a) && a.HandleAppend? && Honest(s, a)
    ensures Safe(ids, Next(s, a))
  {
    var n, x, h := a.n, s.nodes[a.n], s.hist;
    var m := AppendReply(a.follower, a.req, a.resp);
    var y := x.HandleAppendResponse(a.follower, a.resp);
    assert NodeOk(ids, h, s.net, n, x) && SafeNode(ids, h, n, x) && AckBound(h, a.req.term, a.follower);
    ReplyNode(ids, h, s.net, x, a.follower, a.resp);
    var z := y.(commit := x.commit);
    if y.role == Leader {
      forall p ensures Tracks(h, z, p) {
        assert Tracks(h, x, p);
        ReplyTracks(ids, h, s.net, x, m, p);
      }
    }
    assert Grows(h, h);
    SafeNodeGrows(ids, h, h, n, x, z);
    ReplyCommit(ids, h, s.net, x, m);
    CommitSafe(ids, s, n, y);
  }

  lemma ReplyCommit(ids: set<NodeId>, h: History, net: Net, x: NodeState, m: AppendReply)
    requires HistOk(ids, h) && NodeOk(ids, h, net, x.id, x)
    requires forall p :: x.role == Leader ==> Tracks(h, x, p)
    requires AckBound(h, m.req.term, m.follower)
    requires Accepted(x, m.resp) ==>
      m.req.term == x.term && HasAcked(h, m.req.term, m.follower, m.resp.matchIndex)
    ensures
      var y := x.HandleAppendResponse(m.follower, m.resp);
      && y.commit >= x.commit
      && (y.commit > x.commit ==>
            y.role == Leader && y.term == x.term && y.commit < |y.log|
            && Chosen(ids, Ack(h, y.term, x.id, y.commit), y.term, y.commit))
  {
    var y := x.HandleAppendResponse(m.follower, m.resp);
    if Accepted(x, m.resp) {
      var s := y.(commit := x.commit);
      HighestCommittableIsMaximal(s, LastIndex(x.log));
      if y.commit > x.commit {
        ReplyNode(ids, h, net, x, m.follower, m.resp);
        forall p ensures Tracks(h, y, p) {
          assert Tracks(h, x, p);
          ReplyTracks(ids, h, net, x, m, p);
        }
        assert y.Committable(y.commit);
        CommitChosen(ids, h, net, y, y.commit);
      }
    }
  }

  lemma SoloStepSafe(ids: set<NodeId>, s: State, n: NodeId)
    requires Safe(ids, s) && n in ids
    ensures Safe(ids, Next(s, SoloCommit(n)))
  {
    var x, h := s.nodes[n], s.hist;
    var y := x.AdvanceCommitIfSolo();
    assert NodeOk(ids, h, s.net, n, x) && SafeNode(ids, h, n, x);
    SoloNode(ids, h, s.net, x);
    assert y.(commit := x.commit) == x;
    if y.commit > x.commit {
      assert ids == {n} by { assert ids == {n} + x.peers; }
      assert Ackers(ids, Ack(h, y.term, n, y.commit), y.term, y.commit) == {n};
    }
    CommitSafe(ids, s, n, y);
  }

  // ---- Every honest run ----

  lemma NextSafe(ids: set<NodeId>, s: State, a: Action)
    requires Safe(ids, s) && Enabled(s, a) && Honest(s, a)
    ensures Safe(ids, Next(s, a))
  {
    match a
    case StartElection(n) => StartSafe(ids, s, n);
    case DeliverVote(n, req) => VoteSafe(ids, s, n, req);
    case HandleVote(n, voter, resp) => CountStepSafe(ids, s, n, voter, resp);
    case Propose(n, data) => ProposeStepSafe(ids, s, n, data);
    case Heartbeat(n) => HeartbeatStepSafe(ids, s, n);
    case DeliverAppend(n, req) => AcceptStepSafe(ids, s, n, req);
    case HandleAppend(_, _, _, _) => ReplyStepSafe(ids, s, a);
    case SoloCommit(n) => SoloStepSafe(ids, s, n);
  }

  lemma InitSafe(ids: set<NodeId>)
    ensures Safe(ids, Init(ids))
  {
    InitOk(ids);
    var s := Init(ids);
    forall n | n in ids ensures SafeNode(ids, s.hist, n, s.nodes[n]) {
      forall t: nat, i: nat ensures Kept(s.hist, n, s.nodes[n], t, i) {
      }
    }
    forall n: nat, t: nat, i: nat, u: nat ensures VoteKept(s.hist, n, t, i, u) {
    }
  }

  lemma {:induction false} RunSafe(ids: set<NodeId>, run: seq<State>, actions: seq<Action>, k: nat)
    requires IsHonestRun(ids, run, actions) && k < |run|
    ensures Safe(ids, run[k])
  {
    if k == 0 {
      InitSafe(ids);
    } else {
      RunSafe(ids, run, actions, k - 1);
      assert Follows(run[k - 1], actions[k - 1], run[k]);
      HonestStep(ids, run, actions, k - 1);
      NextSafe(ids, run[k - 1], actions[k - 1]);
    }
  }

  // A true report stays acknowledged.
  lemma HonestStep(ids: set<NodeId>, run: seq<State>, actions: seq<Action>, k: nat)
    requires IsHonestRun(ids, run, actions) && k < |actions|
    ensures Honest(run[k], actions[k])
  {
    var s, a := run[k], actions[k];
    assert HonestAt(run, actions, k);
    if a.HandleAppend? && a.n in s.nodes && Accepted(s.nodes[a.n], a.resp) {
      var j :| 0 <= j < k && DeliversTruth(run, actions, j, a.follower, a.req, a.resp);
      assert Follows(run[j], actions[j], run[j + 1]);
      RunOk(ids, run, actions, j);
      assert NodeOk(ids, run[j].hist, run[j].net, a.follower, run[j].nodes[a.follower]);
      assert HasAcked(run[j + 1].hist, a.req.term, a.follower, a.resp.matchIndex);
      RunGrows(ids, run, actions, j + 1, k);
      assert GrowsKey(run[j + 1].hist, s.hist, a.req.term, a.follower);
    }
  }

  // State-machine safety: at any two points of an honest run, any two nodes
  // agree on every index at or below both commit indexes.
  lemma StateMachineSafety(ids: set<NodeId>, run: seq<State>, actions: seq<Action>,
                           j: nat, k: nat, a: NodeId, b: NodeId, i: nat)
    requires IsHonestRun(ids, run, actions) && j <= k < |run|
    requires a in run[j].nodes && b in run[k].nodes
    requires i <= run[j].nodes[a].commit && i <= run[k].nodes[b].commit
    ensures i < |run[j].nodes[a].log| && i < |run[k].nodes[b].log|
    ensures run[j].nodes[a].log[i] == run[k].nodes[b].log[i]
  {
    var x, y := run[j].nodes[a], run[k].nodes[b];
    var h, h' := run[j].hist, run[k].hist;
    RunSafe(ids, run, actions, j);
    RunSafe(ids, run, actions, k);
    RunGrows(ids, run, actions, j, k);
    assert SafeNode(ids, h, a, x) && SafeNode(ids, h', b, y);
    assert NodeOk(ids, h, run[j].net, a, x) && NodeOk(ids, h', run[k].net, b, y);
    CommittedGrows(ids, h, h', x.log, x.commit, x.term, x.log, x.term);
    CommittedAgree(ids, h', x.log, x.commit, x.term, y.log, y.commit, y.term, i);
  }

  lemma CommittedAgree(ids: set<NodeId>, h: History, a: Entries, ca: nat, ta: nat, b: Entries, cb: nat, tb: nat, i: nat)
    requires HistOk(ids, h) && SafeHist(h) && WellFormedLog(a, ta) && WellFormedLog(b, tb)
    requires Committed(ids, h, a, ca, ta) && Committed(ids, h, b, cb, tb) && i <= ca && i <= cb
    ensures a[i] == b[i]
  {
    if i > 0 {
      var t: nat, p: nat :| CommittedBy(ids, h, a, ca, ta, t, p);
      var u: nat, q: nat :| CommittedBy(ids, h, b, cb, tb, u, q);
      assert ElectionOk(ids, h, t) && ElectionOk(ids, h, u);
      assert a[i] == a[..ca + 1][i] == h.leaderLogs[t][i] == Upto(h, t, p)[i];
      assert b[i] == b[..cb + 1][i] == h.leaderLogs[u][i] == Upto(h, u, q)[i];
      if t < u {
        LeaderCompleteness(ids, h, t, p, u);
      } else if u < t {
        LeaderCompleteness(ids, h, u, q, t);
      }
    }
  }

  // Every later leader holds every committed entry: what a node has committed
  // is in the log of each leader of the node's term or a later one, then and ever after.
  lemma LaterLeadersHoldCommitted(ids: set<NodeId>, run: seq<State>, actions: seq<Action>,
                                  j: nat, k: nat, a: NodeId, b: NodeId)
    requires IsHonestRun(ids, run, actions) && j <= k < |run|
    requires a in run[j].nodes && b in run[k].nodes
    requires run[k].nodes[b].role == Leader && run[j].nodes[a].term <= run[k].nodes[b].term
    ensures var x := run[j].nodes[a]; x.commit < |x.log| && x.log[..x.commit + 1] <= run[k].nodes[b].log
  {
    var x, y := run[j].nodes[a], run[k].nodes[b];
    var h, h' := run[j].hist, run[k].hist;
    RunSafe(ids, run, actions, j);
    RunSafe(ids, run, actions, k);
    RunGrows(ids, run, actions, j, k);
    assert SafeNode(ids, h, a, x);
    assert NodeOk(ids, h, run[j].net, a, x) && NodeOk(ids, h', run[k].net, b, y);
    CommittedGrows(ids, h, h', x.log, x.commit, x.term, x.log, x.term);
    CommittedInLeader(ids, h', x.log, x.commit, x.term, y.term);
  }

  // ---- What nodes apply ----

  // The commit index has not fallen, and what was committed is still there.
  predicate KeepsCommitted(x: NodeState, y: NodeState) {
    x.commit <= y.commit && x.commit < |x.log| && x.log[..x.commit + 1] <= y.log
  }

  lemma KeepsTransitive(x: NodeState, y: NodeState, z: NodeState)
    requires KeepsCommitted(x, y) && KeepsCommitted(y, z)
    ensures KeepsCommitted(x, z)
  {
    assert x.log[..x.commit + 1] <= y.log[..y.commit + 1];
  }

  lemma AcceptKeepsCommitted(ids: set<NodeId>, h: History, x: NodeState, req: AppendReq)
    requires HistOk(ids, h) && SafeHist(h) && NodeShape(ids, x.id, x) && Backed(h, x.log)
    requires GoodReq(ids, h, req) && Committed(ids, h, x.log, x.commit, x.term)
    ensures KeepsCommitted(x, x.HandleAppendEntries(req).0)
  {
    if req.term >= x.term {
      CommittedInLeader(ids, h, x.log, x.commit, x.term, req.term);
      CommonPrefixKept(ids, h, x, req, x.log[..x.commit + 1]);
    }
  }

  lemma ReplyKeepsCommitted(x: NodeState, follower: NodeId, resp: AppendResp)
    requires x.commit < |x.log|
    ensures KeepsCommitted(x, x.HandleAppendResponse(follower, resp))
  {
    if Accepted(x, resp) {
      var y := x.HandleAppendResponse(follower, resp);
      HighestCommittableIsMaximal(y.(commit := x.commit), LastIndex(x.log));
    }
  }

  lemma OtherKeepsCommitted(x: NodeState, a: Action)
    requires x.commit < |x.log| && !a.DeliverAppend? && !a.HandleAppend?
    ensures KeepsCommitted(x, After(x, a))
  {
    assert a.Propose? ==> x.log <= x.Propose(a.data).0.log;
  }

  // A step of a safe cluster never lowers a node's commit index nor touches what the
  // node has committed.
  lemma StepKeepsCommitted(ids: set<NodeId>, s: State, a: Action, n: NodeId)
    requires Safe(ids, s) && Enabled(s, a) && n in ids
    ensures KeepsCommitted(s.nodes[n], Next(s, a).nodes[n])
  {
    var x := s.nodes[n];
    assert SafeNode(ids, s.hist, n, x);
    if a.n == n && a.DeliverAppend? {
      assert NodeOk(ids, s.hist, s.net, n, x) && GoodReq(ids, s.hist, (n, a.req).1);
      AcceptKeepsCommitted(ids, s.hist, x, a.req);
    } else if a.n == n && a.HandleAppend? {
      ReplyKeepsCommitted(x, a.follower, a.resp);
    } else if a.n == n {
      OtherKeepsCommitted(x, a);
    }
  }

  lemma KeepsItself(ids: set<NodeId>, run: seq<State>, actions: seq<Action>, k: nat, n: NodeId)
    requires IsHonestRun(ids, run, actions) && k < |run| && n in ids
    ensures n in run[k].nodes && KeepsCommitted(run[k].nodes[n], run[k].nodes[n])
  {
    RunSafe(ids, run, actions, k);
    assert SafeNode(ids, run[k].hist, n, run[k].nodes[n]);
  }

  lemma NextKeepsCommitted(ids: set<NodeId>, run: seq<State>, actions: seq<Action>, k: nat, n: NodeId)
    requires IsHonestRun(ids, run, actions) && k < |actions| && n in ids
    ensures n in run[k].nodes && n in run[k + 1].nodes && KeepsCommitted(run[k].nodes[n], run[k + 1].nodes[n])
  {
    RunSafe(ids, run, actions, k);
    assert Follows(run[k], actions[k], run[k + 1]);
    StepKeepsCommitted(ids, run[k], actions[k], n);
  }

  predicate KeepsNext(xs: seq<NodeState>, i: nat) {
    i + 1 < |xs| ==> KeepsCommitted(xs[i], xs[i + 1])
  }

  lemma {:induction false} KeepsAlong(xs: seq<NodeState>, j: nat, k: nat)
    requires j <= k < |xs| && xs[j].commit < |xs[j].log| && forall i: nat :: KeepsNext(xs, i)
    ensures KeepsCommitted(xs[j], xs[k])
  {
    if j < k {
      KeepsAlong(xs, j, k - 1);
      assert KeepsNext(xs, k - 1);
      KeepsTransitive(xs[j], xs[k - 1], xs[k]);
    }
  }

  lemma CommitNeverFalls(ids: set<NodeId>, run: seq<State>, actions: seq<Action>, j: nat, k: nat, n: NodeId)
    requires IsHonestRun(ids, run, actions) && j <= k < |run| && n in ids
    ensures n in run[j].nodes && n in run[k].nodes && KeepsCommitted(run[j].nodes[n], run[k].nodes[n])
  {
    NodesOfRun(ids, run, actions, n);
    KeepsItself(ids, run, actions, j, n);
    var xs := seq(|run|, i requires 0 <= i < |run| => run[i].nodes[n]);
    forall i: nat ensures KeepsNext(xs, i) {
      if i + 1 < |xs| {
        NextKeepsCommitted(ids, run, actions, i, n);
      }
    }
    KeepsAlong(xs, j, k);
  }

  lemma NodesOfRun(ids: set<NodeId>, run: seq<State>, actions: seq<Action>, n: NodeId)
    requires IsRun(ids, run, actions) && n in ids
    ensures forall j | 0 <= j < |run| :: n in run[j].nodes
  {
    forall j | 0 <= j < |run| ensures n in run[j].nodes {
      RunOk(ids, run, actions, j);
    }
  }

  // The entries taken off the log when `before` have been: those up to the commit index.
  function Taken(before: Entries, x: NodeState): Entries {
    if |before| < x.commit < |x.log| then before + x.log[|before| + 1..x.commit + 1] else before
  }

  // The entries node `n` has applied by state `k`, if it takes some whenever `takes(k)`.
  ghost function Applied(run: seq<State>, n: NodeId, takes: nat -> bool, k: nat): Entries
    requires k < |run| && forall j | 0 <= j < |run| :: n in run[j].nodes
  {
    var before := if k == 0 then [] else Applied(run, n, takes, k - 1);
    if takes(k) then Taken(before, run[k].nodes[n]) else before
  }

  // That is what the log delivers, if its own marks are the node's.
  lemma TakenIsDelivered(before: Entries, x: NodeState, l: LogState)
    requires l.base == 0 && l.entries == x.log && l.commitIndex == x.commit < |x.log| && l.lastApplied == |before| <= x.commit
    ensures Taken(before, x) == before + l.TakeApplicable().1
  {
    PresentIsSlice(l, l.lastApplied, l.commitIndex);
  }

  // In honest runs no request touches what its receiver has committed, so that a node's
  // log keeps the node's own commit index (`Node.InStep`).
  lemma RequestsSpareCommitted(ids: set<NodeId>, run: seq<State>, actions: seq<Action>, k: nat, n: NodeId, req: AppendReq)
    requires IsHonestRun(ids, run, actions) && k < |run| && Enabled(run[k], DeliverAppend(n, req))
    requires req.term >= run[k].nodes[n].term
    ensures SparesCommitted(run[k].nodes[n].log, run[k].nodes[n].commit, req)
  {
    RunSafe(ids, run, actions, k);
    var s, x := run[k], run[k].nodes[n];
    assert SafeNode(ids, s.hist, n, x) && NodeOk(ids, s.hist, s.net, n, x) && GoodReq(ids, s.hist, (n, req).1);
    CommittedInLeader(ids, s.hist, x.log, x.commit, x.term, req.term);
    SliceSpares(ids, s.hist, x.log, x.commit, req);
  }

  lemma SliceSpares(ids: set<NodeId>, h: History, log: Entries, c: nat, req: AppendReq)
    requires HistOk(ids, h) && req.term in h.leaderLogs && InRange(h.leaderLogs[req.term], req)
    requires c < |log| && log[..c + 1] <= h.leaderLogs[req.term]
    ensures SparesCommitted(log, c, req)
  {
    var full := h.leaderLogs[req.term];
    assert ElectionOk(ids, h, req.term);
    forall k | 0 <= k < |req.entries| ensures Spares(log, c, req.entries[k]) {
      var i := req.prevIndex + 1 + k;
      assert req.entries[k] == full[i] && EntryOk(full, req.term, i);
      if i <= c {
        assert log[i] == log[..c + 1][i];
      }
    }
    if 0 < req.prevIndex <= c {
      assert log[req.prevIndex] == log[..c + 1][req.prevIndex];
    }
  }

  // `applied` are the committed entries from index 1 on.
  predicate IsApplied(applied: Entries, x: NodeState) {
    |applied| <= x.commit < |x.log| && applied == x.log[1..|applied| + 1]
  }

  lemma TakenIsApplied(before: Entries, w: NodeState, x: NodeState)
    requires IsApplied(before, w) && KeepsCommitted(w, x) && x.commit < |x.log|
    ensures IsApplied(before, x) && IsApplied(Taken(before, x), x)
  {
    var p := |before|;
    assert w.log[1..p + 1] == w.log[..w.commit + 1][1..p + 1] == x.log[1..p + 1];
    assert p < x.commit ==> x.log[1..p + 1] + x.log[p + 1..x.commit + 1] == x.log[1..x.commit + 1];
  }

  // They are the committed entries from index 1 on, as the log holds them ever after.
  lemma {:induction false} AppliedIsCommitted(ids: set<NodeId>, run: seq<State>, actions: seq<Action>, n: NodeId, takes: nat -> bool, k: nat)
    requires IsHonestRun(ids, run, actions) && k < |run| && n in ids && forall j | 0 <= j < |run| :: n in run[j].nodes
    ensures IsApplied(Applied(run, n, takes, k), run[k].nodes[n])
  {
    CommitNeverFalls(ids, run, actions, k, k, n);
    if k == 0 {
      TakenIsApplied([], run[0].nodes[n], run[0].nodes[n]);
    } else {
      AppliedIsCommitted(ids, run, actions, n, takes, k - 1);
      CommitNeverFalls(ids, run, actions, k - 1, k, n);
      TakenIsApplied(Applied(run, n, takes, k - 1), run[k - 1].nodes[n], run[k].nodes[n]);
    }
  }

  // The sequences any two nodes have applied, at any two points of an honest run, are
  // one a prefix of the other.
  lemma AppliedAgree(ids: set<NodeId>, run: seq<State>, actions: seq<Action>, j: nat, k: nat,
                     a: NodeId, b: NodeId, takesA: nat -> bool, takesB: nat -> bool)
    requires IsHonestRun(ids, run, actions) && j < |run| && k < |run| && a in ids && b in ids
    ensures forall i | 0 <= i < |run| :: a in run[i].nodes && b in run[i].nodes
    ensures Applied(run, a, takesA, j) <= Applied(run, b, takesB, k) || Applied(run, b, takesB, k) <= Applied(run, a, takesA, j)
  {
    NodesOfRun(ids, run, actions, a);
    NodesOfRun(ids, run, actions, b);
    AppliedIsCommitted(ids, run, actions, a, takesA, j);
    AppliedIsCommitted(ids, run, actions, b, takesB, k);
    if j <= k {
      AgreeAt(ids, run, actions, j, k, a, b, Applied(run, a, takesA, j), Applied(run, b, takesB, k));
    } else {
      AgreeAt(ids, run, actions, k, j, b, a, Applied(run, b, takesB, k), Applied(run, a, takesA, j));
    }
  }

  lemma AgreeAt(ids: set<NodeId>, run: seq<State>, actions: seq<Action>, j: nat, k: nat,
                a: NodeId, b: NodeId, p: Entries, q: Entries)
    requires IsHonestRun(ids, run, actions) && j <= k < |run| && a in run[j].nodes && b in run[k].nodes
    requires IsApplied(p, run[j].nodes[a]) && IsApplied(q, run[k].nodes[b])
    ensures p <= q || q <= p
  {
    forall i: nat | i < |p| && i < |q| ensures p[i] == q[i] {
      StateMachineSafety(ids, run, actions, j, k, a, b, i + 1);
    }
  }
}
