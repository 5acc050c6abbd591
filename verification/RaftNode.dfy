// One Raft node, crates/raft/src/node.rs, with an uncompacted log
// (base_index == 0), so `log[i]` is the entry at index `i` and `log[0]` the
// sentinel. Functions on `NodeState` say what each handler does; the class
// `Node` runs the handlers in place and is proved against them.
module RaftNode {
  import opened RaftLog

  type NodeId = nat
  type Entries = seq<LogEntry>

  datatype Role = Leader | Follower | Candidate

  datatype VoteReq = VoteReq(term: nat, candidate: NodeId, lastIndex: nat, lastTerm: nat)
  datatype VoteResp = VoteResp(term: nat, granted: bool)
  datatype AppendReq = AppendReq(term: nat, leader: NodeId, prevIndex: nat, prevTerm: nat,
                                 entries: Entries, leaderCommit: nat)
  datatype AppendResp = AppendResp(term: nat, success: bool, matchIndex: nat)

  function Max(a: nat, b: nat): nat { if a < b then b else a }
  function Min(a: nat, b: nat): nat { if a < b then a else b }
  function Pred(a: nat): nat { if a == 0 then 0 else a - 1 }

  // ---- The log as a sequence ----

  function LastIndex(log: Entries): nat { Pred(|log|) }
  function LastTerm(log: Entries): nat { if log == [] then 0 else log[|log| - 1].term }
  function Truncated(log: Entries, index: nat): Entries { if index + 1 < |log| then log[..index + 1] else log }
  function Appended(log: Entries, term: nat, data: seq<Byte>): Entries { log + [LogEntry(term, |log|, data)] }

  // One received entry: skip it if its term is there, else cut and append.
  function Merged(log: Entries, e: LogEntry): Entries {
    if e.index < |log| then
      if log[e.index].term == e.term then log
      else Appended(Truncated(log, Pred(e.index)), e.term, e.data)
    else Appended(log, e.term, e.data)
  }

  function MergedAll(log: Entries, entries: Entries): Entries
    decreases |entries|
  {
    if entries == [] then log else MergedAll(Merged(log, entries[0]), entries[1..])
  }

  // ---- Handlers on values ----

  datatype NodeState = NodeState(
    id: NodeId,
    peers: set<NodeId>,
    role: Role,
    term: nat,
    votedFor: Option<NodeId>,
    log: Entries,
    commit: nat,
    nextIndex: map<NodeId, nat>,
    matchIndex: map<NodeId, nat>,
    votes: nat)
  {
    function Quorum(): nat { (|peers| + 1) / 2 + 1 }

    function StepDown(t: nat): NodeState { this.(term := t, votedFor := None, role := Follower) }

    function BecomeLeader(): NodeState {
      this.(role := Leader,
            nextIndex := map p | p in nextIndex :: LastIndex(log) + 1,
            matchIndex := map p | p in matchIndex :: 0)
    }

    function StartElection(): NodeState {
      var s := this.(term := term + 1, role := Candidate, votedFor := Some(id), votes := 1);
      if s.votes >= Quorum() then s.BecomeLeader() else s
    }

    // The request broadcast after `StartElection`; the solo winner sends none.
    function VoteRequests(): map<NodeId, VoteReq> {
      if role == Leader then map[]
      else map p | p in peers :: VoteReq(term, id, LastIndex(log), LastTerm(log))
    }

    function HandleRequestVote(req: VoteReq): (NodeState, VoteResp) {
      if req.term < term then (this, VoteResp(term, false))
      else
        var s := if req.term > term then StepDown(req.term) else this;
        var canVote := s.votedFor == None || s.votedFor == Some(req.candidate);
        var logOk := req.lastTerm > LastTerm(log)
                     || (req.lastTerm == LastTerm(log) && req.lastIndex >= LastIndex(log));
        if canVote && logOk then (s.(votedFor := Some(req.candidate)), VoteResp(s.term, true))
        else (s, VoteResp(s.term, false))
    }

    function HandleVoteResponse(resp: VoteResp): (NodeState, bool) {
      if resp.term > term then (StepDown(resp.term), false)
      else if role != Candidate || !resp.granted then (this, false)
      else
        var s := this.(votes := votes + 1);
        if s.votes >= Quorum() then (s.BecomeLeader(), true) else (s, false)
    }

    function Propose(data: seq<Byte>): (NodeState, Option<nat>) {
      if role != Leader then (this, None)
      else (this.(log := Appended(log, term, data)), Some(|log|))
    }

    function HeartbeatTo(next: nat): AppendReq {
      var prev := Pred(next);
      AppendReq(term, id, prev, if prev < |log| then log[prev].term else 0,
                if next < |log| then log[next..] else [], commit)
    }

    function NextIndexFor(peer: NodeId): nat { if peer in nextIndex then nextIndex[peer] else 1 }

    function Heartbeat(): map<NodeId, AppendReq> {
      if role != Leader then map[] else map p | p in peers :: HeartbeatTo(NextIndexFor(p))
    }

    function HandleAppendEntries(req: AppendReq): (NodeState, AppendResp) {
      if req.term < term then (this, AppendResp(term, false, LastIndex(log)))
      else
        var s := if req.term > term then StepDown(req.term) else this.(role := Follower);
        if req.prevIndex > 0 && req.prevIndex >= |log| then
          (s, AppendResp(s.term, false, LastIndex(log)))
        else if req.prevIndex > 0 && log[req.prevIndex].term != req.prevTerm then
          var cut := Truncated(log, Pred(req.prevIndex));
          (s.(log := cut), AppendResp(s.term, false, LastIndex(cut)))
        else
          var merged := MergedAll(log, req.entries);
          var s' := s.(log := merged,
                       commit := if req.leaderCommit > commit then Min(req.leaderCommit, LastIndex(merged)) else commit);
          (s', AppendResp(s.term, true, LastIndex(merged)))
    }

    // The peers that reported index `n`.
    function Matched(n: nat): set<NodeId> { set p | p in matchIndex && matchIndex[p] >= n }

    // Entry `n` is of this term, and a quorum (this node included) reported it.
    predicate Committable(n: nat) {
      && (if n < |log| then log[n].term else 0) == term
      && 1 + |Matched(n)| >= Quorum()
    }

    // The downward scan of candidate commit indexes from `n`.
    function HighestCommittable(n: nat): nat {
      if n <= commit then commit else if Committable(n) then n else HighestCommittable(n - 1)
    }

    function HandleAppendResponse(from: NodeId, resp: AppendResp): NodeState {
      if resp.term > term then StepDown(resp.term)
      else if role != Leader then this
      else if resp.success then
        var s := this.(matchIndex := if from in matchIndex then matchIndex[from := resp.matchIndex] else matchIndex,
                       nextIndex := if from in nextIndex then nextIndex[from := resp.matchIndex + 1] else nextIndex);
        s.(commit := s.HighestCommittable(LastIndex(log)))
      else
        var current := NextIndexFor(from);
        var next := if resp.matchIndex + 1 < current then resp.matchIndex + 1 else Max(Pred(current), 1);
        this.(nextIndex := if from in nextIndex then nextIndex[from := next] else nextIndex)
    }

    function AdvanceCommitIfSolo(): NodeState {
      if role != Leader || peers != {} || LastIndex(log) <= commit then this
      else this.(commit := LastIndex(log))
    }
  }

  function Fresh(id: NodeId, peers: set<NodeId>): NodeState {
    NodeState(id, peers, Follower, 0, None, [SENTINEL], 0,
              map p | p in peers :: 1, map p | p in peers :: 0, 0)
  }

  // The scan finds the largest committable index above the commit index, and
  // leaves the commit index where it was when there is none.
  lemma {:induction false} HighestCommittableIsMaximal(s: NodeState, n: nat)
    ensures
      var c := s.HighestCommittable(n);
      && s.commit <= c <= Max(n, s.commit)
      && (c > s.commit ==> s.Committable(c))
      && (forall k | c < k <= n :: !s.Committable(k))
  {
    if n > s.commit && !s.Committable(n) {
      HighestCommittableIsMaximal(s, n - 1);
    }
  }

  // One received entry leaves the first `commit` entries alone.
  predicate Spares(log: Entries, commit: nat, e: LogEntry) {
    e.index <= commit < |log| ==> log[e.index].term == e.term
  }

  lemma MergedSpares(log: Entries, commit: nat, e: LogEntry)
    requires log != []
    ensures Spares(log, commit, e) && commit < |log| ==>
      commit < |Merged(log, e)| && Merged(log, e)[..commit + 1] == log[..commit + 1]
  {
  }

  predicate SparesAll(log: Entries, commit: nat, entries: Entries) {
    commit < |log| && forall k | 0 <= k < |entries| :: Spares(log, commit, entries[k])
  }

  // So does a request.
  predicate SparesCommitted(log: Entries, commit: nat, req: AppendReq) {
    && SparesAll(log, commit, req.entries)
    && (0 < req.prevIndex <= commit < |log| ==> log[req.prevIndex].term == req.prevTerm)
  }

  // ---- The node object ----

  class Node {
    const id: NodeId
    const peers: set<NodeId>
    const log: Log
    var role: Role
    var currentTerm: nat
    var votedFor: Option<NodeId>
    var commitIndex: nat
    var nextIndex: map<NodeId, nat>
    var matchIndex: map<NodeId, nat>
    var votesReceived: nat

    ghost predicate Valid()
      reads this, log
    {
      && log.baseIndex == 0 && |log.entries| > 0
      && nextIndex.Keys == peers && matchIndex.Keys == peers
    }

    ghost function View(): NodeState
      reads this, log
    {
      NodeState(id, peers, role, currentTerm, votedFor, log.entries, commitIndex,
                nextIndex, matchIndex, votesReceived)
    }

    // The log's own commit index is the node's.
    ghost predicate InStep()
      reads this, log
    {
      log.commitIndex == commitIndex < |log.entries| && log.lastApplied <= commitIndex
    }

    constructor (id: NodeId, peers: set<NodeId>)
      ensures Valid() && fresh(log) && View() == Fresh(id, peers) && InStep()
    {
      this.id, this.peers := id, peers;
      log := new Log();
      role, currentTerm, votedFor, commitIndex, votesReceived := Follower, 0, None, 0, 0;
      nextIndex := map p | p in peers :: 1;
      matchIndex := map p | p in peers :: 0;
    }

    // Rule 2 of HandleAppendEntries: is the predecessor there? A conflicting one is cut off.
    method MatchPrevious(prevIndex: nat, prevTerm: nat) returns (ok: bool)
      requires log.baseIndex == 0 && |log.entries| > 0
      modifies log
      ensures log.baseIndex == 0 && |log.entries| > 0
      ensures ok == (prevIndex == 0 || (prevIndex < |old(log.entries)| && old(log.entries)[prevIndex].term == prevTerm))
      ensures log.entries == if ok || prevIndex >= |old(log.entries)| then old(log.entries)
                             else Truncated(old(log.entries), Pred(prevIndex))
      ensures log.lastApplied == old(log.lastApplied)
      ensures ok || prevIndex > old(log.commitIndex) || prevIndex >= |old(log.entries)| ==> log.commitIndex == old(log.commitIndex)
    {
      if prevIndex == 0 {
        return true;
      }
      var at := log.Get(prevIndex);
      if at.None? {
        return false;
      }
      ok := at.value.term == prevTerm;
      if !ok {
        log.TruncateAfter(Pred(prevIndex));
      }
    }

    // The log's commit index is still `c`, and what is committed is still there.
    ghost predicate KeptCommit(before: Entries, c: nat)
      reads log
    {
      log.commitIndex == c < |log.entries| && c < |before| && log.entries[..c + 1] == before[..c + 1]
    }

    // Rules 3 and 4 of HandleAppendEntries: one entry, then all of them.
    method MergeEntry(entry: LogEntry)
      requires log.baseIndex == 0 && |log.entries| > 0
      modifies log
      ensures log.baseIndex == 0 && |log.entries| > 0
      ensures log.entries == Merged(old(log.entries), entry) && log.lastApplied == old(log.lastApplied)
      ensures Spares(old(log.entries), old(log.commitIndex), entry) && old(log.commitIndex < |log.entries|) ==>
        KeptCommit(old(log.entries), old(log.commitIndex))
    {
      MergedSpares(log.entries, log.commitIndex, entry);
      var existing := log.Get(entry.index);
      if existing.Some? {
        if existing.value.term != entry.term {
          log.TruncateAfter(Pred(entry.index));
          var _ := log.Append(entry.term, entry.data);
        }
      } else {
        var _ := log.Append(entry.term, entry.data);
      }
    }

    method MergeEntries(entries: Entries)
      requires log.baseIndex == 0 && |log.entries| > 0
      modifies log
      ensures log.baseIndex == 0 && |log.entries| > 0
      ensures log.entries == MergedAll(old(log.entries), entries) && log.lastApplied == old(log.lastApplied)
      ensures SparesAll(old(log.entries), old(log.commitIndex), entries) ==> KeptCommit(old(log.entries), old(log.commitIndex))
    {
      ghost var before, c := log.entries, log.commitIndex;
      for i := 0 to |entries|
        invariant log.baseIndex == 0 && |log.entries| > 0 && log.lastApplied == old(log.lastApplied)
        invariant MergedAll(log.entries, entries[i..]) == MergedAll(old(log.entries), entries)
        invariant SparesAll(before, c, entries) ==> KeptCommit(before, c)
      {
        assert KeptCommit(before, c) && Spares(before, c, entries[i]) ==> Spares(log.entries, c, entries[i]) by {
          assert KeptCommit(before, c) && entries[i].index <= c ==>
            log.entries[..c + 1][entries[i].index] == before[..c + 1][entries[i].index];
        }
        assert entries[i..][0] == entries[i] && entries[i..][1..] == entries[i + 1..];
        MergeEntry(entries[i]);
      }
    }

    // Rules 3 to 5: the entries and the leader's commit index.
    method AcceptEntries(entries: Entries, leaderCommit: nat)
      requires log.baseIndex == 0 && |log.entries| > 0
      modifies this`commitIndex, log
      ensures log.baseIndex == 0 && |log.entries| > 0
      ensures log.entries == MergedAll(old(log.entries), entries) && log.lastApplied == old(log.lastApplied)
      ensures commitIndex == if leaderCommit > old(commitIndex) then Min(leaderCommit, LastIndex(log.entries)) else old(commitIndex)
      ensures old(InStep()) && SparesAll(old(log.entries), old(commitIndex), entries) ==> InStep()
    {
      MergeEntries(entries);
      if leaderCommit > commitIndex {
        var last := log.LastIndex();
        commitIndex := Min(leaderCommit, last);
        log.AdvanceCommit(commitIndex);
      }
    }

    // Rules 2 to 5.
    method Replicate(req: AppendReq) returns (ok: bool)
      requires log.baseIndex == 0 && |log.entries| > 0
      modifies this`commitIndex, log
      ensures log.baseIndex == 0 && |log.entries| > 0 && log.lastApplied == old(log.lastApplied)
      ensures ok == (req.prevIndex == 0
                     || (req.prevIndex < |old(log.entries)| && old(log.entries)[req.prevIndex].term == req.prevTerm))
      ensures log.entries == if ok then MergedAll(old(log.entries), req.entries)
                             else if req.prevIndex >= |old(log.entries)| then old(log.entries)
                             else Truncated(old(log.entries), Pred(req.prevIndex))
      ensures commitIndex == if ok && req.leaderCommit > old(commitIndex) then Min(req.leaderCommit, LastIndex(log.entries))
                             else old(commitIndex)
      ensures old(InStep()) && SparesCommitted(old(log.entries), old(commitIndex), req) ==> InStep()
    {
      ok := MatchPrevious(req.prevIndex, req.prevTerm);
      if ok {
        AcceptEntries(req.entries, req.leaderCommit);
      }
    }

    method HandleAppendEntries(req: AppendReq) returns (resp: AppendResp)
      requires Valid()
      modifies this, log
      ensures Valid() && (View(), resp) == old(View()).HandleAppendEntries(req)
      ensures log.lastApplied == old(log.lastApplied)
      ensures old(InStep()) && (req.term >= old(currentTerm) ==> SparesCommitted(old(log.entries), old(commitIndex), req)) ==> InStep()
    {
      if req.term < currentTerm {
        var last := log.LastIndex();
        return AppendResp(currentTerm, false, last);
      }
      if req.term > currentTerm {
        currentTerm, votedFor := req.term, None;
      }
      role := Follower;
      var ok := Replicate(req);
      var last := log.LastIndex();
      resp := AppendResp(currentTerm, ok, last);
    }

    method HandleRequestVote(req: VoteReq) returns (resp: VoteResp)
      requires Valid()
      modifies this
      ensures Valid() && (View(), resp) == old(View()).HandleRequestVote(req)
    {
      if req.term < currentTerm {
        return VoteResp(currentTerm, false);
      }
      if req.term > currentTerm {
        currentTerm, votedFor, role := req.term, None, Follower;
      }
      var lastTerm := log.LastTerm();
      var lastIndex := log.LastIndex();
      var canVote := votedFor == None || votedFor == Some(req.candidate);
      var logOk := req.lastTerm > lastTerm || (req.lastTerm == lastTerm && req.lastIndex >= lastIndex);
      if canVote && logOk {
        votedFor := Some(req.candidate);
        resp := VoteResp(currentTerm, true);
      } else {
        resp := VoteResp(currentTerm, false);
      }
    }

    method Propose(data: seq<Byte>) returns (index: Option<nat>)
      requires Valid()
      modifies log
      ensures Valid() && (View(), index) == old(View()).Propose(data)
      ensures (old(InStep()) ==> InStep()) && log.lastApplied == old(log.lastApplied)
    {
      if role != Leader {
        return None;
      }
      var i := log.Append(currentTerm, data);
      index := Some(i);
    }

    method Heartbeat() returns (msgs: map<NodeId, AppendReq>)
      requires Valid()
      ensures msgs == View().Heartbeat()
    {
      if role != Leader {
        return map[];
      }
      var all := log.entries;
      msgs := map p | p in peers ::
        var next := nextIndex[p];
        var prev := Pred(next);
        AppendReq(currentTerm, id, prev, if prev < |all| then all[prev].term else 0,
                  if next < |all| then all[next..] else [], commitIndex);
    }

    // The commit rule: the largest index of this term that a quorum holds.
    method AdvanceCommit()
      requires Valid()
      modifies this`commitIndex, log
      ensures Valid()
      ensures View() == old(View()).(commit := old(View()).HighestCommittable(LastIndex(old(log.entries))))
      ensures (old(InStep()) ==> InStep()) && log.lastApplied == old(log.lastApplied)
    {
      var n: nat := log.LastIndex();
      while n > commitIndex
        invariant Valid() && View() == old(View()) && n < |log.entries|
        invariant (old(InStep()) ==> InStep()) && log.lastApplied == old(log.lastApplied)
        invariant View().HighestCommittable(n) == old(View()).HighestCommittable(LastIndex(old(log.entries)))
      {
        if log.entries[n].term == currentTerm {
          var matched := set p | p in matchIndex && matchIndex[p] >= n;
          assert matched == View().Matched(n);
          if 1 + |matched| >= (|peers| + 1) / 2 + 1 {
            commitIndex := n;
            log.AdvanceCommit(n);
            return;
          }
        }
        n := n - 1;
      }
    }

    method HandleAppendResponse(from: NodeId, resp: AppendResp)
      requires Valid()
      modifies this, log
      ensures Valid() && View() == old(View()).HandleAppendResponse(from, resp)
      ensures (old(InStep()) ==> InStep()) && log.lastApplied == old(log.lastApplied)
    {
      if resp.term > currentTerm {
        currentTerm, votedFor, role := resp.term, None, Follower;
        return;
      }
      if role != Leader {
        return;
      }
      if resp.success {
        if from in matchIndex {
          matchIndex := matchIndex[from := resp.matchIndex];
        }
        if from in nextIndex {
          nextIndex := nextIndex[from := resp.matchIndex + 1];
        }
        AdvanceCommit();
      } else {
        var newNext := resp.matchIndex + 1;
        var current := if from in nextIndex then nextIndex[from] else 1;
        var next := if newNext < current then Max(newNext, 1) else Max(Pred(current), 1);
        if from in nextIndex {
          nextIndex := nextIndex[from := next];
        }
      }
    }

    method BecomeLeader()
      requires Valid()
      modifies this
      ensures Valid() && View() == old(View()).BecomeLeader()
    {
      role := Leader;
      var last := log.LastIndex();
      nextIndex := map p | p in nextIndex :: last + 1;
      matchIndex := map p | p in matchIndex :: 0;
    }

    method StartElection() returns (msgs: map<NodeId, VoteReq>)
      requires Valid()
      modifies this
      ensures Valid() && View() == old(View()).StartElection() && msgs == View().VoteRequests()
    {
      currentTerm, role, votedFor, votesReceived := currentTerm + 1, Candidate, Some(id), 1;
      if votesReceived >= (|peers| + 1) / 2 + 1 {
        BecomeLeader();
        return map[];
      }
      var lastIndex := log.LastIndex();
      var lastTerm := log.LastTerm();
      msgs := map p | p in peers :: VoteReq(currentTerm, id, lastIndex, lastTerm);
    }

    method HandleVoteResponse(resp: VoteResp) returns (won: bool)
      requires Valid()
      modifies this
      ensures Valid() && (View(), won) == old(View()).HandleVoteResponse(resp)
    {
      if resp.term > currentTerm {
        currentTerm, votedFor, role := resp.term, None, Follower;
        return false;
      }
      if role != Candidate {
        return false;
      }
      if resp.granted {
        votesReceived := votesReceived + 1;
        if votesReceived >= (|peers| + 1) / 2 + 1 {
          BecomeLeader();
          return true;
        }
      }
      won := false;
    }

    method AdvanceCommitIfSolo()
      requires Valid()
      modifies this, log
      ensures Valid() && View() == old(View()).AdvanceCommitIfSolo()
      ensures (old(InStep()) ==> InStep()) && log.lastApplied == old(log.lastApplied)
    {
      if role != Leader || peers != {} {
        return;
      }
      var last := log.LastIndex();
      if last > commitIndex {
        commitIndex := last;
        log.AdvanceCommit(last);
      }
    }

    // The entries committed since the last time, in order.
    method TakeApplicable() returns (out: seq<LogEntry>)
      requires Valid()
      modifies log
      ensures Valid() && View() == old(View())
      ensures old(InStep()) ==>
        InStep() && log.lastApplied == commitIndex && out == log.entries[old(log.lastApplied) + 1..commitIndex + 1]
    {
      ghost var l := log.View();
      out := log.TakeApplicable();
      if old(InStep()) {
        PresentIsSlice(l, l.lastApplied, l.commitIndex);
      }
    }
  }
}
