// The transaction manager of crates/storage/src/mvcc.rs: transaction states,
// snapshots, visibility and the check for read-write conflicts at commit.
module Mvcc {
  type Xid = nat
  type Tuple = (nat, nat, nat)
  type Footprint = map<Xid, set<Tuple>>

  const INVALID_XID: Xid := 0

  datatype State = State(
    nextXid: Xid, committed: set<Xid>, aborted: set<Xid>, active: set<Xid>,
    readSets: Footprint, writeSets: Footprint)

  datatype Snapshot = Snapshot(xmin: Xid, xmax: Xid, active: set<Xid>)

  // The creator and the deleter of a tuple version.
  datatype Header = Header(xmin: Xid, xmax: Xid)

  // `walOk`: the log took the record.
  datatype Action =
    | Begin
    | Read(xid: Xid, tuple: Tuple)
    | Write(xid: Xid, tuple: Tuple)
    | Commit(xid: Xid, walOk: bool)
    | Abort(xid: Xid, walOk: bool)

  datatype Outcome = Done | NotActive | Conflicted | WalFailed

  // ---- Steps ----

  function Touched(f: Footprint, xid: Xid): set<Tuple> { if xid in f then f[xid] else {} }

  // Another transaction wrote what `xid` read and read what `xid` wrote.
  ghost predicate RwCycle(s: State, xid: Xid, other: Xid) {
    && other != xid
    && Touched(s.readSets, xid) * Touched(s.writeSets, other) != {}
    && Touched(s.writeSets, xid) * Touched(s.readSets, other) != {}
  }

  ghost predicate Conflict(s: State, xid: Xid) {
    exists other :: RwCycle(s, xid, other)
  }

  function Finished(s: State, xid: Xid, commits: bool): State {
    s.(active := s.active - {xid},
       committed := if commits then s.committed + {xid} else s.committed,
       aborted := if commits then s.aborted else s.aborted + {xid},
       readSets := s.readSets - {xid},
       writeSets := s.writeSets - {xid})
  }

  ghost function CommitOutcome(s: State, xid: Xid, walOk: bool): Outcome {
    if xid !in s.active then NotActive
    else if Conflict(s, xid) then Conflicted
    else if walOk then Done
    else WalFailed
  }

  ghost function Step(s: State, a: Action): State {
    match a
    case Begin => s.(nextXid := s.nextXid + 1, active := s.active + {s.nextXid})
    case Read(xid, t) => s.(readSets := s.readSets[xid := Touched(s.readSets, xid) + {t}])
    case Write(xid, t) => s.(writeSets := s.writeSets[xid := Touched(s.writeSets, xid) + {t}])
    case Commit(xid, walOk) =>
      (match CommitOutcome(s, xid, walOk)
       case Done => Finished(s, xid, true)
       case Conflicted => Finished(s, xid, false)
       case _ => s)
    case Abort(xid, walOk) => if xid in s.active && walOk then Finished(s, xid, false) else s
  }

  ghost function Run(s: State, actions: seq<Action>): State
    decreases |actions|
  {
    if actions == [] then s else Run(Step(s, actions[0]), actions[1..])
  }

  const START := State(1, {}, {}, {}, map[], map[])

  // Committed, aborted and active part the ids issued so far.
  ghost predicate Parted(s: State) {
    && s.nextXid >= 1
    && s.committed !! s.aborted !! s.active
    && forall x: Xid :: Issued(s, x) <==> 0 < x < s.nextXid
  }

  ghost predicate Issued(s: State, x: Xid) {
    x in s.committed || x in s.aborted || x in s.active
  }

  // What a later state may differ in: transactions active or not yet begun.
  ghost predicate Later(s: State, t: State) {
    && s.nextXid <= t.nextXid
    && s.committed <= t.committed && s.aborted <= t.aborted
    && (forall x | x in t.active && x < s.nextXid :: x in s.active)
  }

  lemma StepParted(s: State, a: Action)
    requires Parted(s)
    ensures Parted(Step(s, a)) && Later(s, Step(s, a))
  {
    var t := Step(s, a);
    forall x: Xid
      ensures Issued(t, x) <==> 0 < x < t.nextXid
    {
      assert Issued(s, x) <==> 0 < x < s.nextXid;
    }
    assert Issued(s, s.nextXid) <==> 0 < s.nextXid < s.nextXid;
  }

  lemma {:induction false} RunParted(s: State, actions: seq<Action>)
    requires Parted(s)
    ensures Parted(Run(s, actions)) && Later(s, Run(s, actions))
    decreases |actions|
  {
    if actions != [] {
      StepParted(s, actions[0]);
      RunParted(Step(s, actions[0]), actions[1..]);
    }
  }

  // In every run of the manager the three sets part the ids issued.
  lemma StatesPartIds(actions: seq<Action>)
    ensures Parted(Run(START, actions))
  {
    RunParted(START, actions);
  }

  // ---- Snapshots ----

  ghost predicate Least(s: set<Xid>, x: Xid) {
    x in s && forall y | y in s :: x <= y
  }

  // A snapshot taken in `s`.
  ghost predicate TakenIn(s: State, snap: Snapshot) {
    && snap.xmax == s.nextXid && snap.active == s.active
    && (if s.committed == {} then snap.xmin == s.nextXid else Least(s.committed, snap.xmin))
  }

  predicate CommittedBefore(committed: set<Xid>, xid: Xid, snap: Snapshot) {
    if xid == INVALID_XID then false
    else if xid in snap.active then false
    else if xid < snap.xmin then xid in committed
    else if xid >= snap.xmax then false
    else xid in committed
  }

  predicate IsVisible(committed: set<Xid>, h: Header, snap: Snapshot) {
    CommittedBefore(committed, h.xmin, snap) && (h.xmax == INVALID_XID || !CommittedBefore(committed, h.xmax, snap))
  }

  // In any later state, what the snapshot holds for committed is what was
  // committed when it was taken.
  lemma CommittedWhenTaken(s: State, snap: Snapshot, t: State, xid: Xid)
    requires Parted(s) && TakenIn(s, snap) && Parted(t) && Later(s, t)
    ensures CommittedBefore(t.committed, xid, snap) <==> xid in s.committed
  {
    assert Issued(s, xid) <==> 0 < xid < s.nextXid;
    assert Issued(t, xid) <==> 0 < xid < t.nextXid;
    assert Issued(s, snap.xmin) <==> 0 < snap.xmin < s.nextXid;
  }

  // A snapshot keeps its answers through every later run: a version is visible
  // when its creator had committed and its deleter had not.
  lemma SnapshotStable(s: State, snap: Snapshot, actions: seq<Action>, h: Header)
    requires Parted(s) && TakenIn(s, snap)
    ensures IsVisible(Run(s, actions).committed, h, snap) == IsVisible(s.committed, h, snap)
    ensures IsVisible(s.committed, h, snap) <==> h.xmin in s.committed && h.xmax !in s.committed
  {
    var t := Run(s, actions);
    RunParted(s, actions);
    CommittedWhenTaken(s, snap, s, h.xmin);
    CommittedWhenTaken(s, snap, s, h.xmax);
    CommittedWhenTaken(s, snap, t, h.xmin);
    CommittedWhenTaken(s, snap, t, h.xmax);
  }

  // ---- Conflicts ----

  // Both still active, each having read what the other wrote.
  ghost predicate Crossed(s: State, a: Xid, b: Xid) {
    a in s.active && b in s.active && RwCycle(s, a, b)
  }

  // At least one of the two is aborted for good.
  ghost predicate OneAborted(s: State, a: Xid, b: Xid) {
    a in s.aborted || b in s.aborted
  }

  lemma StepCrossed(s: State, act: Action, a: Xid, b: Xid)
    requires Parted(s) && Crossed(s, a, b)
    ensures Crossed(Step(s, act), a, b) || OneAborted(Step(s, act), a, b)
  {
    var t := Step(s, act);
    assert RwCycle(s, b, a);
    if act.Commit? && (act.xid == a || act.xid == b) {
      assert Conflict(s, act.xid);
    } else if a in t.active && b in t.active {
      var x :| x in Touched(s.readSets, a) * Touched(s.writeSets, b);
      var y :| y in Touched(s.writeSets, a) * Touched(s.readSets, b);
      assert x in Touched(t.readSets, a) * Touched(t.writeSets, b);
      assert y in Touched(t.writeSets, a) * Touched(t.readSets, b);
    }
  }

  // Of two transactions that are active and crossed, no run commits both.
  lemma {:induction false} CrossedNotBothCommit(s: State, actions: seq<Action>, a: Xid, b: Xid)
    requires Parted(s) && (Crossed(s, a, b) || OneAborted(s, a, b))
    ensures !(a in Run(s, actions).committed && b in Run(s, actions).committed)
    decreases |actions|
  {
    if OneAborted(s, a, b) {
      RunParted(s, actions);
    } else if actions != [] {
      StepCrossed(s, actions[0], a, b);
      StepParted(s, actions[0]);
      CrossedNotBothCommit(Step(s, actions[0]), actions[1..], a, b);
    }
  }

  // ---- What a history leaves ----

  // The state before action `k`.
  ghost function At(actions: seq<Action>, k: nat): State
    requires k <= |actions|
  {
    Run(START, actions[..k])
  }

  lemma {:induction false} RunSnoc(s: State, actions: seq<Action>, a: Action)
    ensures Run(s, actions + [a]) == Step(Run(s, actions), a)
    decreases |actions|
  {
    if actions == [] {
      assert ([] + [a])[1..] == [];
    } else {
      RunSnoc(Step(s, actions[0]), actions[1..], a);
      assert (actions + [a])[1..] == actions[1..] + [a];
    }
  }

  lemma AtNext(actions: seq<Action>, k: nat)
    requires k < |actions|
    ensures At(actions, k + 1) == Step(At(actions, k), actions[k])
  {
    RunSnoc(START, actions[..k], actions[k]);
    assert actions[..k + 1] == actions[..k] + [actions[k]];
  }

  function Begins(actions: seq<Action>): nat {
    if actions == [] then 0 else Begins(actions[..|actions| - 1]) + (if actions[|actions| - 1].Begin? then 1 else 0)
  }

  // Some other transaction wrote what `xid` read, and read what `xid` wrote.
  ghost predicate Crosses(readSets: Footprint, writeSets: Footprint, xid: Xid) {
    exists other :: other != xid && CrossedBy(readSets, writeSets, xid, other)
  }

  ghost predicate CrossedBy(readSets: Footprint, writeSets: Footprint, xid: Xid, other: Xid) {
    && (exists t :: t in Touched(readSets, xid) && t in Touched(writeSets, other))
    && (exists t :: t in Touched(readSets, other) && t in Touched(writeSets, xid))
  }

  lemma ConflictIff(s: State, xid: Xid)
    ensures Conflict(s, xid) <==> Crosses(s.readSets, s.writeSets, xid)
  {
    forall other
      ensures other != xid ==> (RwCycle(s, xid, other) <==> CrossedBy(s.readSets, s.writeSets, xid, other))
    {
      if RwCycle(s, xid, other) {
        var t :| t in Touched(s.readSets, xid) * Touched(s.writeSets, other);
        var u :| u in Touched(s.writeSets, xid) * Touched(s.readSets, other);
      }
      if other != xid && CrossedBy(s.readSets, s.writeSets, xid, other) {
        var t :| t in Touched(s.readSets, xid) && t in Touched(s.writeSets, other);
        var u :| u in Touched(s.readSets, other) && u in Touched(s.writeSets, xid);
        assert t in Touched(s.readSets, xid) * Touched(s.writeSets, other);
        assert u in Touched(s.writeSets, xid) * Touched(s.readSets, other);
      }
    }
  }

  // Action `k` commits `xid`: it is active, the log takes the record, and no other
  // transaction crosses it.
  ghost predicate CommitsAt(actions: seq<Action>, k: nat, xid: Xid) {
    && k < |actions| && actions[k] == Commit(xid, true) && xid in At(actions, k).active
    && !Crosses(At(actions, k).readSets, At(actions, k).writeSets, xid)
  }

  // Action `k` aborts `xid`: it is asked to and the log takes the record, or a
  // commit finds it crossed.
  ghost predicate AbortsAt(actions: seq<Action>, k: nat, xid: Xid) {
    && k < |actions| && xid in At(actions, k).active
    && (if actions[k].Commit?
        then actions[k].xid == xid && Crosses(At(actions, k).readSets, At(actions, k).writeSets, xid)
        else actions[k] == Abort(xid, true))
  }

  ghost predicate EndsAt(actions: seq<Action>, k: nat, xid: Xid) {
    CommitsAt(actions, k, xid) || AbortsAt(actions, k, xid)
  }

  ghost predicate EndedBefore(actions: seq<Action>, k: nat, xid: Xid) {
    exists j :: 0 <= j < k && EndsAt(actions, j, xid)
  }

  // Before action `k`, `a` has taken place, and `xid` has not ended since.
  ghost predicate Stands(actions: seq<Action>, k: nat, xid: Xid, a: Action) {
    exists j: nat :: j < k && StandsSince(actions, j, k, xid, a)
  }

  ghost predicate StandsSince(actions: seq<Action>, j: nat, k: nat, xid: Xid, a: Action) {
    j < |actions| && actions[j] == a && forall i: nat | j < i < k :: !EndsAt(actions, i, xid)
  }

  // One action further, in the terms above.
  lemma StepOfHistory(actions: seq<Action>, k: nat, xid: Xid)
    requires k < |actions|
    ensures
      var s, t := At(actions, k), At(actions, k + 1);
      && (xid in t.committed <==> xid in s.committed || CommitsAt(actions, k, xid))
      && (xid in t.aborted <==> xid in s.aborted || AbortsAt(actions, k, xid))
      && (xid in t.active <==>
            (xid in s.active || (actions[k].Begin? && xid == s.nextXid)) && !EndsAt(actions, k, xid))
      && t.nextXid == s.nextXid + (if actions[k].Begin? then 1 else 0)
  {
    AtNext(actions, k);
    ConflictIff(At(actions, k), xid);
  }

  lemma StepOfReads(actions: seq<Action>, k: nat, xid: Xid, u: Tuple)
    requires k < |actions|
    ensures
      var s, t := At(actions, k), At(actions, k + 1);
      && (u in Touched(t.readSets, xid) <==>
            (u in Touched(s.readSets, xid) || actions[k] == Read(xid, u)) && !EndsAt(actions, k, xid))
      && (u in Touched(t.writeSets, xid) <==>
            (u in Touched(s.writeSets, xid) || actions[k] == Write(xid, u)) && !EndsAt(actions, k, xid))
  {
    AtNext(actions, k);
    ConflictIff(At(actions, k), xid);
  }

  lemma EndedNext(actions: seq<Action>, k: nat, xid: Xid)
    ensures EndedBefore(actions, k + 1, xid) <==> EndedBefore(actions, k, xid) || EndsAt(actions, k, xid)
  {
  }

  lemma StandsOn(actions: seq<Action>, j: nat, k: nat, xid: Xid, a: Action)
    requires StandsSince(actions, j, k, xid, a) && (j == k || !EndsAt(actions, k, xid))
    ensures StandsSince(actions, j, k + 1, xid, a)
  {
  }

  lemma StandsNext(actions: seq<Action>, k: nat, xid: Xid, a: Action)
    requires k < |actions| && (a.Read? || a.Write?)
    ensures Stands(actions, k + 1, xid, a) <==> (Stands(actions, k, xid, a) || actions[k] == a) && !EndsAt(actions, k, xid)
  {
    if Stands(actions, k + 1, xid, a) {
      var j: nat :| j < k + 1 && StandsSince(actions, j, k + 1, xid, a);
      if j < k {
        assert StandsSince(actions, j, k, xid, a) && !EndsAt(actions, k, xid);
      }
    }
    if (Stands(actions, k, xid, a) || actions[k] == a) && !EndsAt(actions, k, xid) {
      if actions[k] == a {
        StandsOn(actions, k, k, xid, a);
      } else {
        var j: nat :| j < k && StandsSince(actions, j, k, xid, a);
        StandsOn(actions, j, k, xid, a);
      }
    }
  }

  // A transaction has touched what it did since it last ended.
  lemma {:induction false} TouchedInHistory(actions: seq<Action>, k: nat, xid: Xid, u: Tuple)
    requires k <= |actions|
    ensures
      var s := At(actions, k);
      && (u in Touched(s.readSets, xid) <==> Stands(actions, k, xid, Read(xid, u)))
      && (u in Touched(s.writeSets, xid) <==> Stands(actions, k, xid, Write(xid, u)))
  {
    if k > 0 {
      TouchedInHistory(actions, k - 1, xid, u);
      StepOfReads(actions, k - 1, xid, u);
      StandsNext(actions, k - 1, xid, Read(xid, u));
      StandsNext(actions, k - 1, xid, Write(xid, u));
    }
  }

  // The state of every transaction is what its history says: ids are issued in order, a
  // transaction is active from its beginning to its end, and committed or aborted by the
  // action that ended it.
  lemma {:induction false} StateOfHistory(actions: seq<Action>, k: nat, xid: Xid)
    requires k <= |actions|
    ensures
      var s := At(actions, k);
      && s.nextXid == 1 + Begins(actions[..k])
      && (xid in s.active <==> 0 < xid <= Begins(actions[..k]) && !EndedBefore(actions, k, xid))
      && (xid in s.committed <==> exists j :: 0 <= j < k && CommitsAt(actions, j, xid))
      && (xid in s.aborted <==> exists j :: 0 <= j < k && AbortsAt(actions, j, xid))
  {
    if k > 0 {
      StateOfHistory(actions, k - 1, xid);
      StepOfHistory(actions, k - 1, xid);
      EndedNext(actions, k - 1, xid);
      assert actions[..k][..k - 1] == actions[..k - 1];
      EndedWasIssued(actions, k - 1, xid);
    }
  }

  lemma {:induction false} RunSplit(s: State, a: seq<Action>, b: seq<Action>)
    ensures Run(s, a + b) == Run(Run(s, a), b)
    decreases |a|
  {
    if a == [] {
      assert a + b == b;
    } else {
      RunSplit(Step(s, a[0]), a[1..], b);
      assert (a + b)[1..] == a[1..] + b;
    }
  }

  // What has ended had begun.
  lemma EndedWasIssued(actions: seq<Action>, k: nat, xid: Xid)
    requires k <= |actions|
    ensures EndedBefore(actions, k, xid) ==> xid < At(actions, k).nextXid
  {
    if EndedBefore(actions, k, xid) {
      var j :| 0 <= j < k && EndsAt(actions, j, xid);
      AtLater(actions, j, k);
      assert Issued(At(actions, j), xid);
    }
  }

  lemma AtLater(actions: seq<Action>, j: nat, k: nat)
    requires j <= k <= |actions|
    ensures Parted(At(actions, j)) && Parted(At(actions, k)) && Later(At(actions, j), At(actions, k))
  {
    assert actions[..k] == actions[..j] + actions[j..k];
    RunSplit(START, actions[..j], actions[j..k]);
    RunParted(START, actions[..j]);
    RunParted(At(actions, j), actions[j..k]);
  }

  // A transaction that has read nothing, or written nothing, commits when the log takes
  // the record, and every snapshot from then on sees the tuples it created, for good,
  // unless their deleter had committed too.
  lemma LoneCommits(actions: seq<Action>, k: nat, xid: Xid, n: nat, snap: Snapshot, m: nat, deleter: Xid)
    requires k < n <= m <= |actions| && actions[k] == Commit(xid, true) && xid in At(actions, k).active
    requires (forall u :: !Stands(actions, k, xid, Read(xid, u))) || (forall u :: !Stands(actions, k, xid, Write(xid, u)))
    requires TakenIn(At(actions, n), snap)
    ensures xid in At(actions, n).committed
    ensures IsVisible(At(actions, m).committed, Header(xid, deleter), snap) <==> deleter !in At(actions, n).committed
  {
    if Crosses(At(actions, k).readSets, At(actions, k).writeSets, xid) {
      var other :| other != xid && CrossedBy(At(actions, k).readSets, At(actions, k).writeSets, xid, other);
      var t :| t in Touched(At(actions, k).readSets, xid);
      var u :| u in Touched(At(actions, k).writeSets, xid);
      TouchedInHistory(actions, k, xid, t);
      TouchedInHistory(actions, k, xid, u);
      assert false;
    }
    StateOfHistory(actions, k + 1, xid);
    assert CommitsAt(actions, k, xid);
    AtLater(actions, k + 1, n);
    AtLater(actions, n, m);
    assert actions[..m] == actions[..n] + actions[n..m];
    RunSplit(START, actions[..n], actions[n..m]);
    SnapshotStable(At(actions, n), snap, actions[n..m], Header(xid, deleter));
  }

  // ---- The manager ----

  class TransactionManager {
    var nextXid: Xid
    var committed: set<Xid>
    var aborted: set<Xid>
    var active: set<Xid>
    var readSets: Footprint
    var writeSets: Footprint

    ghost function Value(): State
      reads this
    {
      State(nextXid, committed, aborted, active, readSets, writeSets)
    }

    constructor ()
      ensures Value() == START
    {
      nextXid := 1;
      committed, aborted, active := {}, {}, {};
      readSets, writeSets := map[], map[];
    }

    method BeginTransaction() returns (xid: Xid)
      modifies this
      ensures Value() == Step(old(Value()), Begin)
      ensures old(Parted(Value())) ==> xid in active && !old(Issued(Value(), xid))
    {
      xid := nextXid;
      assert Parted(Value()) ==> (Issued(Value(), xid) <==> 0 < xid < nextXid);
      nextXid := nextXid + 1;
      active := active + {xid};
    }

    method RecordRead(xid: Xid, tuple: Tuple)
      modifies this`readSets
      ensures Value() == Step(old(Value()), Read(xid, tuple))
    {
      readSets := readSets[xid := Touched(readSets, xid) + {tuple}];
    }

    method RecordWrite(xid: Xid, tuple: Tuple)
      modifies this`writeSets
      ensures Value() == Step(old(Value()), Write(xid, tuple))
    {
      writeSets := writeSets[xid := Touched(writeSets, xid) + {tuple}];
    }

    method CheckConflict(xid: Xid) returns (conflict: bool)
      ensures conflict <==> Conflict(Value(), xid)
    {
      if xid !in readSets || xid !in writeSets {
        return false;
      }
      var myReads, myWrites, todo := readSets[xid], writeSets[xid], writeSets.Keys;
      while todo != {}
        invariant todo <= writeSets.Keys
        invariant forall other | other !in todo :: !RwCycle(Value(), xid, other)
      {
        var other :| other in todo;
        if other != xid && myReads * writeSets[other] != {} {
          if other in readSets && myWrites * readSets[other] != {} {
            assert RwCycle(Value(), xid, other);
            return true;
          }
        }
        todo := todo - {other};
      }
      conflict := false;
    }

    method Finish(xid: Xid, commits: bool)
      modifies this
      ensures Value() == Finished(old(Value()), xid, commits)
    {
      active := active - {xid};
      if commits {
        committed := committed + {xid};
      } else {
        aborted := aborted + {xid};
      }
      readSets, writeSets := readSets - {xid}, writeSets - {xid};
    }

    method CommitTransaction(xid: Xid, walOk: bool) returns (outcome: Outcome)
      modifies this
      ensures outcome == CommitOutcome(old(Value()), xid, walOk)
      ensures Value() == Step(old(Value()), Commit(xid, walOk))
      ensures outcome.Done? <==> xid in old(active) && walOk && !Crosses(old(readSets), old(writeSets), xid)
      ensures outcome.Conflicted? <==> xid in old(active) && Crosses(old(readSets), old(writeSets), xid)
      ensures outcome.NotActive? <==> xid !in old(active)
      ensures committed == old(committed) + if outcome.Done? then {xid} else {}
      ensures aborted == old(aborted) + if outcome.Conflicted? then {xid} else {}
      ensures active == old(active) - if outcome.Done? || outcome.Conflicted? then {xid} else {}
      ensures outcome.NotActive? || outcome.WalFailed? ==> Value() == old(Value())
    {
      ConflictIff(Value(), xid);
      if xid !in active {
        return NotActive;
      }
      var conflict := CheckConflict(xid);
      if conflict {
        Finish(xid, false);
        return Conflicted;
      }
      if !walOk {
        return WalFailed;
      }
      Finish(xid, true);
      outcome := Done;
    }

    method AbortTransaction(xid: Xid, walOk: bool) returns (outcome: Outcome)
      modifies this
      ensures outcome == if xid !in old(active) then NotActive else if walOk then Done else WalFailed
      ensures Value() == Step(old(Value()), Abort(xid, walOk))
      ensures if outcome.Done? then xid in aborted && xid !in active else Value() == old(Value())
    {
      if xid !in active {
        return NotActive;
      }
      if !walOk {
        return WalFailed;
      }
      Finish(xid, false);
      outcome := Done;
    }

    method TakeSnapshot() returns (snap: Snapshot)
      ensures TakenIn(Value(), snap)
    {
      var xmin := nextXid;
      if committed != {} {
        xmin :| xmin in committed;
        var rest := committed - {xmin};
        while rest != {}
          invariant xmin in committed && forall y | y in committed && y !in rest :: xmin <= y
        {
          var x :| x in rest;
          if x < xmin {
            xmin := x;
          }
          rest := rest - {x};
        }
      }
      snap := Snapshot(xmin, nextXid, active);
    }
  }
}
