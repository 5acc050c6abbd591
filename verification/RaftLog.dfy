// The replicated log of crates/raft/src/log.rs: an in-memory suffix of the
// full log, whose first slot is a sentinel (index 0) or a snapshot base.
module RaftLog {

  type Byte = bv8

  datatype Option<+T> = None | Some(value: T)

  datatype LogEntry = LogEntry(term: nat, index: nat, data: seq<Byte>)

  datatype Snapshot = Snapshot(lastIncludedIndex: nat, lastIncludedTerm: nat, data: seq<Byte>)

  const SENTINEL := LogEntry(0, 0, [])

  // The value of a log. `entries[i]` is the entry at index `base + i`.
  datatype LogState = LogState(
    entries: seq<LogEntry>,
    commitIndex: nat,
    lastApplied: nat,
    base: nat,
    snapshot: Option<Snapshot>)
  {
    // What every operation keeps.
    ghost predicate Valid() {
      && |entries| > 0
      && (forall i | 0 <= i < |entries| :: entries[i].index == base + i)
      && base <= lastApplied <= commitIndex <= LastIndex()
    }

    function LastIndex(): nat {
      if |entries| == 0 then base else base + |entries| - 1
    }

    function LastTerm(): nat {
      if |entries| == 0 then 0 else entries[|entries| - 1].term
    }

    function Get(index: nat): Option<LogEntry> {
      if index < base || index - base >= |entries| then None else Some(entries[index - base])
    }

    function EntriesFrom(index: nat): seq<LogEntry> {
      if index < base || index - base >= |entries| then [] else entries[index - base..]
    }

    function Append(term: nat, data: seq<Byte>): LogState {
      this.(entries := entries + [LogEntry(term, base + |entries|, data)])
    }

    function TruncateAfter(index: nat): LogState {
      if index < base || index - base + 1 >= |entries| then this
      else this.(entries := entries[..index - base + 1],
                 commitIndex := if commitIndex > index then index else commitIndex)
    }

    function AdvanceCommit(index: nat): LogState {
      if index <= commitIndex then this
      else this.(commitIndex := if index < LastIndex() then index else LastIndex())
    }

    // The entries present at indexes `lo + 1 ..= hi`, in order.
    function Present(lo: nat, hi: nat): seq<LogEntry>
      decreases hi
    {
      if hi <= lo then []
      else Present(lo, hi - 1) + (match Get(hi) case Some(e) => [e] case None => [])
    }

    function TakeApplicable(): (LogState, seq<LogEntry>) {
      if lastApplied >= commitIndex then (this, [])
      else (this.(lastApplied := commitIndex), Present(lastApplied, commitIndex))
    }

    function Compact(snap: Snapshot): LogState {
      var at := snap.lastIncludedIndex;
      if at <= base then this
      else
        var sentinel := LogEntry(snap.lastIncludedTerm, at, []);
        LogState(
          if at >= base + |entries| then [sentinel] else [sentinel] + entries[at - base + 1..],
          if commitIndex < at then at else commitIndex,
          if lastApplied < at then at else lastApplied,
          at,
          Some(snap))
    }
  }

  const EMPTY := LogState([SENTINEL], 0, 0, 0, None)

  // The log object: fields updated in place by each method.
  class Log {
    var entries: seq<LogEntry>
    var commitIndex: nat
    var lastApplied: nat
    var baseIndex: nat
    var snapshot: Option<Snapshot>

    ghost function View(): LogState
      reads this
    {
      LogState(entries, commitIndex, lastApplied, baseIndex, snapshot)
    }

    constructor ()
      ensures View() == EMPTY && View().Valid()
    {
      entries, commitIndex, lastApplied, baseIndex, snapshot := [SENTINEL], 0, 0, 0, None;
    }

    method Append(term: nat, data: seq<Byte>) returns (index: nat)
      modifies this
      ensures View() == old(View()).Append(term, data)
      ensures index == old(baseIndex + |entries|)
    {
      index := baseIndex + |entries|;
      entries := entries + [LogEntry(term, index, data)];
    }

    method Get(index: nat) returns (r: Option<LogEntry>)
      ensures r == View().Get(index)
    {
      if index < baseIndex {
        return None;
      }
      var pos := index - baseIndex;
      r := if pos < |entries| then Some(entries[pos]) else None;
    }

    method LastIndex() returns (r: nat)
      ensures r == View().LastIndex()
    {
      r := baseIndex + (if |entries| == 0 then 0 else |entries| - 1);
    }

    method LastTerm() returns (r: nat)
      ensures r == View().LastTerm()
    {
      r := if |entries| == 0 then 0 else entries[|entries| - 1].term;
    }

    method TruncateAfter(index: nat)
      modifies this
      ensures View() == old(View()).TruncateAfter(index)
    {
      if index < baseIndex {
        return;
      }
      var truncateAt := index - baseIndex + 1;
      if truncateAt < |entries| {
        entries := entries[..truncateAt];
        if commitIndex > index {
          commitIndex := index;
        }
      }
    }

    method AdvanceCommit(index: nat)
      modifies this
      ensures View() == old(View()).AdvanceCommit(index)
    {
      if index > commitIndex {
        var last := LastIndex();
        commitIndex := if index < last then index else last;
      }
    }

    method EntriesFrom(index: nat) returns (r: seq<LogEntry>)
      ensures r == View().EntriesFrom(index)
    {
      if index < baseIndex {
        return [];
      }
      var start := index - baseIndex;
      r := if start >= |entries| then [] else entries[start..];
    }

    method TakeApplicable() returns (out: seq<LogEntry>)
      modifies this
      ensures (View(), out) == old(View()).TakeApplicable()
    {
      ghost var before := View();
      out := [];
      while lastApplied < commitIndex
        invariant before.lastApplied <= lastApplied
        invariant lastApplied <= before.commitIndex || lastApplied == before.lastApplied
        invariant View() == before.(lastApplied := lastApplied)
        invariant out == before.Present(before.lastApplied, lastApplied)
      {
        lastApplied := lastApplied + 1;
        var e := Get(lastApplied);
        if e.Some? {
          out := out + [e.value];
        }
      }
    }

    method Compact(snap: Snapshot)
      modifies this
      ensures View() == old(View()).Compact(snap)
    {
      var at := snap.lastIncludedIndex;
      if at <= baseIndex {
        return;
      }
      if at >= baseIndex + |entries| {
        entries := [LogEntry(snap.lastIncludedTerm, at, [])];
      } else {
        entries := entries[at - baseIndex..];
        entries := entries[0 := LogEntry(snap.lastIncludedTerm, at, [])];
      }
      baseIndex := at;
      if lastApplied < at {
        lastApplied := at;
      }
      if commitIndex < at {
        commitIndex := at;
      }
      snapshot := Some(snap);
    }
  }

  // ---- Compaction is invisible, and every committed entry is delivered once ----

  datatype Op =
    | Append(term: nat, data: seq<Byte>)
    | Truncate(index: nat)
    | AdvanceCommit(index: nat)
    | Take
    | Compact(snap: Snapshot)

  // What the owner of a log keeps to: no truncation of delivered entries, and
  // snapshots only of delivered entries, with the term the log holds there.
  ghost predicate Allowed(l: LogState, op: Op) {
    match op
    case Truncate(index) => index >= l.lastApplied
    case Compact(snap) =>
      && snap.lastIncludedIndex <= l.lastApplied
      && (snap.lastIncludedIndex > l.base ==>
            l.Get(snap.lastIncludedIndex).Some?
            && l.Get(snap.lastIncludedIndex).value.term == snap.lastIncludedTerm)
    case _ => true
  }

  function Apply(l: LogState, op: Op): (LogState, seq<LogEntry>) {
    match op
    case Append(term, data) => (l.Append(term, data), [])
    case Truncate(index) => (l.TruncateAfter(index), [])
    case AdvanceCommit(index) => (l.AdvanceCommit(index), [])
    case Take => l.TakeApplicable()
    case Compact(snap) => (l.Compact(snap), [])
  }

  // The same operation on a log that never compacts.
  function ApplyFull(l: LogState, op: Op): (LogState, seq<LogEntry>) {
    if op.Compact? then (l, []) else Apply(l, op)
  }

  ghost predicate AllAllowed(l: LogState, ops: seq<Op>)
    decreases |ops|
  {
    ops == [] || (Allowed(l, ops[0]) && AllAllowed(Apply(l, ops[0]).0, ops[1..]))
  }

  // Final log and the concatenation of all delivered batches.
  function Run(l: LogState, ops: seq<Op>): (LogState, seq<LogEntry>)
    decreases |ops|
  {
    if ops == [] then (l, [])
    else
      var (l1, out) := Apply(l, ops[0]);
      var (l2, rest) := Run(l1, ops[1..]);
      (l2, out + rest)
  }

  function RunFull(l: LogState, ops: seq<Op>): (LogState, seq<LogEntry>)
    decreases |ops|
  {
    if ops == [] then (l, [])
    else
      var (l1, out) := ApplyFull(l, ops[0]);
      var (l2, rest) := RunFull(l1, ops[1..]);
      (l2, out + rest)
  }

  // `c` holds the tail of `full` above its base, and the base's own term.
  ghost predicate Refines(c: LogState, full: LogState) {
    && c.Valid() && full.Valid() && full.base == 0
    && c.LastIndex() == full.LastIndex()
    && c.commitIndex == full.commitIndex && c.lastApplied == full.lastApplied
    && c.entries[1..] == full.entries[c.base + 1..]
    && c.entries[0].term == full.entries[c.base].term
  }

  lemma PresentIsSlice(l: LogState, lo: nat, hi: nat)
    requires l.entries != [] && l.base <= lo <= hi <= l.LastIndex()
    ensures l.Present(lo, hi) == l.entries[lo - l.base + 1..hi - l.base + 1]
    decreases hi
  {
    if lo < hi {
      PresentIsSlice(l, lo, hi - 1);
    }
  }

  function Larger(a: nat, b: nat): nat { if a < b then b else a }

  function Smaller(a: nat, b: nat): nat { if a < b then a else b }

  // What each operation does to the entry at any index, and to the two marks.
  lemma OperationAt(l: LogState, op: Op, i: nat)
    requires l.Valid()
    ensures
      var (l', out) := Apply(l, op);
      match op
      case Append(term, data) =>
        && l'.Get(i) == (if i == l.LastIndex() + 1 then Some(LogEntry(term, i, data)) else l.Get(i))
        && l'.commitIndex == l.commitIndex && l'.lastApplied == l.lastApplied
      case Truncate(index) =>
        && l'.Get(i) == (if i > index >= l.base then None else l.Get(i)) && l'.lastApplied == l.lastApplied
        && l'.commitIndex == (if index >= l.base then Smaller(l.commitIndex, index) else l.commitIndex)
      case AdvanceCommit(index) =>
        && l'.Get(i) == l.Get(i) && l'.lastApplied == l.lastApplied
        && l'.commitIndex == Larger(l.commitIndex, Smaller(index, l.LastIndex()))
      case Take =>
        && l'.Get(i) == l.Get(i) && l'.lastApplied == l'.commitIndex == l.commitIndex == l.lastApplied + |out|
        && (i < |out| ==> Some(out[i]) == l.Get(l.lastApplied + 1 + i))
      case Compact(snap) =>
        var at := snap.lastIncludedIndex;
        if at <= l.base then l' == l
        else
          && l'.base == at && l'.snapshot == Some(snap) && l'.LastIndex() == Larger(l.LastIndex(), at)
          && l'.Get(i) == (if i < at then None else if i == at then Some(LogEntry(snap.lastIncludedTerm, at, [])) else l.Get(i))
          && l'.commitIndex == Larger(l.commitIndex, at) && l'.lastApplied == Larger(l.lastApplied, at)
  {
    match op
    case Take => TakenAt(l, i);
    case Compact(snap) =>
      if snap.lastIncludedIndex > l.base {
        CompactedAt(l, snap, i);
      }
    case _ =>
  }

  lemma TakenAt(l: LogState, i: nat)
    requires l.Valid()
    ensures
      var (l', out) := l.TakeApplicable();
      && l'.Get(i) == l.Get(i) && l'.lastApplied == l'.commitIndex == l.commitIndex == l.lastApplied + |out|
      && (i < |out| ==> Some(out[i]) == l.Get(l.lastApplied + 1 + i))
  {
    PresentIsSlice(l, l.lastApplied, l.commitIndex);
  }

  lemma CompactedAt(l: LogState, snap: Snapshot, i: nat)
    requires l.Valid() && snap.lastIncludedIndex > l.base
    ensures
      var l', at := l.Compact(snap), snap.lastIncludedIndex;
      && l'.base == at && l'.snapshot == Some(snap) && l'.LastIndex() == Larger(l.LastIndex(), at)
      && l'.Get(i) == (if i < at then None else if i == at then Some(LogEntry(snap.lastIncludedTerm, at, [])) else l.Get(i))
      && l'.commitIndex == Larger(l.commitIndex, at) && l'.lastApplied == Larger(l.lastApplied, at)
  {
  }

  lemma RefinesGet(c: LogState, full: LogState, i: nat)
    requires Refines(c, full) && c.base < i
    ensures c.Get(i) == full.Get(i)
  {
    if i <= c.LastIndex() {
      assert c.entries[1..][i - c.base - 1] == full.entries[c.base + 1..][i - c.base - 1];
    }
  }

  lemma TruncateRefines(c: LogState, full: LogState, index: nat)
    requires Refines(c, full) && index >= c.lastApplied
    ensures Refines(c.TruncateAfter(index), full.TruncateAfter(index))
  {
    var c', full' := c.TruncateAfter(index), full.TruncateAfter(index);
    if index < c.LastIndex() {
      assert c'.entries[1..] == c.entries[1..][..index - c.base];
      assert full'.entries[c.base + 1..] == full.entries[c.base + 1..][..index - c.base];
    }
  }

  lemma TakeRefines(c: LogState, full: LogState)
    requires Refines(c, full)
    ensures Refines(c.TakeApplicable().0, full.TakeApplicable().0)
    ensures c.TakeApplicable().1 == full.TakeApplicable().1
  {
    var lo, hi := c.lastApplied, c.commitIndex;
    PresentIsSlice(c, lo, hi);
    PresentIsSlice(full, lo, hi);
    SliceOfTail(c.entries, 1, lo - c.base + 1, hi - c.base + 1);
    SliceOfTail(full.entries, c.base + 1, lo + 1, hi + 1);
  }

  lemma SliceOfTail(s: seq<LogEntry>, from: nat, lo: nat, hi: nat)
    requires from <= lo <= hi <= |s|
    ensures s[lo..hi] == s[from..][lo - from..hi - from]
  {
  }

  lemma CompactRefines(c: LogState, full: LogState, snap: Snapshot)
    requires Refines(c, full) && Allowed(c, Compact(snap))
    ensures Refines(c.Compact(snap), full)
  {
    var at := snap.lastIncludedIndex;
    if at > c.base {
      RefinesGet(c, full, at);
      assert c.Compact(snap).entries[1..] == c.entries[1..][at - c.base..];
      assert full.entries[at + 1..] == full.entries[c.base + 1..][at - c.base..];
    }
  }

  lemma AppendRefines(c: LogState, full: LogState, term: nat, data: seq<Byte>)
    requires Refines(c, full)
    ensures Refines(c.Append(term, data), full.Append(term, data))
  {
    assert c.Append(term, data).entries[1..] == c.entries[1..] + [LogEntry(term, c.LastIndex() + 1, data)];
  }

  lemma AdvanceRefines(c: LogState, full: LogState, index: nat)
    requires Refines(c, full)
    ensures Refines(c.AdvanceCommit(index), full.AdvanceCommit(index))
  {
  }

  lemma StepRefines(c: LogState, full: LogState, op: Op)
    requires Refines(c, full) && Allowed(c, op)
    ensures Refines(Apply(c, op).0, ApplyFull(full, op).0)
    ensures Apply(c, op).1 == ApplyFull(full, op).1
  {
    match op
    case Append(term, data) => AppendRefines(c, full, term, data);
    case Truncate(index) => TruncateRefines(c, full, index);
    case AdvanceCommit(index) => AdvanceRefines(c, full, index);
    case Take => TakeRefines(c, full);
    case Compact(snap) => CompactRefines(c, full, snap);
  }

  // Going from `l` to `l'`, the delivered entries are exactly those between the
  // two applied marks, and the entries delivered earlier have not changed.
  ghost predicate Delivers(l: LogState, l': LogState, out: seq<LogEntry>) {
    && l.lastApplied <= l'.lastApplied
    && l.lastApplied < |l.entries| && l'.lastApplied < |l'.entries|
    && l'.entries[..l.lastApplied + 1] == l.entries[..l.lastApplied + 1]
    && out == l'.entries[l.lastApplied + 1..l'.lastApplied + 1]
  }

  lemma StepDelivers(full: LogState, op: Op)
    requires full.Valid() && full.base == 0 && (op.Truncate? ==> op.index >= full.lastApplied)
    ensures Delivers(full, ApplyFull(full, op).0, ApplyFull(full, op).1)
  {
    if op.Take? {
      PresentIsSlice(full, full.lastApplied, full.commitIndex);
    }
  }

  lemma DeliversThenDelivers(l: LogState, l1: LogState, l2: LogState, out1: seq<LogEntry>, out2: seq<LogEntry>)
    requires Delivers(l, l1, out1) && Delivers(l1, l2, out2)
    ensures Delivers(l, l2, out1 + out2)
  {
    var a, b, d := l.lastApplied + 1, l1.lastApplied + 1, l2.lastApplied + 1;
    assert l2.entries[..a] == l2.entries[..b][..a];
    assert l1.entries[..a] == l1.entries[..b][..a];
    assert l2.entries[a..b] == l2.entries[..b][a..];
    assert l1.entries[a..b] == l1.entries[..b][a..];
  }

  // Over any run, the compacted log stays the tail of the never-compacted one
  // and both deliver the same entries, each exactly once and in log order.
  lemma {:induction false} RunRefines(c: LogState, full: LogState, ops: seq<Op>)
    requires Refines(c, full) && AllAllowed(c, ops)
    ensures Refines(Run(c, ops).0, RunFull(full, ops).0)
    ensures Run(c, ops).1 == RunFull(full, ops).1
    ensures Delivers(full, RunFull(full, ops).0, RunFull(full, ops).1)
    decreases |ops|
  {
    if ops != [] {
      var (c1, out) := Apply(c, ops[0]);
      var full1 := ApplyFull(full, ops[0]).0;
      assert Refines(c1, full1) && out == ApplyFull(full, ops[0]).1 by {
        StepRefines(c, full, ops[0]);
      }
      RunRefines(c1, full1, ops[1..]);
      var (full2, rest) := RunFull(full1, ops[1..]);
      assert Delivers(full, full2, out + rest) by {
        StepDelivers(full, ops[0]);
        DeliversThenDelivers(full, full1, full2, out, rest);
      }
    }
  }

  // From an empty log: the delivered entries carry the indexes 1, 2, 3, ... up
  // to the last applied one, with no gap and no repeat, and the compacted log
  // answers like the full one for every index above its base.
  lemma DeliversEachIndexOnce(ops: seq<Op>)
    requires AllAllowed(EMPTY, ops)
    ensures
      var (l, delivered) := Run(EMPTY, ops);
      var full := RunFull(EMPTY, ops).0;
      && |delivered| == l.lastApplied
      && (forall k | 0 <= k < |delivered| ::
            delivered[k].index == k + 1 && full.Get(k + 1) == Some(delivered[k]))
      && (forall i: nat | l.base < i :: l.Get(i) == full.Get(i))
  {
    RunRefines(EMPTY, EMPTY, ops);
    var (l, delivered) := Run(EMPTY, ops);
    var full := RunFull(EMPTY, ops).0;
    forall i: nat | l.base < i ensures l.Get(i) == full.Get(i) {
      RefinesGet(l, full, i);
    }
  }
}
