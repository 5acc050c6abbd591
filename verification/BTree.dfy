// The B+ tree index of crates/storage/src/btree.rs over a map of pages, for
// distinct keys of one fixed length. A key is represented by its big-endian
// value; BigEndianKeys shows that this is the byte order of such keys.
module BTree {
  import JsonValue

  type PageId = nat

  datatype Option<+T> = None | Some(value: T)

  datatype TupleId = TupleId(page: nat, slot: nat)
  datatype Entry = Entry(key: int, tid: TupleId)
  datatype Separator = Separator(key: int, child: PageId)

  datatype Page =
    | Leaf(entries: seq<Entry>, prev: Option<PageId>, next: Option<PageId>)
    | Internal(level: nat, leftmost: PageId, seps: seq<Separator>)

  // Bytes of a node page between header and special space, and what one entry
  // (with its slot) takes: length, key, and a tuple id or a child page id.
  const NODE_CAPACITY: nat := 8192 - 48 - 28
  function LeafCost(keyLen: nat): nat { 4 + 12 + keyLen }
  function InternalCost(keyLen: nat): nat { 4 + 10 + keyLen }
  predicate Fits(count: nat, cost: nat) { count * cost <= NODE_CAPACITY }

  // ---- The invariant ----

  // Where a page sits: its level above the leaves and the keys it is for.
  datatype Region = Region(level: nat, lo: int, hi: int)

  // A page `left` has been split at `sep`; no parent lists `right` yet.
  datatype Pending = Pending(left: PageId, sep: int, right: PageId)

  datatype State = State(
    pages: map<PageId, Page>,
    shape: map<PageId, Region>,
    root: PageId,
    contents: map<int, TupleId>,
    limit: int)

  function Kid(p: Page, i: nat): PageId
    requires p.Internal? && i <= |p.seps|
  {
    if i == 0 then p.leftmost else p.seps[i - 1].child
  }

  function Lo(p: Page, i: nat, lo: int): int
    requires p.Internal? && i <= |p.seps|
  {
    if i == 0 then lo else p.seps[i - 1].key
  }

  function Hi(p: Page, i: nat, hi: int): int
    requires p.Internal? && i <= |p.seps|
  {
    if i == |p.seps| then hi else p.seps[i].key
  }

  // Page `c`, with its pending right half, covers exactly `lo..hi` at `level`.
  predicate Covers(shape: map<PageId, Region>, pend: Option<Pending>, c: PageId, level: nat, lo: int, hi: int) {
    && c in shape && lo < hi
    && if pend.Some? && pend.value.left == c then
         && lo < pend.value.sep < hi && pend.value.right in shape
         && shape[c] == Region(level, lo, pend.value.sep)
         && shape[pend.value.right] == Region(level, pend.value.sep, hi)
       else
         shape[c] == Region(level, lo, hi)
  }

  predicate SlotOk(shape: map<PageId, Region>, pend: Option<Pending>, p: Page, r: Region, i: nat)
    requires p.Internal? && i <= |p.seps|
  {
    r.level > 0 && Covers(shape, pend, Kid(p, i), r.level - 1, Lo(p, i, r.lo), Hi(p, i, r.hi))
  }

  predicate InternalOk(s: State, pend: Option<Pending>, p: Page, r: Region)
    requires p.Internal?
  {
    && p.level == r.level && r.level > 0
    && forall i | 0 <= i <= |p.seps| :: SlotOk(s.shape, pend, p, r, i)
  }

  predicate Sorted(entries: seq<Entry>) {
    forall i, j | 0 <= i < j < |entries| :: entries[i].key < entries[j].key
  }

  predicate HasKey(entries: seq<Entry>, k: int) {
    exists i | 0 <= i < |entries| :: entries[i].key == k
  }

  // The leaf holds exactly the contents of its region.
  predicate Holds(contents: map<int, TupleId>, entries: seq<Entry>, lo: int, hi: int) {
    && (forall i | 0 <= i < |entries| ::
          && lo <= entries[i].key < hi
          && entries[i].key in contents && contents[entries[i].key] == entries[i].tid)
    && (forall k {:trigger HasKey(entries, k)} | k in contents && lo <= k < hi :: HasKey(entries, k))
  }

  // The next leaf starts where this one ends, and points back.
  predicate LinkOk(s: State, id: PageId, next: Option<PageId>, hi: int) {
    match next
    case None => hi == s.limit
    case Some(n) =>
      && n in s.shape && n in s.pages && s.pages[n].Leaf?
      && s.shape[n].level == 0 && s.shape[n].lo == hi && s.pages[n].prev == Some(id)
  }

  predicate LeafOk(s: State, id: PageId, p: Page, r: Region)
    requires p.Leaf?
  {
    && r.level == 0
    && Sorted(p.entries) && Holds(s.contents, p.entries, r.lo, r.hi)
    && LinkOk(s, id, p.next, r.hi)
  }

  predicate PageOk(s: State, pend: Option<Pending>, id: PageId) {
    id in s.shape ==>
      && id in s.pages && 0 <= s.shape[id].lo < s.shape[id].hi <= s.limit
      && s.root in s.shape && s.shape[id].level <= s.shape[s.root].level
      && if s.pages[id].Leaf? then LeafOk(s, id, s.pages[id], s.shape[id])
         else InternalOk(s, pend, s.pages[id], s.shape[id])
  }

  // Pages of one level have disjoint regions.
  predicate Apart(shape: map<PageId, Region>, a: PageId, b: PageId) {
    a in shape && b in shape && a != b && shape[a].level == shape[b].level ==>
      shape[a].hi <= shape[b].lo || shape[b].hi <= shape[a].lo
  }

  ghost predicate Inv(s: State, pend: Option<Pending>) {
    && s.root in s.shape
    && Covers(s.shape, pend, s.root, s.shape[s.root].level, 0, s.limit)
    && (forall id :: PageOk(s, pend, id))
    && (forall a, b :: Apart(s.shape, a, b))
    && (forall k | k in s.contents :: 0 <= k < s.limit)
  }

  predicate PageFits(p: Page, keyLen: nat) {
    match p
    case Leaf(entries, _, _) => Fits(|entries|, LeafCost(keyLen))
    case Internal(_, _, seps) => Fits(|seps|, InternalCost(keyLen))
  }

  // ---- Leaves ----

  function Inserted(entries: seq<Entry>, at: nat, e: Entry): seq<Entry>
    requires at <= |entries|
  {
    entries[..at] + [e] + entries[at..]
  }

  // `at` is where `key` belongs.
  predicate Place(entries: seq<Entry>, at: nat, key: int) {
    && at <= |entries|
    && (forall i | 0 <= i < at :: entries[i].key < key)
    && (forall i | at <= i < |entries| :: entries[i].key > key)
  }

  lemma InsertedSorted(entries: seq<Entry>, at: nat, e: Entry)
    requires Sorted(entries) && Place(entries, at, e.key)
    ensures Sorted(Inserted(entries, at, e))
  {
    forall i, j | 0 <= i < j <= |entries|
      ensures Inserted(entries, at, e)[i].key < Inserted(entries, at, e)[j].key
    {
      InsertedAt(entries, at, e, i);
      InsertedAt(entries, at, e, j);
    }
  }

  lemma InsertedAt(entries: seq<Entry>, at: nat, e: Entry, i: nat)
    requires at <= |entries| && i <= |entries|
    ensures Inserted(entries, at, e)[i] == if i < at then entries[i] else if i == at then e else entries[i - 1]
  {
  }

  lemma InsertedHasKey(entries: seq<Entry>, at: nat, e: Entry, k: int)
    requires at <= |entries| && (k == e.key || HasKey(entries, k))
    ensures HasKey(Inserted(entries, at, e), k)
  {
    if k == e.key {
      InsertedAt(entries, at, e, at);
    } else {
      var i :| 0 <= i < |entries| && entries[i].key == k;
      InsertedAt(entries, at, e, if i < at then i else i + 1);
    }
  }

  lemma InsertedHolds(contents: map<int, TupleId>, entries: seq<Entry>, lo: int, hi: int, at: nat, e: Entry)
    requires Holds(contents, entries, lo, hi) && Place(entries, at, e.key) && lo <= e.key < hi && e.key !in contents
    ensures Holds(contents[e.key := e.tid], Inserted(entries, at, e), lo, hi)
  {
    var all, more := Inserted(entries, at, e), contents[e.key := e.tid];
    forall i | 0 <= i < |all|
      ensures lo <= all[i].key < hi && all[i].key in more && more[all[i].key] == all[i].tid
    {
      InsertedAt(entries, at, e, i);
    }
    forall k | k in more && lo <= k < hi ensures HasKey(all, k) {
      assert k != e.key ==> HasKey(entries, k);
      InsertedHasKey(entries, at, e, k);
    }
  }

  // Cutting a leaf's entries at `mid` cuts its region at that key.
  lemma CutHolds(contents: map<int, TupleId>, all: seq<Entry>, lo: int, hi: int, mid: nat)
    requires Sorted(all) && Holds(contents, all, lo, hi) && 0 < mid < |all|
    ensures lo < all[mid].key < hi
    ensures Sorted(all[..mid]) && Holds(contents, all[..mid], lo, all[mid].key)
    ensures Sorted(all[mid..]) && Holds(contents, all[mid..], all[mid].key, hi)
  {
    var sep := all[mid].key;
    assert lo <= all[0].key < sep;
    forall k | k in contents && lo <= k < hi
      ensures if k < sep then HasKey(all[..mid], k) else HasKey(all[mid..], k)
    {
      assert HasKey(all, k);
      var i :| 0 <= i < |all| && all[i].key == k;
      if i < mid {
        assert all[..mid][i].key == k;
      } else {
        assert all[mid..][i - mid].key == k;
      }
    }
  }

  lemma HoldsElsewhere(contents: map<int, TupleId>, entries: seq<Entry>, lo: int, hi: int, key: int, tid: TupleId)
    requires Holds(contents, entries, lo, hi) && !(lo <= key < hi)
    ensures Holds(contents[key := tid], entries, lo, hi)
  {
    forall k | k in contents[key := tid] && lo <= k < hi ensures HasKey(entries, k) {
      assert k in contents;
    }
  }

  // The leaf for `e.key` with `e` put in its place; it may now be too full.
  function LeafInserted(s: State, id: PageId, at: nat, e: Entry): State
    requires id in s.pages && s.pages[id].Leaf? && at <= |s.pages[id].entries|
  {
    s.(pages := s.pages[id := s.pages[id].(entries := Inserted(s.pages[id].entries, at, e))],
       contents := s.contents[e.key := e.tid])
  }

  lemma LeafInsertedOk(s: State, id: PageId, at: nat, e: Entry)
    requires Inv(s, None) && id in s.shape && id in s.pages && s.pages[id].Leaf?
    requires s.shape[id].lo <= e.key < s.shape[id].hi && e.key !in s.contents
    requires Place(s.pages[id].entries, at, e.key)
    ensures Inv(LeafInserted(s, id, at, e), None)
  {
    var s' := LeafInserted(s, id, at, e);
    assert PageOk(s, None, id) && PageOk(s, None, s.root);
    forall q ensures PageOk(s', None, q) {
      assert PageOk(s, None, q);
      if q == id {
        InsertedSorted(s.pages[id].entries, at, e);
        InsertedHolds(s.contents, s.pages[id].entries, s.shape[id].lo, s.shape[id].hi, at, e);
      } else if q in s.shape && s.pages[q].Leaf? {
        assert Apart(s.shape, id, q);
        HoldsElsewhere(s.contents, s.pages[q].entries, s.shape[q].lo, s.shape[q].hi, e.key, e.tid);
      } else if q in s.shape {
        forall i | 0 <= i <= |s.pages[q].seps| ensures SlotOk(s'.shape, None, s'.pages[q], s'.shape[q], i) {
          assert SlotOk(s.shape, None, s.pages[q], s.shape[q], i);
        }
      }
    }
    forall a, b ensures Apart(s'.shape, a, b) {
      assert Apart(s.shape, a, b);
    }
  }

  // `all` shared out over page `id`, which had links `p`, and the new page `right`.
  function SplitPages(pages: map<PageId, Page>, id: PageId, p: Page, all: seq<Entry>, mid: nat, right: PageId): map<PageId, Page>
    requires p.Leaf? && mid <= |all|
  {
    var both := pages[id := Leaf(all[..mid], p.prev, Some(right))][right := Leaf(all[mid..], Some(id), p.next)];
    match p.next
    case Some(n) => if n in both && both[n].Leaf? then both[n := both[n].(prev := Some(right))] else both
    case None => both
  }

  // A leaf's entries from `mid` on move to the new page `right`.
  function LeafSplit(s: State, id: PageId, mid: nat, right: PageId): State
    requires id in s.pages && s.pages[id].Leaf? && mid < |s.pages[id].entries| && id in s.shape
  {
    var p, r := s.pages[id], s.shape[id];
    var sep := p.entries[mid].key;
    s.(pages := SplitPages(s.pages, id, p, p.entries, mid, right),
       shape := s.shape[id := Region(0, r.lo, sep)][right := Region(0, sep, r.hi)])
  }

  lemma LeafSplitPage(s: State, id: PageId, mid: nat, right: PageId, q: PageId)
    requires Inv(s, None) && id in s.shape && id in s.pages && s.pages[id].Leaf?
    requires 0 < mid < |s.pages[id].entries| && right !in s.pages && right !in s.shape
    ensures PageOk(LeafSplit(s, id, mid, right), Some(Pending(id, s.pages[id].entries[mid].key, right)), q)
  {
    var p, r := s.pages[id], s.shape[id];
    var sep := p.entries[mid].key;
    var s', pend := LeafSplit(s, id, mid, right), Some(Pending(id, sep, right));
    assert PageOk(s, None, id) && PageOk(s, None, s.root) && PageOk(s, None, q);
    CutHolds(s.contents, p.entries, r.lo, r.hi, mid);
    if p.next.Some? {
      assert PageOk(s, None, p.next.value);
    }
    if q in s.shape && s.pages[q].Internal? {
      forall i | 0 <= i <= |s.pages[q].seps| ensures SlotOk(s'.shape, pend, s'.pages[q], s'.shape[q], i) {
        assert SlotOk(s.shape, None, s.pages[q], s.shape[q], i);
      }
    }
  }

  lemma LeafSplitOk(s: State, id: PageId, mid: nat, right: PageId)
    requires Inv(s, None) && id in s.shape && id in s.pages && s.pages[id].Leaf?
    requires 0 < mid < |s.pages[id].entries| && right !in s.pages && right !in s.shape
    ensures Inv(LeafSplit(s, id, mid, right), Some(Pending(id, s.pages[id].entries[mid].key, right)))
  {
    var sep := s.pages[id].entries[mid].key;
    var s', pend := LeafSplit(s, id, mid, right), Some(Pending(id, sep, right));
    assert PageOk(s, None, id) && PageOk(s, None, s.root);
    CutHolds(s.contents, s.pages[id].entries, s.shape[id].lo, s.shape[id].hi, mid);
    forall q ensures PageOk(s', pend, q) {
      LeafSplitPage(s, id, mid, right, q);
    }
    forall a, b ensures Apart(s'.shape, a, b) {
      assert Apart(s.shape, a, b) && Apart(s.shape, id, a) && Apart(s.shape, id, b);
    }
  }

  // ---- Internal pages ----

  // The slots of a page cut its region from left to right.
  lemma {:induction false} SlotsOrdered(shape: map<PageId, Region>, pend: Option<Pending>, p: Page, r: Region, i: nat, j: nat)
    requires p.Internal? && i <= j <= |p.seps|
    requires forall k | 0 <= k <= |p.seps| :: SlotOk(shape, pend, p, r, k)
    ensures Lo(p, i, r.lo) <= Lo(p, j, r.lo) < Hi(p, j, r.hi) && Hi(p, i, r.hi) <= Hi(p, j, r.hi)
    ensures i < j ==> Hi(p, i, r.hi) <= Lo(p, j, r.lo)
    decreases j
  {
    assert SlotOk(shape, pend, p, r, j) && SlotOk(shape, pend, p, r, i);
    if i < j {
      SlotsOrdered(shape, pend, p, r, i, j - 1);
    }
  }

  lemma SlotInside(shape: map<PageId, Region>, pend: Option<Pending>, p: Page, r: Region, i: nat)
    requires p.Internal? && i <= |p.seps|
    requires forall k | 0 <= k <= |p.seps| :: SlotOk(shape, pend, p, r, k)
    ensures r.lo <= Lo(p, i, r.lo) < Hi(p, i, r.hi) <= r.hi
  {
    SlotsOrdered(shape, pend, p, r, 0, i);
    SlotsOrdered(shape, pend, p, r, i, |p.seps|);
  }

  // Only one slot of one page leads to a given child.
  lemma OneParent(s: State, pend: Option<Pending>, a: PageId, i: nat, b: PageId, j: nat)
    requires Inv(s, pend) && a in s.shape && a in s.pages && b in s.shape && b in s.pages
    requires s.pages[a].Internal? && i <= |s.pages[a].seps| && s.pages[b].Internal? && j <= |s.pages[b].seps|
    requires Kid(s.pages[a], i) == Kid(s.pages[b], j)
    ensures a == b && i == j
  {
    assert PageOk(s, pend, a) && PageOk(s, pend, b) && Apart(s.shape, a, b);
    var p, q := s.pages[a], s.pages[b];
    assert SlotOk(s.shape, pend, p, s.shape[a], i) && SlotOk(s.shape, pend, q, s.shape[b], j);
    SlotInside(s.shape, pend, p, s.shape[a], i);
    SlotInside(s.shape, pend, q, s.shape[b], j);
    if a == b {
      if i < j {
        SlotsOrdered(s.shape, pend, p, s.shape[a], i, j);
      } else {
        SlotsOrdered(s.shape, pend, p, s.shape[a], j, i);
      }
    }
  }

  function SepInserted(p: Page, at: nat, sep: Separator): Page
    requires p.Internal? && at <= |p.seps|
  {
    p.(seps := p.seps[..at] + [sep] + p.seps[at..])
  }

  // The page listing `left` at slot `i` now also lists the pending `right`.
  lemma SepInsertedSlot(s: State, pend: Pending, id: PageId, i: nat, k: nat)
    requires Inv(s, Some(pend)) && id in s.shape && id in s.pages && s.pages[id].Internal?
    requires i <= |s.pages[id].seps| && Kid(s.pages[id], i) == pend.left && k <= |s.pages[id].seps| + 1
    ensures SlotOk(s.shape, None, SepInserted(s.pages[id], i, Separator(pend.sep, pend.right)), s.shape[id], k)
  {
    var p, r := s.pages[id], s.shape[id];
    assert PageOk(s, Some(pend), id);
    var k' := if k <= i then k else k - 1;
    assert SlotOk(s.shape, Some(pend), p, r, k') && SlotOk(s.shape, Some(pend), p, r, i);
    if k' != i && Kid(p, k') == pend.left {
      OneParent(s, Some(pend), id, k', id, i);
    }
  }

  function SplitListed(s: State, pend: Pending, id: PageId, i: nat): State
    requires id in s.pages && s.pages[id].Internal? && i <= |s.pages[id].seps|
  {
    s.(pages := s.pages[id := SepInserted(s.pages[id], i, Separator(pend.sep, pend.right))])
  }

  lemma SplitListedPage(s: State, pend: Pending, id: PageId, i: nat, q: PageId)
    requires Inv(s, Some(pend)) && id in s.shape && id in s.pages && s.pages[id].Internal?
    requires i <= |s.pages[id].seps| && Kid(s.pages[id], i) == pend.left
    ensures PageOk(SplitListed(s, pend, id, i), None, q)
  {
    var s' := SplitListed(s, pend, id, i);
    assert PageOk(s, Some(pend), q) && PageOk(s, Some(pend), s.root) && PageOk(s, Some(pend), id);
    if q == id {
      forall k | 0 <= k <= |s'.pages[id].seps| ensures SlotOk(s'.shape, None, s'.pages[id], s'.shape[id], k) {
        SepInsertedSlot(s, pend, id, i, k);
      }
    } else if q in s.shape && s.pages[q].Internal? {
      forall k | 0 <= k <= |s.pages[q].seps| ensures SlotOk(s'.shape, None, s'.pages[q], s'.shape[q], k) {
        assert SlotOk(s.shape, Some(pend), s.pages[q], s.shape[q], k);
        if Kid(s.pages[q], k) == pend.left {
          OneParent(s, Some(pend), q, k, id, i);
        }
      }
    }
  }

  lemma SplitListedOk(s: State, pend: Pending, id: PageId, i: nat)
    requires Inv(s, Some(pend)) && id in s.shape && id in s.pages && s.pages[id].Internal?
    requires i <= |s.pages[id].seps| && Kid(s.pages[id], i) == pend.left
    ensures Inv(SplitListed(s, pend, id, i), None)
  {
    var s' := SplitListed(s, pend, id, i);
    forall q ensures PageOk(s', None, q) {
      SplitListedPage(s, pend, id, i, q);
    }
    assert PageOk(s, Some(pend), id) && SlotOk(s.shape, Some(pend), s.pages[id], s.shape[id], i);
    forall a, b ensures Apart(s'.shape, a, b) {
      assert Apart(s.shape, a, b);
    }
  }

  function ParentPages(pages: map<PageId, Page>, id: PageId, p: Page, all: seq<Separator>, mid: nat, right: PageId): map<PageId, Page>
    requires p.Internal? && mid < |all|
  {
    pages[id := Internal(p.level, p.leftmost, all[..mid])][right := Internal(p.level, all[mid].child, all[mid + 1..])]
  }

  // The separator at `mid` moves up; what follows it moves to the new page `right`.
  function InternalSplit(s: State, id: PageId, mid: nat, right: PageId): State
    requires id in s.pages && s.pages[id].Internal? && mid < |s.pages[id].seps| && id in s.shape
  {
    var p, r := s.pages[id], s.shape[id];
    var up := p.seps[mid];
    s.(pages := ParentPages(s.pages, id, p, p.seps, mid, right),
       shape := s.shape[id := Region(r.level, r.lo, up.key)][right := Region(r.level, up.key, r.hi)])
  }

  lemma InternalSplitSlots(s: State, id: PageId, mid: nat, right: PageId)
    requires Inv(s, None) && id in s.shape && id in s.pages && s.pages[id].Internal?
    requires mid < |s.pages[id].seps| && right !in s.pages && right !in s.shape
    ensures
      var s', pend := InternalSplit(s, id, mid, right), Some(Pending(id, s.pages[id].seps[mid].key, right));
      && (forall k | 0 <= k <= mid :: SlotOk(s'.shape, pend, s'.pages[id], s'.shape[id], k))
      && (forall k | 0 <= k <= |s'.pages[right].seps| :: SlotOk(s'.shape, pend, s'.pages[right], s'.shape[right], k))
  {
    var p, r := s.pages[id], s.shape[id];
    var s', pend := InternalSplit(s, id, mid, right), Some(Pending(id, p.seps[mid].key, right));
    assert PageOk(s, None, id);
    forall k | 0 <= k <= mid ensures SlotOk(s'.shape, pend, s'.pages[id], s'.shape[id], k) {
      assert SlotOk(s.shape, None, p, r, k);
    }
    forall k | 0 <= k <= |s'.pages[right].seps| ensures SlotOk(s'.shape, pend, s'.pages[right], s'.shape[right], k) {
      assert SlotOk(s.shape, None, p, r, mid + 1 + k);
    }
  }

  lemma InternalSplitPage(s: State, id: PageId, mid: nat, right: PageId, q: PageId)
    requires Inv(s, None) && id in s.shape && id in s.pages && s.pages[id].Internal?
    requires mid < |s.pages[id].seps| && right !in s.pages && right !in s.shape
    ensures PageOk(InternalSplit(s, id, mid, right), Some(Pending(id, s.pages[id].seps[mid].key, right)), q)
  {
    var p, r := s.pages[id], s.shape[id];
    var s', pend := InternalSplit(s, id, mid, right), Some(Pending(id, p.seps[mid].key, right));
    assert PageOk(s, None, id) && PageOk(s, None, q) && PageOk(s, None, s.root);
    SlotInside(s.shape, None, p, r, mid);
    SlotInside(s.shape, None, p, r, mid + 1);
    if q == id || q == right {
      InternalSplitSlots(s, id, mid, right);
    } else if q in s.shape && s.pages[q].Internal? {
      forall k | 0 <= k <= |s.pages[q].seps| ensures SlotOk(s'.shape, pend, s'.pages[q], s'.shape[q], k) {
        assert SlotOk(s.shape, None, s.pages[q], s.shape[q], k);
      }
    }
  }

  lemma InternalSplitOk(s: State, id: PageId, mid: nat, right: PageId)
    requires Inv(s, None) && id in s.shape && id in s.pages && s.pages[id].Internal?
    requires mid < |s.pages[id].seps| && right !in s.pages && right !in s.shape
    ensures Inv(InternalSplit(s, id, mid, right), Some(Pending(id, s.pages[id].seps[mid].key, right)))
  {
    var p, r := s.pages[id], s.shape[id];
    var s', pend := InternalSplit(s, id, mid, right), Some(Pending(id, p.seps[mid].key, right));
    assert PageOk(s, None, id);
    SlotInside(s.shape, None, p, r, mid);
    SlotInside(s.shape, None, p, r, mid + 1);
    forall q ensures PageOk(s', pend, q) {
      InternalSplitPage(s, id, mid, right, q);
    }
    forall a, b ensures Apart(s'.shape, a, b) {
      assert Apart(s.shape, a, b) && Apart(s.shape, id, a) && Apart(s.shape, id, b);
    }
  }

  // ---- The root ----

  // A new root above the two halves of the old one.
  function RootGrown(s: State, pend: Pending, top: PageId): State
    requires s.root in s.shape
  {
    var level := s.shape[s.root].level + 1;
    s.(pages := s.pages[top := Internal(level, s.root, [Separator(pend.sep, pend.right)])],
       shape := s.shape[top := Region(level, 0, s.limit)],
       root := top)
  }

  lemma RootGrownPage(s: State, pend: Pending, top: PageId, q: PageId)
    requires Inv(s, Some(pend)) && pend.left == s.root && top !in s.pages && top !in s.shape
    ensures PageOk(RootGrown(s, pend, top), None, q)
  {
    var s' := RootGrown(s, pend, top);
    assert PageOk(s, Some(pend), q) && PageOk(s, Some(pend), s.root);
    if q == top {
      forall k | 0 <= k <= 1 ensures SlotOk(s'.shape, None, s'.pages[top], s'.shape[top], k) {
      }
    } else if q in s.shape && s.pages[q].Internal? {
      forall k | 0 <= k <= |s.pages[q].seps| ensures SlotOk(s'.shape, None, s'.pages[q], s'.shape[q], k) {
        assert SlotOk(s.shape, Some(pend), s.pages[q], s.shape[q], k);
      }
    }
  }

  lemma RootGrownOk(s: State, pend: Pending, top: PageId)
    requires Inv(s, Some(pend)) && pend.left == s.root && top !in s.pages && top !in s.shape
    ensures Inv(RootGrown(s, pend, top), None)
  {
    var s' := RootGrown(s, pend, top);
    forall q ensures PageOk(s', None, q) {
      RootGrownPage(s, pend, top, q);
    }
    forall a, b ensures Apart(s'.shape, a, b) {
      assert Apart(s.shape, a, b) && PageOk(s, Some(pend), a) && PageOk(s, Some(pend), b);
    }
  }

  // ---- Searching within a page ----

  predicate SepsSorted(p: Page)
    requires p.Internal?
  {
    forall i, j | 0 <= i < j < |p.seps| :: p.seps[i].key < p.seps[j].key
  }

  lemma InternalSorted(s: State, pend: Option<Pending>, id: PageId)
    requires PageOk(s, pend, id) && id in s.shape && s.pages[id].Internal?
    ensures SepsSorted(s.pages[id])
  {
    var p, r := s.pages[id], s.shape[id];
    forall i, j | 0 <= i < j < |p.seps| ensures p.seps[i].key < p.seps[j].key {
      SlotsOrdered(s.shape, pend, p, r, i, j);
      assert SlotOk(s.shape, pend, p, r, i + 1) && SlotOk(s.shape, pend, p, r, j);
      SlotsOrdered(s.shape, pend, p, r, i + 1, j);
    }
  }

  // `descend`: binary search for the slot whose range holds `key`.
  method Descend(p: Page, key: int) returns (child: PageId, slot: nat)
    requires p.Internal? && SepsSorted(p)
    ensures slot <= |p.seps| && child == Kid(p, slot)
    ensures slot > 0 ==> p.seps[slot - 1].key <= key
    ensures slot < |p.seps| ==> key < p.seps[slot].key
  {
    if |p.seps| == 0 {
      return p.leftmost, 0;
    }
    var lo, hi := 0, |p.seps|;
    while lo < hi
      invariant 0 <= lo <= hi <= |p.seps|
      invariant forall i | 0 <= i < lo :: p.seps[i].key <= key
      invariant forall i | hi <= i < |p.seps| :: key < p.seps[i].key
    {
      var mid := lo + (hi - lo) / 2;
      if p.seps[mid].key <= key {
        lo := mid + 1;
      } else {
        hi := mid;
      }
    }
    slot := lo;
    child := if lo == 0 then p.leftmost else p.seps[lo - 1].child;
  }

  // `find_in_leaf`: scan until the key or a larger one.
  method FindInLeaf(entries: seq<Entry>, key: int) returns (r: Option<TupleId>)
    requires Sorted(entries)
    ensures r.Some? ==> Entry(key, r.value) in entries
    ensures r.None? ==> !HasKey(entries, key)
  {
    for i := 0 to |entries|
      invariant forall j | 0 <= j < i :: entries[j].key < key
    {
      if entries[i].key == key {
        return Some(entries[i].tid);
      }
      if entries[i].key > key {
        return None;
      }
    }
    r := None;
  }

  // `leaf_insert_pos`: before the first larger key, after any equal ones.
  method LeafInsertPos(entries: seq<Entry>, key: int) returns (at: nat)
    requires forall i, j | 0 <= i < j < |entries| :: entries[i].key <= entries[j].key
    ensures at <= |entries|
    ensures forall i | 0 <= i < at :: entries[i].key <= key
    ensures forall i | at <= i < |entries| :: key < entries[i].key
  {
    for i := 0 to |entries|
      invariant forall j | 0 <= j < i :: entries[j].key <= key
    {
      if entries[i].key > key {
        return i;
      }
    }
    at := |entries|;
  }

  method InternalInsertPos(p: Page, key: int) returns (at: nat)
    requires p.Internal? && SepsSorted(p)
    ensures at <= |p.seps|
    ensures forall i | 0 <= i < at :: p.seps[i].key <= key
    ensures forall i | at <= i < |p.seps| :: key < p.seps[i].key
  {
    for i := 0 to |p.seps|
      invariant forall j | 0 <= j < i :: p.seps[j].key <= key
    {
      if p.seps[i].key > key {
        return i;
      }
    }
    at := |p.seps|;
  }

  // One more entry of a leaf seen by a range scan that has everything of
  // `contents` from `start` up to that entry.
  lemma ScanStep(contents: map<int, TupleId>, entries: seq<Entry>, lo: int, hi: int, i: nat, start: int, results: seq<Entry>)
    requires Sorted(entries) && Holds(contents, entries, lo, hi) && i < |entries|
    requires Sorted(results) && Holds(contents, results, start, entries[i].key)
    ensures
      var upto := if i + 1 < |entries| then entries[i + 1].key else hi;
      var results' := if entries[i].key < start then results else results + [entries[i]];
      Sorted(results') && Holds(contents, results', start, upto)
  {
    var upto := if i + 1 < |entries| then entries[i + 1].key else hi;
    var results' := if entries[i].key < start then results else results + [entries[i]];
    forall k | k in contents && start <= k < upto ensures HasKey(results', k) {
      if k < entries[i].key {
        assert HasKey(results, k);
        var j :| 0 <= j < |results| && results[j].key == k;
        assert results'[j].key == k;
      } else {
        assert HasKey(entries, k);
        var j :| 0 <= j < |entries| && entries[j].key == k;
        assert results'[|results'| - 1].key == k;
      }
    }
  }

  lemma ScanStart(contents: map<int, TupleId>, entries: seq<Entry>, lo: int, hi: int, start: int, results: seq<Entry>)
    requires lo < hi && Sorted(entries) && Holds(contents, entries, lo, hi) && Holds(contents, results, start, lo)
    ensures Holds(contents, results, start, if |entries| > 0 then entries[0].key else hi)
  {
    forall k | k in contents && start <= k < (if |entries| > 0 then entries[0].key else hi) ensures HasKey(results, k) {
      assert k >= lo ==> HasKey(entries, k);
    }
  }

  // Nothing at or above `end` was taken.
  lemma ScanEnd(contents: map<int, TupleId>, results: seq<Entry>, start: int, upto: int, end: int)
    requires Holds(contents, results, start, upto) && end <= upto
    requires forall i | 0 <= i < |results| :: results[i].key < end
    ensures Holds(contents, results, start, end)
  {
  }

  lemma FitsLess(a: nat, b: nat, cost: nat)
    requires a <= b && Fits(b, cost)
    ensures Fits(a, cost)
  {
    assert a * cost <= b * cost;
  }

  // Pages above `level` are as they were.
  ghost predicate AboveKept(s: State, s': State, level: nat) {
    && s'.root == s.root
    && forall q {:trigger q in s.shape} | q in s.shape && s.shape[q].level > level ::
         q in s'.shape && s'.shape[q] == s.shape[q] && q in s.pages && q in s'.pages && s'.pages[q] == s.pages[q]
  }

  ghost predicate Allocated(s: State, pageCount: nat, keyLen: nat) {
    && s.shape.Keys <= s.pages.Keys
    && forall id | id in s.pages :: id < pageCount && PageFits(s.pages[id], keyLen)
  }

  // Inserting into a full leaf and cutting it in the middle.
  lemma LeafOverflow(s: State, id: PageId, at: nat, e: Entry, right: PageId, keyLen: nat)
    requires Inv(s, None) && Allocated(s, right, keyLen) && id in s.shape && s.pages[id].Leaf?
    requires s.shape[id].lo <= e.key < s.shape[id].hi && e.key !in s.contents
    requires Place(s.pages[id].entries, at, e.key) && |s.pages[id].entries| > 0
    ensures
      var s1, mid := LeafInserted(s, id, at, e), (|s.pages[id].entries| + 1) / 2;
      var s2 := LeafSplit(s1, id, mid, right);
      && Inv(s2, Some(Pending(id, s1.pages[id].entries[mid].key, right)))
      && Allocated(s2, right + 1, keyLen) && AboveKept(s, s2, 0)
      && s2.pages == SplitPages(s.pages, id, s.pages[id], s1.pages[id].entries, mid, right)
  {
    var s1, mid := LeafInserted(s, id, at, e), (|s.pages[id].entries| + 1) / 2;
    assert PageOk(s, None, id);
    LeafInsertedOk(s, id, at, e);
    LeafSplitOk(s1, id, mid, right);
    LeafNextLow(s, id);
    LeafOverflowPages(s, id, at, e, right, keyLen);
  }

  // The leaf that follows is on the lowest level too.
  lemma LeafNextLow(s: State, id: PageId)
    requires Inv(s, None) && id in s.shape && id in s.pages && s.pages[id].Leaf?
    ensures s.shape[id].level == 0
    ensures s.pages[id].next.Some? ==> s.pages[id].next.value in s.shape && s.shape[s.pages[id].next.value].level == 0
  {
    assert PageOk(s, None, id);
  }

  lemma LeafOverflowPages(s: State, id: PageId, at: nat, e: Entry, right: PageId, keyLen: nat)
    requires Allocated(s, right, keyLen) && id in s.shape && s.pages[id].Leaf? && s.shape[id].level == 0
    requires s.pages[id].next.Some? ==> s.pages[id].next.value in s.shape && s.shape[s.pages[id].next.value].level == 0
    requires at <= |s.pages[id].entries| && |s.pages[id].entries| > 0
    ensures
      var s1, mid := LeafInserted(s, id, at, e), (|s.pages[id].entries| + 1) / 2;
      var s2 := LeafSplit(s1, id, mid, right);
      && Allocated(s2, right + 1, keyLen) && AboveKept(s, s2, 0)
      && s2.pages == SplitPages(s.pages, id, s.pages[id], s1.pages[id].entries, mid, right)
  {
    var s1, mid := LeafInserted(s, id, at, e), (|s.pages[id].entries| + 1) / 2;
    FitsLess(mid, |s.pages[id].entries|, LeafCost(keyLen));
    FitsLess(|s.pages[id].entries| + 1 - mid, |s.pages[id].entries|, LeafCost(keyLen));
    assert s1.pages[id := Leaf(s1.pages[id].entries[..mid], s.pages[id].prev, Some(right))]
        == s.pages[id := Leaf(s1.pages[id].entries[..mid], s.pages[id].prev, Some(right))];
  }

  // An entry put into a leaf with room for it.
  lemma LeafRoom(s: State, id: PageId, at: nat, e: Entry, pageCount: nat, keyLen: nat)
    requires Inv(s, None) && Allocated(s, pageCount, keyLen) && id in s.shape && s.pages[id].Leaf?
    requires s.shape[id].lo <= e.key < s.shape[id].hi && e.key !in s.contents
    requires Place(s.pages[id].entries, at, e.key)
    requires NODE_CAPACITY - |s.pages[id].entries| * LeafCost(keyLen) >= LeafCost(keyLen)
    ensures
      var s1 := LeafInserted(s, id, at, e);
      Inv(s1, None) && Allocated(s1, pageCount, keyLen) && AboveKept(s, s1, 0)
  {
    LeafNextLow(s, id);
    LeafInsertedOk(s, id, at, e);
    LeafRoomPages(s, id, at, e, pageCount, keyLen);
  }

  lemma LeafRoomPages(s: State, id: PageId, at: nat, e: Entry, pageCount: nat, keyLen: nat)
    requires Allocated(s, pageCount, keyLen) && id in s.shape && s.pages[id].Leaf? && s.shape[id].level == 0
    requires at <= |s.pages[id].entries|
    requires NODE_CAPACITY - |s.pages[id].entries| * LeafCost(keyLen) >= LeafCost(keyLen)
    ensures Allocated(LeafInserted(s, id, at, e), pageCount, keyLen) && AboveKept(s, LeafInserted(s, id, at, e), 0)
  {
    assert (|s.pages[id].entries| + 1) * LeafCost(keyLen) == |s.pages[id].entries| * LeafCost(keyLen) + LeafCost(keyLen);
  }

  // What an operation on page `id` reaches, kept under a trigger so that it is
  // expanded only where asked for.
  predicate Unfold(i: int) { true }

  ghost predicate Reached(s: State, s': State, pend: Option<Pending>, pageCount: nat, keyLen: nat, level: nat) {
    forall i {:trigger Unfold(i)} :: Unfold(i) ==> Inv(s', pend) && Allocated(s', pageCount, keyLen) && AboveKept(s, s', level)
  }

  lemma LeafOverflowReached(s: State, id: PageId, at: nat, e: Entry, right: PageId, keyLen: nat) returns (s2: State)
    requires Inv(s, None) && Allocated(s, right, keyLen) && id in s.shape && s.pages[id].Leaf?
    requires s.shape[id].lo <= e.key < s.shape[id].hi && e.key !in s.contents
    requires Place(s.pages[id].entries, at, e.key) && |s.pages[id].entries| > 0
    ensures
      var all := Inserted(s.pages[id].entries, at, e);
      var mid := |all| / 2;
      && Reached(s, s2, Some(Pending(id, all[mid].key, right)), right + 1, keyLen, 0)
      && s2 == State(SplitPages(s.pages, id, s.pages[id], all, mid, right),
                     s.shape[id := Region(0, s.shape[id].lo, all[mid].key)][right := Region(0, all[mid].key, s.shape[id].hi)],
                     s.root, s.contents[e.key := e.tid], s.limit)
  {
    var s1, mid := LeafInserted(s, id, at, e), (|s.pages[id].entries| + 1) / 2;
    LeafOverflow(s, id, at, e, right, keyLen);
    s2 := LeafSplit(s1, id, mid, right);
  }

  // Listing a split in a full internal page and cutting that page in the middle.
  lemma InternalOverflow(s: State, pend: Pending, id: PageId, at: nat, right: PageId, keyLen: nat)
    requires Inv(s, Some(pend)) && Allocated(s, right, keyLen) && id in s.shape && s.pages[id].Internal?
    requires at <= |s.pages[id].seps| && Kid(s.pages[id], at) == pend.left
    ensures
      var s1, mid := SplitListed(s, pend, id, at), (|s.pages[id].seps| + 1) / 2;
      var s2 := InternalSplit(s1, id, mid, right);
      && Inv(s2, Some(Pending(id, s1.pages[id].seps[mid].key, right)))
      && Allocated(s2, right + 1, keyLen) && AboveKept(s, s2, s.shape[id].level)
      && s2.pages == ParentPages(s.pages, id, s.pages[id], s1.pages[id].seps, mid, right)
  {
    var s1, mid := SplitListed(s, pend, id, at), (|s.pages[id].seps| + 1) / 2;
    SplitListedOk(s, pend, id, at);
    InternalSplitOk(s1, id, mid, right);
    FitsLess(mid, |s.pages[id].seps|, InternalCost(keyLen));
    FitsLess(|s.pages[id].seps| - mid, |s.pages[id].seps|, InternalCost(keyLen));
    var left := Internal(s.pages[id].level, s.pages[id].leftmost, s1.pages[id].seps[..mid]);
    assert s1.pages[id := left] == s.pages[id := left];
  }

  lemma InternalOverflowReached(s: State, pend: Pending, id: PageId, at: nat, right: PageId, keyLen: nat) returns (s2: State)
    requires Inv(s, Some(pend)) && Allocated(s, right, keyLen) && id in s.shape && s.pages[id].Internal?
    requires at <= |s.pages[id].seps| && Kid(s.pages[id], at) == pend.left && s.pages[id].level == s.shape[id].level
    ensures
      var p, r := s.pages[id], s.shape[id];
      var all := SepInserted(p, at, Separator(pend.sep, pend.right)).seps;
      var mid := |all| / 2;
      && mid < |all|
      && Reached(s, s2, Some(Pending(id, all[mid].key, right)), right + 1, keyLen, r.level)
      && s2 == State(ParentPages(s.pages, id, p, all, mid, right),
                     s.shape[id := Region(p.level, r.lo, all[mid].key)][right := Region(p.level, all[mid].key, r.hi)],
                     s.root, s.contents, s.limit)
  {
    InternalOverflow(s, pend, id, at, right, keyLen);
    s2 := InternalSplit(SplitListed(s, pend, id, at), id, (|s.pages[id].seps| + 1) / 2, right);
  }

  // ---- Paths: depth and bounds ----

  predicate Leads(s: State, a: PageId, b: PageId) {
    a in s.pages && s.pages[a].Internal? && exists i | 0 <= i <= |s.pages[a].seps| :: Kid(s.pages[a], i) == b
  }

  // A walk from a page down through its descendants.
  ghost predicate IsPath(s: State, path: seq<PageId>) {
    |path| > 0 && path[0] in s.shape && forall k | 0 <= k < |path| - 1 :: Leads(s, path[k], path[k + 1])
  }

  // Each step down goes one level down, into part of the region above.
  lemma {:induction false} PathNests(s: State, path: seq<PageId>, k: nat)
    requires Inv(s, None) && IsPath(s, path) && k < |path|
    ensures path[k] in s.shape
    ensures
      var top, r := s.shape[path[0]], s.shape[path[k]];
      r.level == top.level - k && top.lo <= r.lo && r.hi <= top.hi
  {
    if k > 0 {
      PathNests(s, path, k - 1);
      assert Leads(s, path[k - 1], path[k]) && PageOk(s, None, path[k - 1]);
      var p, r := s.pages[path[k - 1]], s.shape[path[k - 1]];
      var i :| 0 <= i <= |p.seps| && Kid(p, i) == path[k];
      assert SlotOk(s.shape, None, p, r, i);
      SlotInside(s.shape, None, p, r, i);
    }
  }

  // All leaves are equally deep: a walk from the root that ends in a leaf has
  // passed as many pages as the root is levels above the leaves.
  lemma LeavesEquallyDeep(s: State, path: seq<PageId>)
    requires Inv(s, None) && IsPath(s, path) && path[0] == s.root
    requires path[|path| - 1] in s.pages && s.pages[path[|path| - 1]].Leaf?
    ensures |path| == s.shape[s.root].level + 1
  {
    PathNests(s, path, |path| - 1);
    assert PageOk(s, None, path[|path| - 1]);
  }

  // Separators bound their subtrees: whatever leaf is reached through slot `i`
  // of a page, its keys lie between the separators around that slot.
  lemma SeparatorsBound(s: State, id: PageId, i: nat, path: seq<PageId>, j: nat)
    requires Inv(s, None) && id in s.shape && id in s.pages && s.pages[id].Internal? && i <= |s.pages[id].seps|
    requires IsPath(s, path) && path[0] == Kid(s.pages[id], i)
    requires var leaf := path[|path| - 1]; leaf in s.pages && s.pages[leaf].Leaf? && j < |s.pages[leaf].entries|
    ensures
      var key := s.pages[path[|path| - 1]].entries[j].key;
      && (i > 0 ==> s.pages[id].seps[i - 1].key <= key)
      && (i < |s.pages[id].seps| ==> key < s.pages[id].seps[i].key)
  {
    assert PageOk(s, None, id) && SlotOk(s.shape, None, s.pages[id], s.shape[id], i);
    PathNests(s, path, |path| - 1);
    assert PageOk(s, None, path[|path| - 1]);
  }

  // ---- The leaf chain ----

  // Following `next` pointers from `a` reaches `b`.
  least predicate Follows[nat](s: State, a: PageId, b: PageId) {
    a == b || (a in s.pages && s.pages[a].Leaf? && s.pages[a].next.Some? && Follows(s, s.pages[a].next.value, b))
  }

  // From any leaf, the chain reaches every leaf for larger keys.
  lemma {:induction false} ChainReaches(s: State, a: PageId, b: PageId)
    requires Inv(s, None) && a in s.shape && b in s.shape && s.shape[a].level == 0 && s.shape[b].level == 0
    requires s.shape[a].lo <= s.shape[b].lo
    ensures Follows(s, a, b)
    decreases s.limit - s.shape[a].lo
  {
    assert PageOk(s, None, a) && PageOk(s, None, b) && Apart(s.shape, a, b);
    if a != b {
      var n := s.pages[a].next.value;
      assert PageOk(s, None, n) && Apart(s.shape, n, b);
      ChainReaches(s, n, b);
    }
  }

  // ---- The index object ----

  // What a split left for the parent to list.
  // A leaf's entries and one more, shared out in two halves.
  predicate HalvedLeaf(pages: map<PageId, Page>, left: PageId, right: PageId, all: seq<Entry>) {
    && left in pages && right in pages && pages[left].Leaf? && pages[right].Leaf?
    && |pages[left].entries| == |all| / 2 && pages[left].entries + pages[right].entries == all
  }

  // A page's separators and one more, in two halves; the one between them moves up.
  predicate HalvedInternal(pages: map<PageId, Page>, left: PageId, split: Split, all: seq<Separator>)
    requires split.SplitAt?
  {
    && left in pages && split.right in pages && pages[left].Internal? && pages[split.right].Internal?
    && |pages[left].seps| == |all| / 2
    && pages[left].seps + [Separator(split.sep, pages[split.right].leftmost)] + pages[split.right].seps == all
  }

  lemma LeavesHalved(pages: map<PageId, Page>, id: PageId, p: Page, all: seq<Entry>, right: PageId)
    requires p.Leaf? && id != right && |all| >= 1
    ensures HalvedLeaf(SplitPages(pages, id, p, all, |all| / 2, right), id, right, all)
  {
    assert all[..|all| / 2] + all[|all| / 2..] == all;
  }

  datatype Split = NoSplit | SplitAt(sep: int, right: PageId)

  function ToPending(left: PageId, split: Split): Option<Pending> {
    match split
    case NoSplit => None
    case SplitAt(sep, right) => Some(Pending(left, sep, right))
  }

  class Index {
    const keyLen: nat
    ghost const limit: int
    var pages: map<PageId, Page>
    var root: PageId
    var pageCount: nat
    ghost var shape: map<PageId, Region>
    ghost var contents: map<int, TupleId>

    ghost function View(): State
      reads this
    {
      State(pages, shape, root, contents, limit)
    }

    // All but the pending split in order, every page within its bytes.
    ghost predicate Ready(pend: Option<Pending>)
      reads this
    {
      && Inv(View(), pend) && LeafCost(keyLen) <= NODE_CAPACITY
      && Allocated(View(), pageCount, keyLen)
    }

    ghost predicate Valid()
      reads this
    {
      Ready(None)
    }

    // An empty tree, a single root leaf, for keys of `keyLen` bytes.
    constructor (keyLen: nat)
      requires LeafCost(keyLen) <= NODE_CAPACITY
      ensures Valid() && contents == map[] && limit == Pow256(keyLen) && this.keyLen == keyLen
    {
      this.keyLen, limit := keyLen, Pow256(keyLen);
      PowPositive(keyLen);
      root, pageCount := 1, 2;
      pages := map[1 := Leaf([], None, None)];
      shape := map[1 := Region(0, 0, Pow256(keyLen))];
      contents := map[];
    }

    // The leaf whose region holds `key`, by descending from the root.
    method FindLeaf(key: int) returns (id: PageId)
      requires Valid() && 0 <= key < limit
      ensures id in shape && id in pages && pages[id].Leaf? && shape[id].lo <= key < shape[id].hi
    {
      id := root;
      assert PageOk(View(), None, root);
      while pages[id].Internal?
        invariant id in shape && id in pages && shape[id].lo <= key < shape[id].hi
        decreases shape[id].level
      {
        ghost var r := shape[id];
        assert PageOk(View(), None, id);
        InternalSorted(View(), None, id);
        var child, slot := Descend(pages[id], key);
        assert SlotOk(shape, None, pages[id], r, slot);
        id := child;
      }
      assert PageOk(View(), None, id);
    }

    method Lookup(key: int) returns (r: Option<TupleId>)
      requires Valid() && 0 <= key < limit
      ensures r == if key in contents then Some(contents[key]) else None
    {
      var id := FindLeaf(key);
      assert PageOk(View(), None, id);
      r := FindInLeaf(pages[id].entries, key);
    }

    // All entries with `start <= key` and, if given, `key < end`, ascending.
    method RangeScan(start: int, end: Option<int>) returns (results: seq<Entry>)
      requires Valid() && 0 <= start < limit
      ensures Sorted(results)
      ensures Holds(contents, results, start, if end.Some? && end.value < limit then end.value else limit)
    {
      var id := FindLeaf(start);
      results := [];
      ghost var upto := shape[id].lo;
      while true
        invariant id in shape && id in pages && pages[id].Leaf? && upto == shape[id].lo
        invariant Sorted(results) && Holds(contents, results, start, upto)
        invariant end.Some? ==> forall i | 0 <= i < |results| :: results[i].key < end.value
        decreases limit - shape[id].lo
      {
        assert PageOk(View(), None, id);
        var entries, next := pages[id].entries, pages[id].next;
        ghost var hi := shape[id].hi;
        ScanStart(contents, entries, shape[id].lo, hi, start, results);
        for i := 0 to |entries|
          invariant Sorted(results)
          invariant end.Some? ==> forall j | 0 <= j < |results| :: results[j].key < end.value
          invariant Holds(contents, results, start, if i < |entries| then entries[i].key else hi)
        {
          var e := entries[i];
          ScanStep(contents, entries, shape[id].lo, hi, i, start, results);
          if e.key >= start {
            if end.Some? && e.key >= end.value {
              ScanEnd(contents, results, start, e.key, end.value);
              return;
            }
            results := results + [e];
          }
        }
        if next.None? {
          if end.Some? && end.value < limit {
            ScanEnd(contents, results, start, limit, end.value);
          }
          return;
        }
        upto := hi;
        id := next.value;
        assert PageOk(View(), None, id);
      }
    }

    method LeafInsert(id: PageId, key: int, tid: TupleId) returns (split: Split)
      requires Valid() && id in shape && id in pages && pages[id].Leaf?
      requires shape[id].lo <= key < shape[id].hi && key !in contents
      modifies this
      ensures contents == old(contents)[key := tid] && Ready(ToPending(id, split))
      ensures AboveKept(old(View()), View(), 0)
      ensures split.NoSplit? <==> Fits(|old(pages)[id].entries| + 1, LeafCost(keyLen))
    {
      ghost var s := View();
      assert PageOk(s, None, id);
      var p := pages[id];
      assert !HasKey(p.entries, key);
      var at := LeafInsertPos(p.entries, key);
      assert Place(p.entries, at, key) by {
        assert forall i | 0 <= i < |p.entries| :: p.entries[i].key != key;
      }
      if NODE_CAPACITY - |p.entries| * LeafCost(keyLen) >= LeafCost(keyLen) {
        LeafRoom(s, id, at, Entry(key, tid), pageCount, keyLen);
        contents := contents[key := tid];
        pages := pages[id := p.(entries := Inserted(p.entries, at, Entry(key, tid)))];
        assert View() == LeafInserted(s, id, at, Entry(key, tid));
        split := NoSplit;
      } else {
        split := SplitLeaf(id, at, Entry(key, tid));
      }
    }

    // The full leaf and the new entry are shared out over two pages.
    method SplitLeaf(id: PageId, at: nat, entry: Entry) returns (split: Split)
      requires Valid() && id in shape && id in pages && pages[id].Leaf?
      requires shape[id].lo <= entry.key < shape[id].hi && entry.key !in contents
      requires Place(pages[id].entries, at, entry.key) && |pages[id].entries| > 0
      modifies this
      ensures contents == old(contents)[entry.key := entry.tid] && Ready(ToPending(id, split))
      ensures AboveKept(old(View()), View(), 0)
      ensures split.SplitAt? && HalvedLeaf(pages, id, split.right, Inserted(old(pages)[id].entries, at, entry))
    {
      ghost var s := View();
      assert PageOk(s, None, id);
      var p := pages[id];
      var all := Inserted(p.entries, at, entry);
      var mid, right := |all| / 2, pageCount;
      ghost var s2 := LeafOverflowReached(s, id, at, entry, right, keyLen);
      pageCount := pageCount + 1;
      contents := contents[entry.key := entry.tid];
      shape := shape[id := Region(0, shape[id].lo, all[mid].key)][right := Region(0, all[mid].key, shape[id].hi)];
      RewriteLeaves(id, p, all, mid, right);
      assert View() == s2;
      assert Unfold(0);
      split := SplitAt(all[mid].key, right);
      LeavesHalved(s.pages, id, p, all, right);
    }

    method RewriteLeaves(id: PageId, p: Page, all: seq<Entry>, mid: nat, right: PageId)
      requires p.Leaf? && mid <= |all|
      modifies this`pages
      ensures pages == SplitPages(old(pages), id, p, all, mid, right)
    {
      pages := pages[id := Leaf(all[..mid], p.prev, Some(right))];
      pages := pages[right := Leaf(all[mid..], Some(id), p.next)];
      if p.next.Some? {
        var n := p.next.value;
        if n in pages && pages[n].Leaf? {
          pages := pages[n := pages[n].(prev := Some(right))];
        }
      }
    }

    method InternalInsert(id: PageId, sep: int, right: PageId, ghost left: PageId, ghost slot: nat) returns (split: Split)
      requires Ready(Some(Pending(left, sep, right)))
      requires id in shape && id in pages && pages[id].Internal?
      requires slot <= |pages[id].seps| && Kid(pages[id], slot) == left
      modifies this
      ensures contents == old(contents) && Ready(ToPending(id, split))
      ensures AboveKept(old(View()), View(), old(shape)[id].level)
      ensures split.NoSplit? <==> Fits(|old(pages)[id].seps| + 1, InternalCost(keyLen))
    {
      ghost var s, pend := View(), Pending(left, sep, right);
      assert PageOk(s, Some(pend), id);
      InternalSorted(s, Some(pend), id);
      var p := pages[id];
      assert SlotOk(shape, Some(pend), p, shape[id], slot);
      var at := InternalInsertPos(p, sep);
      assert at == slot;
      if NODE_CAPACITY - |p.seps| * InternalCost(keyLen) >= InternalCost(keyLen) {
        SplitListedOk(s, pend, id, slot);
        pages := pages[id := SepInserted(p, at, Separator(sep, right))];
        assert View() == SplitListed(s, pend, id, slot);
        split := NoSplit;
      } else {
        split := SplitInternal(id, at, Separator(sep, right), left);
      }
    }

    // The full page and the new separator are shared out over two pages.
    method SplitInternal(id: PageId, at: nat, sep: Separator, ghost left: PageId) returns (split: Split)
      requires Ready(Some(Pending(left, sep.key, sep.child)))
      requires id in shape && id in pages && pages[id].Internal?
      requires at <= |pages[id].seps| && Kid(pages[id], at) == left
      modifies this
      ensures contents == old(contents) && Ready(ToPending(id, split))
      ensures AboveKept(old(View()), View(), old(shape)[id].level)
      ensures split.SplitAt? && HalvedInternal(pages, id, split, SepInserted(old(pages)[id], at, sep).seps)
    {
      ghost var s, pend := View(), Pending(left, sep.key, sep.child);
      assert PageOk(s, Some(pend), id);
      var p := pages[id];
      var all := SepInserted(p, at, sep).seps;
      var mid, right := |all| / 2, pageCount;
      ghost var s2 := InternalOverflowReached(s, pend, id, at, right, keyLen);
      pageCount := pageCount + 1;
      shape := shape[id := Region(p.level, shape[id].lo, all[mid].key)][right := Region(p.level, all[mid].key, shape[id].hi)];
      RewriteParents(id, p, all, mid, right);
      assert View() == s2;
      assert Unfold(0);
      split := SplitAt(all[mid].key, right);
    }

    method RewriteParents(id: PageId, p: Page, all: seq<Separator>, mid: nat, right: PageId)
      requires p.Internal? && mid < |all|
      modifies this`pages
      ensures pages == ParentPages(old(pages), id, p, all, mid, right)
    {
      pages := pages[id := Internal(p.level, p.leftmost, all[..mid])];
      pages := pages[right := Internal(p.level, all[mid].child, all[mid + 1..])];
    }

    method InsertRecursive(id: PageId, key: int, tid: TupleId) returns (split: Split)
      requires Valid() && id in shape && id in pages
      requires shape[id].lo <= key < shape[id].hi && key !in contents
      modifies this
      ensures contents == old(contents)[key := tid] && Ready(ToPending(id, split))
      ensures AboveKept(old(View()), View(), old(shape)[id].level)
      decreases shape[id].level
    {
      ghost var s := View();
      assert PageOk(s, None, id);
      if pages[id].Leaf? {
        split := LeafInsert(id, key, tid);
      } else {
        InternalSorted(s, None, id);
        var child, slot := Descend(pages[id], key);
        assert SlotOk(shape, None, pages[id], shape[id], slot);
        assert PageOk(s, None, child);
        var below := InsertRecursive(child, key, tid);
        assert id in s.shape && pages[id] == s.pages[id] && shape[id] == s.shape[id];
        if below.SplitAt? {
          split := InternalInsert(id, below.sep, below.right, child, slot);
        } else {
          split := NoSplit;
        }
      }
    }

    // Insert `key -> tid`; a split that reaches the root grows the tree.
    method Insert(key: int, tid: TupleId)
      requires Valid() && 0 <= key < limit && key !in contents
      modifies this
      ensures Valid() && contents == old(contents)[key := tid]
    {
      assert PageOk(View(), None, root);
      var split := InsertRecursive(root, key, tid);
      if split.SplitAt? {
        ghost var s, pend := View(), Pending(root, split.sep, split.right);
        assert PageOk(s, Some(pend), root);
        var level := if pages[root].Leaf? then 0 else pages[root].level;
        var top := pageCount;
        pageCount := pageCount + 1;
        RootGrownOk(s, pend, top);
        shape := shape[top := Region(level + 1, 0, limit)];
        pages := pages[top := Internal(level + 1, root, [Separator(split.sep, split.right)])];
        root := top;
        assert View() == RootGrown(s, pend, top);
      }
    }

    // Any sequence of inserts of distinct keys leaves exactly those entries.
    method InsertAll(entries: seq<Entry>)
      requires Valid() && Distinct(entries)
      requires forall i | 0 <= i < |entries| :: 0 <= entries[i].key < limit && entries[i].key !in contents
      modifies this
      ensures Valid() && contents == WithAll(old(contents), entries)
    {
      for n := 0 to |entries|
        invariant Valid() && contents == WithAll(old(contents), entries[..n])
        invariant forall i | n <= i < |entries| :: entries[i].key !in contents
      {
        assert entries[..n + 1] == entries[..n] + [entries[n]];
        Insert(entries[n].key, entries[n].tid);
      }
      assert entries[..|entries|] == entries;
    }
  }

  predicate Distinct(entries: seq<Entry>) {
    forall i, j | 0 <= i < j < |entries| :: entries[i].key != entries[j].key
  }

  function WithAll(contents: map<int, TupleId>, entries: seq<Entry>): map<int, TupleId> {
    if entries == [] then contents
    else
      var e := entries[|entries| - 1];
      WithAll(contents, entries[..|entries| - 1])[e.key := e.tid]
  }

  // ---- Keys as bytes ----

  type Byte = JsonValue.Byte

  // The order of byte slices: by the first difference, a prefix first.
  predicate LexLess(a: seq<Byte>, b: seq<Byte>) {
    b != [] && (a == [] || a[0] < b[0] || (a[0] == b[0] && LexLess(a[1..], b[1..])))
  }

  function Pow256(n: nat): nat { if n == 0 then 1 else 256 * Pow256(n - 1) }

  // The big-endian value of a key.
  function BigEndian(a: seq<Byte>): nat {
    if a == [] then 0 else a[0] * Pow256(|a| - 1) + BigEndian(a[1..])
  }

  lemma PowPositive(n: nat)
    ensures Pow256(n) > 0
  {
  }

  lemma MulLess(a: int, b: int, w: nat)
    requires a < b
    ensures a * w + w <= b * w
  {
    assert (a + 1) * w <= b * w;
  }

  lemma {:induction false} BigEndianBound(a: seq<Byte>)
    ensures BigEndian(a) < Pow256(|a|)
  {
    if a != [] {
      BigEndianBound(a[1..]);
      MulLess(a[0], 256, Pow256(|a| - 1));
    }
  }

  // For keys of one length, byte order is the order of their values, and the
  // value determines the key.
  lemma {:induction false} BigEndianKeys(a: seq<Byte>, b: seq<Byte>)
    requires |a| == |b|
    ensures LexLess(a, b) <==> BigEndian(a) < BigEndian(b)
    ensures a == b <==> BigEndian(a) == BigEndian(b)
  {
    if a != [] {
      BigEndianKeys(a[1..], b[1..]);
      BigEndianBound(a[1..]);
      BigEndianBound(b[1..]);
      var w := Pow256(|a| - 1);
      if a[0] < b[0] {
        MulLess(a[0], b[0], w);
      } else if b[0] < a[0] {
        MulLess(b[0], a[0], w);
      }
      assert a == [a[0]] + a[1..] && b == [b[0]] + b[1..];
    }
  }
}
