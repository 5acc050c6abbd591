// The bytes of an index page: the entry formats of crates/storage/src/btree.rs on the
// slotted page. The pages of BTree are values; here they are tied to those bytes.
module BTreePage {
  import JsonValue
  import Jsonb
  import SlottedPage
  import BTree

  type Byte = JsonValue.Byte

  datatype Option<+T> = None | Some(value: T)

  // ---- Keys ----

  // The key of `len` bytes whose big-endian value is `k`.
  function KeyBytes(k: nat, len: nat): (b: seq<Byte>)
    ensures |b| == len
  {
    if len == 0 then [] else KeyBytes(k / 256, len - 1) + [k % 256]
  }

  lemma TimesPower(b: int, n: nat)
    requires n > 0
    ensures b * BTree.Pow256(n) == 256 * (b * BTree.Pow256(n - 1))
  {
  }

  lemma {:induction false} LastByte(a: seq<Byte>, b: Byte)
    ensures BTree.BigEndian(a + [b]) == 256 * BTree.BigEndian(a) + b
  {
    if a == [] {
      assert a + [b] == [b] && [b][1..] == [];
      assert BTree.BigEndian([b]) == b * BTree.Pow256(0) + BTree.BigEndian([]);
    } else {
      LastByte(a[1..], b);
      TimesPower(a[0], |a|);
      assert (a + [b])[1..] == a[1..] + [b];
    }
  }

  lemma {:induction false} KeyBack(k: nat, len: nat)
    requires k < BTree.Pow256(len)
    ensures BTree.BigEndian(KeyBytes(k, len)) == k
  {
    if len > 0 {
      KeyBack(k / 256, len - 1);
      LastByte(KeyBytes(k / 256, len - 1), k % 256);
    }
  }

  // ---- Entries ----

  function EncodeKey(k: nat, len: nat): seq<Byte> { Jsonb.Little(len, 2) + KeyBytes(k, len) }

  function EncodeLeaf(e: BTree.Entry, len: nat): seq<Byte>
    requires e.key >= 0
  {
    EncodeKey(e.key, len) + (Jsonb.Little(e.tid.page, 8) + Jsonb.Little(e.tid.slot, 2))
  }

  function EncodeInternal(s: BTree.Separator, len: nat): seq<Byte>
    requires s.key >= 0
  {
    EncodeKey(s.key, len) + Jsonb.Little(s.child, 8)
  }

  // The key bytes and what follows them, if at least `tail` bytes do.
  function SplitKey(data: seq<Byte>, tail: nat): Option<(seq<Byte>, seq<Byte>)> {
    if |data| < 2 + tail then None
    else
      var len := Jsonb.FromLittle(data[..2]);
      if |data| < 2 + len + tail then None else Some((data[2..2 + len], data[2 + len..]))
  }

  function DecodeLeaf(data: seq<Byte>): Option<(seq<Byte>, BTree.TupleId)> {
    match SplitKey(data, 10)
    case None => None
    case Some((key, rest)) => Some((key, BTree.TupleId(Jsonb.FromLittle(rest[..8]), Jsonb.FromLittle(rest[8..10]))))
  }

  function DecodeInternal(data: seq<Byte>): Option<(seq<Byte>, BTree.PageId)> {
    match SplitKey(data, 8)
    case None => None
    case Some((key, rest)) => Some((key, Jsonb.FromLittle(rest[..8])))
  }

  predicate Fits16(n: nat) { n < 0x1_0000 }
  predicate Fits64(n: nat) { n < Jsonb.TWO_64 }

  lemma SmallPowers()
    ensures Jsonb.Pow256(2) == 0x1_0000 && Jsonb.Pow256(8) == Jsonb.TWO_64
  {
    Jsonb.Powers();
    assert Jsonb.Pow256(1) == 256;
  }

  lemma KeySplits(k: nat, len: nat, z: seq<Byte>, tail: nat)
    requires Fits16(len) && tail <= |z|
    ensures SplitKey(EncodeKey(k, len) + z, tail) == Some((KeyBytes(k, len), z))
  {
    SmallPowers();
    var data := EncodeKey(k, len) + z;
    Jsonb.NumberBack(len, 2, KeyBytes(k, len) + z);
    assert data == Jsonb.Little(len, 2) + (KeyBytes(k, len) + z);
    assert data[2..2 + len] == KeyBytes(k, len) && data[2 + len..] == z;
  }

  // Decoding an encoded leaf entry gives key and tuple id back; the entry takes as
  // many bytes as BTree charges for it.
  lemma LeafBack(e: BTree.Entry, len: nat)
    requires 0 <= e.key < BTree.Pow256(len) && Fits16(len) && Fits64(e.tid.page) && Fits16(e.tid.slot)
    ensures DecodeLeaf(EncodeLeaf(e, len)) == Some((KeyBytes(e.key, len), e.tid))
    ensures BTree.BigEndian(KeyBytes(e.key, len)) == e.key
    ensures SlottedPage.SLOT + |EncodeLeaf(e, len)| == BTree.LeafCost(len)
  {
    SmallPowers();
    KeyBack(e.key, len);
    var page, slot := Jsonb.Little(e.tid.page, 8), Jsonb.Little(e.tid.slot, 2);
    KeySplits(e.key, len, page + slot, 10);
    Jsonb.NumberBack(e.tid.page, 8, slot);
    Jsonb.LittleBack(e.tid.slot, 2);
    assert (page + slot)[8..10] == slot;
  }

  lemma InternalBack(s: BTree.Separator, len: nat)
    requires 0 <= s.key < BTree.Pow256(len) && Fits16(len) && Fits64(s.child)
    ensures DecodeInternal(EncodeInternal(s, len)) == Some((KeyBytes(s.key, len), s.child))
    ensures BTree.BigEndian(KeyBytes(s.key, len)) == s.key
    ensures SlottedPage.SLOT + |EncodeInternal(s, len)| == BTree.InternalCost(len)
  {
    SmallPowers();
    KeyBack(s.key, len);
    var child := Jsonb.Little(s.child, 8);
    KeySplits(s.key, len, child, 8);
    Jsonb.LittleBack(s.child, 8);
    assert child[..8] == child;
  }

  // Key `ab` for slot 258 of page 3.
  lemma LayoutExample()
    ensures EncodeLeaf(BTree.Entry(97 * 256 + 98, BTree.TupleId(3, 258)), 2) == [2, 0, 97, 98] + [3, 0, 0, 0, 0, 0, 0, 0] + [2, 1]
    ensures EncodeInternal(BTree.Separator(97 * 256 + 98, 3), 2) == [2, 0, 97, 98] + [3, 0, 0, 0, 0, 0, 0, 0]
  {
    Jsonb.EightBytes(3);
    assert KeyBytes(97 * 256 + 98, 2) == [97, 98];
    assert Jsonb.Little(2, 2) == [2, 0] && Jsonb.Little(258, 2) == [2, 1];
  }

  // ---- Pages ----

  // A fact kept under a quantifier that only `Unfold` triggers is not expanded by a
  // lemma that merely passes it on.
  predicate Unfold(i: int) { true }

  // The page of bytes `s` holds exactly the tuples `ds`, each charged `cost` with its
  // slot, in the room a node page has.
  ghost predicate HoldsTuples(s: SlottedPage.Bytes, ds: seq<seq<Byte>>, cost: nat) {
    && SlottedPage.PageOk(s, |ds|)
    && (forall i | 0 <= i < |ds| :: SlottedPage.TupleAt(s, i) == SlottedPage.Some(ds[i]))
    && SlottedPage.Upper(s) - SlottedPage.Lower(s) == BTree.NODE_CAPACITY - |ds| * cost
    && SlottedPage.Special(s) == SlottedPage.HEADER + BTree.NODE_CAPACITY
  }

  ghost predicate Holds(s: SlottedPage.Bytes, ds: seq<seq<Byte>>, cost: nat) {
    forall i {:trigger Unfold(i)} :: Unfold(i) ==> HoldsTuples(s, ds, cost)
  }

  // `s2` is `s` with tuple `d` put at slot `at` of `n`, for which there is room.
  ghost predicate IsPut(s: SlottedPage.Bytes, n: nat, at: nat, d: seq<Byte>, s2: SlottedPage.Bytes) {
    forall i {:trigger Unfold(i)} :: Unfold(i) ==>
      && SlottedPage.Layout(s, n) && at <= n && SlottedPage.SLOT + |d| <= SlottedPage.Upper(s) - SlottedPage.Lower(s)
      && s2 == SlottedPage.InsertedAt(s, n, at, d)
  }

  function Put<T>(ds: seq<T>, at: nat, d: T): seq<T>
    requires at <= |ds|
  {
    ds[..at] + [d] + ds[at..]
  }

  lemma HasRoom(s: SlottedPage.Bytes, ds: seq<seq<Byte>>, cost: nat)
    requires Holds(s, ds, cost)
    ensures SlottedPage.Layout(s, |ds|)
    ensures BTree.Fits(|ds| + 1, cost) <==> cost <= SlottedPage.Upper(s) - SlottedPage.Lower(s)
  {
    assert Unfold(0);
    assert (|ds| + 1) * cost == |ds| * cost + cost;
  }

  lemma PutTuple(s: SlottedPage.Bytes, ds: seq<seq<Byte>>, at: nat, d: seq<Byte>, i: nat)
    requires SlottedPage.PageOk(s, |ds|) && at <= |ds| && i <= |ds|
    requires SlottedPage.SLOT + |d| <= SlottedPage.Upper(s) - SlottedPage.Lower(s)
    requires forall i | 0 <= i < |ds| :: SlottedPage.TupleAt(s, i) == SlottedPage.Some(ds[i])
    ensures SlottedPage.PageOk(SlottedPage.InsertedAt(s, |ds|, at, d), |ds| + 1)
    ensures SlottedPage.TupleAt(SlottedPage.InsertedAt(s, |ds|, at, d), i) == SlottedPage.Some(Put(ds, at, d)[i])
  {
    SlottedPage.InsertedPageOk(s, |ds|, at, d);
    SlottedPage.InsertedTuple(s, |ds|, at, d, i);
  }

  // A page that has room holds the list with the tuple put in.
  lemma PutHolds(s: SlottedPage.Bytes, ds: seq<seq<Byte>>, cost: nat, at: nat, d: seq<Byte>, s2: SlottedPage.Bytes)
    requires Holds(s, ds, cost) && at <= |ds| && SlottedPage.SLOT + |d| == cost && IsPut(s, |ds|, at, d, s2)
    ensures Holds(s2, Put(ds, at, d), cost)
  {
    assert HoldsTuples(s, ds, cost) && SlottedPage.SLOT + |d| <= SlottedPage.Upper(s) - SlottedPage.Lower(s)
        && s2 == SlottedPage.InsertedAt(s, |ds|, at, d) by {
      assert Unfold(0);
    }
    PutSpace(s, |ds|, at, d, cost, s2);
    PutElements(s, ds, at, d, s2);
  }

  lemma PutSpace(s: SlottedPage.Bytes, n: nat, at: nat, d: seq<Byte>, cost: nat, s2: SlottedPage.Bytes)
    requires SlottedPage.Layout(s, n) && at <= n && SlottedPage.SLOT + |d| == cost <= SlottedPage.Upper(s) - SlottedPage.Lower(s)
    requires SlottedPage.Upper(s) - SlottedPage.Lower(s) == BTree.NODE_CAPACITY - n * cost
    requires s2 == SlottedPage.InsertedAt(s, n, at, d)
    ensures SlottedPage.Upper(s2) - SlottedPage.Lower(s2) == BTree.NODE_CAPACITY - (n + 1) * cost
    ensures SlottedPage.Special(s2) == SlottedPage.Special(s)
  {
    SlottedPage.InsertedFields(s, n, at, d);
    assert (n + 1) * cost == n * cost + cost;
  }

  lemma PutElements(s: SlottedPage.Bytes, ds: seq<seq<Byte>>, at: nat, d: seq<Byte>, s2: SlottedPage.Bytes)
    requires SlottedPage.PageOk(s, |ds|) && at <= |ds|
    requires SlottedPage.SLOT + |d| <= SlottedPage.Upper(s) - SlottedPage.Lower(s)
    requires forall i | 0 <= i < |ds| :: SlottedPage.TupleAt(s, i) == SlottedPage.Some(ds[i])
    requires s2 == SlottedPage.InsertedAt(s, |ds|, at, d)
    ensures SlottedPage.PageOk(s2, |ds| + 1)
    ensures forall i | 0 <= i <= |ds| :: SlottedPage.TupleAt(s2, i) == SlottedPage.Some(Put(ds, at, d)[i])
  {
    SlottedPage.InsertedPageOk(s, |ds|, at, d);
    forall i | 0 <= i <= |ds|
      ensures SlottedPage.TupleAt(s2, i) == SlottedPage.Some(Put(ds, at, d)[i])
    {
      PutTuple(s, ds, at, d, i);
    }
  }

  // The encoded entries of a page value.
  function LeafTuples(entries: seq<BTree.Entry>, len: nat): (ds: seq<seq<Byte>>)
    requires forall i | 0 <= i < |entries| :: entries[i].key >= 0
    ensures |ds| == |entries| && forall i | 0 <= i < |ds| :: ds[i] == EncodeLeaf(entries[i], len)
  {
    seq(|entries|, i requires 0 <= i < |entries| => EncodeLeaf(entries[i], len))
  }

  function InternalTuples(seps: seq<BTree.Separator>, len: nat): (ds: seq<seq<Byte>>)
    requires forall i | 0 <= i < |seps| :: seps[i].key >= 0
    ensures |ds| == |seps| && forall i | 0 <= i < |ds| :: ds[i] == EncodeInternal(seps[i], len)
  {
    seq(|seps|, i requires 0 <= i < |seps| => EncodeInternal(seps[i], len))
  }

  ghost predicate LeafBytes(s: SlottedPage.Bytes, entries: seq<BTree.Entry>, len: nat) {
    (forall i | 0 <= i < |entries| :: entries[i].key >= 0) && Holds(s, LeafTuples(entries, len), BTree.LeafCost(len))
  }

  ghost predicate InternalBytes(s: SlottedPage.Bytes, seps: seq<BTree.Separator>, len: nat) {
    (forall i | 0 <= i < |seps| :: seps[i].key >= 0) && Holds(s, InternalTuples(seps, len), BTree.InternalCost(len))
  }

  // Inserting an entry into a leaf value is writing its bytes into the page.
  lemma LeafPut(s: SlottedPage.Bytes, entries: seq<BTree.Entry>, len: nat, at: nat, e: BTree.Entry, s2: SlottedPage.Bytes)
    requires LeafBytes(s, entries, len) && at <= |entries| && e.key >= 0
    requires IsPut(s, |entries|, at, EncodeLeaf(e, len), s2)
    ensures LeafBytes(s2, BTree.Inserted(entries, at, e), len)
  {
    var ds, d := LeafTuples(entries, len), EncodeLeaf(e, len);
    PutHolds(s, ds, BTree.LeafCost(len), at, d, s2);
    assert LeafTuples(BTree.Inserted(entries, at, e), len) == Put(ds, at, d);
  }

  lemma InternalPut(s: SlottedPage.Bytes, p: BTree.Page, len: nat, at: nat, sep: BTree.Separator, s2: SlottedPage.Bytes)
    requires p.Internal? && InternalBytes(s, p.seps, len) && at <= |p.seps| && sep.key >= 0
    requires IsPut(s, |p.seps|, at, EncodeInternal(sep, len), s2)
    ensures InternalBytes(s2, BTree.SepInserted(p, at, sep).seps, len)
  {
    var ds, d := InternalTuples(p.seps, len), EncodeInternal(sep, len);
    PutHolds(s, ds, BTree.InternalCost(len), at, d, s2);
    assert InternalTuples(BTree.SepInserted(p, at, sep).seps, len) == Put(ds, at, d);
  }

  // A cleared node page holds no entries.
  lemma ClearedHolds(s: SlottedPage.Bytes, cost: nat)
    requires SlottedPage.PageOk(s, 0) && SlottedPage.Special(s) == SlottedPage.HEADER + BTree.NODE_CAPACITY
    requires SlottedPage.Upper(s) == SlottedPage.Special(s)
    ensures Holds(s, [], cost)
  {
    assert 0 * cost == 0;
  }

  // ---- The writes ----

  // `insert_tuple_at` on a node page: refused exactly when BTree finds no room.
  method PutAt(page: SlottedPage.Page, at: nat, d: seq<Byte>, ghost ds: seq<seq<Byte>>, ghost cost: nat) returns (ok: bool)
    requires page.Valid() && Holds(page.data[..], ds, cost) && at <= |ds| && SlottedPage.SLOT + |d| == cost
    modifies page.data
    ensures page.Valid() && ok == BTree.Fits(|ds| + 1, cost)
    ensures Holds(page.data[..], if ok then Put(ds, at, d) else ds, cost)
  {
    ghost var s := page.data[..];
    HasRoom(s, ds, cost);
    CountIs(page, ds, cost);
    var r := page.InsertTupleAt(at, d);
    ok := r.Ok?;
    if ok {
      InsertedIsPut(s, |ds|, at, d, page.data[..]);
      PutHolds(s, ds, cost, at, d, page.data[..]);
    }
  }

  lemma InsertedIsPut(s: SlottedPage.Bytes, n: nat, at: nat, d: seq<Byte>, s2: SlottedPage.Bytes)
    requires SlottedPage.Layout(s, n) && at <= n && SlottedPage.SLOT + |d| <= SlottedPage.Upper(s) - SlottedPage.Lower(s)
    requires SlottedPage.IsInserted(s, n, at, d, s2)
    ensures IsPut(s, n, at, d, s2)
  {
    assert SlottedPage.Unfold(0);
  }

  // Both halves of a split are written like this: clear, then append each entry.
  method Rewrite(page: SlottedPage.Page, ds: seq<seq<Byte>>, ghost cost: nat)
    requires page.Valid() && SlottedPage.Special(page.data[..]) == SlottedPage.HEADER + BTree.NODE_CAPACITY
    requires BTree.Fits(|ds|, cost) && forall i | 0 <= i < |ds| :: SlottedPage.SLOT + |ds[i]| == cost
    modifies page.data
    ensures page.Valid() && Holds(page.data[..], ds, cost)
  {
    page.ClearTuples();
    ClearedHolds(page.data[..], cost);
    for i := 0 to |ds|
      invariant page.Valid() && Holds(page.data[..], ds[..i], cost)
    {
      BTree.FitsLess(i + 1, |ds|, cost);
      var n := page.SlotCount();
      CountIs(page, ds[..i], cost);
      var ok := PutAt(page, n, ds[i], ds[..i], cost);
      assert Put(ds[..i], i, ds[i]) == ds[..i + 1];
    }
    assert ds[..|ds|] == ds;
  }

  lemma CountIs(page: SlottedPage.Page, ds: seq<seq<Byte>>, cost: nat)
    requires page.Valid() && Holds(page.data[..], ds, cost)
    ensures |page.List()| == |ds|
  {
    assert Unfold(0);
  }
}
