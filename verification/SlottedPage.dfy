// The slotted page of crates/storage/src/page.rs, byte by byte: a 48-byte
// header, an array of 4-byte slots growing up, tuple data growing down to it,
// and special space at the end. It behaves as a list of optional tuples.
module SlottedPage {
  import JsonValue

  type Byte = JsonValue.Byte
  type U16 = x: int | 0 <= x < 0x1_0000

  const PAGE_SIZE: nat := 8192
  const HEADER: nat := 48
  const SLOT: nat := 4
  const FLAGS: nat := 20
  const LOWER: nat := 22
  const UPPER: nat := 24
  const SPECIAL: nat := 26

  datatype Option<+T> = None | Some(value: T)
  datatype Error = InsufficientSpace(needed: nat, available: nat) | SlotOutOfRange(slot: nat)
  datatype Result<+T> = Ok(value: T) | Err(error: Error)

  // ---- What the bytes mean ----

  type Bytes = s: seq<Byte> | |s| == PAGE_SIZE witness seq(PAGE_SIZE, _ => 0)

  function U16At(s: Bytes, off: nat): U16
    requires off + 2 <= PAGE_SIZE
  {
    (s[off] as int) + 256 * (s[off + 1] as int)
  }

  function Lower(s: Bytes): U16 { U16At(s, LOWER) }
  function Upper(s: Bytes): U16 { U16At(s, UPPER) }
  function Special(s: Bytes): U16 { U16At(s, SPECIAL) }

  function Offset(s: Bytes, i: nat): U16
    requires HEADER + SLOT * i + SLOT <= PAGE_SIZE
  {
    U16At(s, HEADER + SLOT * i)
  }

  function Length(s: Bytes, i: nat): U16
    requires HEADER + SLOT * i + SLOT <= PAGE_SIZE
  {
    U16At(s, HEADER + SLOT * i + 2)
  }

  predicate Layout(s: Bytes, n: nat) {
    HEADER + SLOT * n == Lower(s) <= Upper(s) <= Special(s) <= PAGE_SIZE
  }

  // A slot is dead (all zero) or points into the tuple area.
  predicate SlotOk(s: Bytes, i: nat)
    requires HEADER + SLOT * i + SLOT <= PAGE_SIZE
  {
    || (Offset(s, i) == 0 && Length(s, i) == 0)
    || (Upper(s) <= Offset(s, i) && Offset(s, i) + Length(s, i) <= Special(s))
  }

  ghost predicate PageOk(s: Bytes, n: nat) {
    Layout(s, n) && forall i | 0 <= i < n :: SlotOk(s, i)
  }

  function TupleAt(s: Bytes, i: nat): Option<seq<Byte>>
    requires HEADER + SLOT * i + SLOT <= PAGE_SIZE && Upper(s) >= HEADER && Special(s) <= PAGE_SIZE && SlotOk(s, i)
  {
    if Offset(s, i) == 0 && Length(s, i) == 0 then None
    else Some(s[Offset(s, i)..Offset(s, i) + Length(s, i)])
  }

  ghost function Tuples(s: Bytes, n: nat): seq<Option<seq<Byte>>>
    requires PageOk(s, n)
  {
    seq(n, i requires 0 <= i < n => TupleAt(s, i))
  }

  // ---- Writing bytes ----

  function PutU16(s: Bytes, off: nat, v: U16): Bytes
    requires off + 2 <= PAGE_SIZE
  {
    s[off := v % 256][off + 1 := v / 256]
  }

  function PutSlot(s: Bytes, i: nat, offset: U16, length: U16): Bytes
    requires HEADER + SLOT * i + SLOT <= PAGE_SIZE
  {
    PutU16(PutU16(s, HEADER + SLOT * i, offset), HEADER + SLOT * i + 2, length)
  }

  function Spliced(s: Bytes, at: nat, d: seq<Byte>): Bytes
    requires at + |d| <= PAGE_SIZE
  {
    s[..at] + d + s[at + |d|..]
  }

  // Slots `pos..n` copied one slot up.
  function Shifted(s: Bytes, pos: nat, n: nat): Bytes
    requires pos <= n && HEADER + SLOT * n + SLOT <= PAGE_SIZE
  {
    s[..HEADER + SLOT * pos + SLOT] + s[HEADER + SLOT * pos..HEADER + SLOT * n] + s[HEADER + SLOT * n + SLOT..]
  }

  // The page after a tuple is put at slot `pos` of `n`, there being room.
  function InsertedAt(s: Bytes, n: nat, pos: nat, d: seq<Byte>): Bytes
    requires Layout(s, n) && pos <= n && SLOT + |d| <= Upper(s) - Lower(s)
  {
    var up := Upper(s) - |d|;
    var s1 := Shifted(Spliced(s, up, d), pos, n);
    var s2 := PutSlot(s1, pos, up, |d|);
    PutU16(PutU16(s2, UPPER, up), LOWER, Lower(s) + SLOT)
  }

  // FLAG_HAS_FREE_LINES, the lowest bit, set.
  function WithFreeLines(flags: U16): U16 { if flags % 2 == 1 then flags else flags + 1 }

  function Deleted(s: Bytes, slot: nat, flags: U16): Bytes
    requires HEADER + SLOT * slot + SLOT <= PAGE_SIZE
  {
    PutU16(PutSlot(s, slot, 0, 0), FLAGS, flags)
  }

  function Cleared(s: Bytes): Bytes
    requires HEADER <= Special(s) <= PAGE_SIZE
  {
    var zeroed := s[..HEADER] + seq(Special(s) - HEADER, _ => 0) + s[Special(s)..];
    PutU16(PutU16(zeroed, LOWER, HEADER), UPPER, Special(s))
  }

  // ---- The page is a list of optional tuples ----

  // Where each byte outside the rewritten header fields and the new slot comes from.
  lemma InsertedByte(s: Bytes, n: nat, pos: nat, d: seq<Byte>, k: nat)
    requires Layout(s, n) && pos <= n && SLOT + |d| <= Upper(s) - Lower(s) && k < PAGE_SIZE
    requires !(LOWER <= k < SPECIAL) && !(HEADER + SLOT * pos <= k < HEADER + SLOT * pos + SLOT)
    ensures
      var s', up := InsertedAt(s, n, pos, d), Upper(s) - |d|;
      s'[k] == if HEADER + SLOT * pos + SLOT <= k < HEADER + SLOT * n + SLOT then s[k - SLOT]
               else if up <= k < Upper(s) then d[k - up]
               else s[k]
  {
    var up := Upper(s) - |d|;
    var s0 := Spliced(s, up, d);
    var s1 := Shifted(s0, pos, n);
    assert s0[k] == if up <= k < Upper(s) then d[k - up] else s[k];
    if HEADER + SLOT * pos + SLOT <= k < HEADER + SLOT * n + SLOT {
      assert s1[k] == s0[k - SLOT] == s[k - SLOT];
    } else {
      assert s1[k] == s0[k];
    }
  }

  lemma PutU16Reads(s: Bytes, off: nat, v: U16)
    requires off + 2 <= PAGE_SIZE
    ensures U16At(PutU16(s, off, v), off) == v
  {
  }

  lemma InsertedFields(s: Bytes, n: nat, pos: nat, d: seq<Byte>)
    requires Layout(s, n) && pos <= n && SLOT + |d| <= Upper(s) - Lower(s)
    ensures
      var s', up := InsertedAt(s, n, pos, d), Upper(s) - |d|;
      && Lower(s') == Lower(s) + SLOT && Upper(s') == up && Special(s') == Special(s)
      && s'[up..Upper(s)] == d
      && (forall k | Upper(s) <= k < PAGE_SIZE :: s'[k] == s[k])
      && (forall k | 0 <= k < LOWER || SPECIAL <= k < HEADER :: s'[k] == s[k])
  {
    var s', up := InsertedAt(s, n, pos, d), Upper(s) - |d|;
    var s2 := PutSlot(Shifted(Spliced(s, up, d), pos, n), pos, up, |d|);
    PutU16Reads(s2, UPPER, up);
    PutU16Reads(PutU16(s2, UPPER, up), LOWER, Lower(s) + SLOT);
    forall k: nat | Upper(s) <= k < PAGE_SIZE || k < LOWER || SPECIAL <= k < HEADER ensures s'[k] == s[k] {
      InsertedByte(s, n, pos, d, k);
    }
    forall k: nat | up <= k < Upper(s) ensures s'[k] == d[k - up] {
      InsertedByte(s, n, pos, d, k);
    }
  }

  lemma InsertedSlot(s: Bytes, n: nat, pos: nat, d: seq<Byte>, i: nat)
    requires Layout(s, n) && pos <= n && SLOT + |d| <= Upper(s) - Lower(s) && i <= n
    ensures
      var s' := InsertedAt(s, n, pos, d);
      && (i < pos ==> Offset(s', i) == Offset(s, i) && Length(s', i) == Length(s, i))
      && (i == pos ==> Offset(s', i) == Upper(s) - |d| && Length(s', i) == |d|)
      && (i > pos ==> Offset(s', i) == Offset(s, i - 1) && Length(s', i) == Length(s, i - 1))
  {
    var at := HEADER + SLOT * i;
    if i != pos {
      InsertedByte(s, n, pos, d, at);
      InsertedByte(s, n, pos, d, at + 1);
      InsertedByte(s, n, pos, d, at + 2);
      InsertedByte(s, n, pos, d, at + 3);
    }
  }

  // A slot with the same fields reads the same tuple, if the tuple area is kept.
  lemma SameTuple(s: Bytes, s': Bytes, j: nat, i: nat)
    requires HEADER + SLOT * j + SLOT <= PAGE_SIZE && HEADER + SLOT * i + SLOT <= PAGE_SIZE
    requires HEADER <= Upper(s') <= Upper(s) && Special(s') == Special(s) <= PAGE_SIZE && SlotOk(s, j)
    requires Offset(s', i) == Offset(s, j) && Length(s', i) == Length(s, j)
    requires forall k | Upper(s) <= k < Special(s) :: s'[k] == s[k]
    ensures SlotOk(s', i) && TupleAt(s', i) == TupleAt(s, j)
  {
    var lo, hi := Offset(s, j), Offset(s, j) + Length(s, j);
    if !(Offset(s, j) == 0 && Length(s, j) == 0) {
      assert s'[lo..hi] == s[lo..hi];
    }
  }

  lemma InsertedTuple(s: Bytes, n: nat, pos: nat, d: seq<Byte>, i: nat)
    requires PageOk(s, n) && pos <= n && SLOT + |d| <= Upper(s) - Lower(s) && i <= n
    ensures
      var s' := InsertedAt(s, n, pos, d);
      && Layout(s', n + 1) && SlotOk(s', i)
      && TupleAt(s', i) == if i < pos then TupleAt(s, i) else if i == pos then Some(d) else TupleAt(s, i - 1)
  {
    InsertedFields(s, n, pos, d);
    InsertedSlot(s, n, pos, d, i);
    if i != pos {
      var j := if i < pos then i else i - 1;
      assert SlotOk(s, j);
      SameTuple(s, InsertedAt(s, n, pos, d), j, i);
    }
  }

  lemma InsertedCame(s: Bytes, n: nat, pos: nat, d: seq<Byte>, i: nat)
    requires PageOk(s, n) && pos <= n && SLOT + |d| <= Upper(s) - Lower(s) && i <= n
    ensures PageOk(InsertedAt(s, n, pos, d), n + 1)
    ensures CameFrom(Tuples(s, n), Tuples(InsertedAt(s, n, pos, d), n + 1), pos, Some(d), i)
  {
    InsertedPageOk(s, n, pos, d);
    InsertedTuple(s, n, pos, d, i);
  }

  lemma InsertedPageOk(s: Bytes, n: nat, pos: nat, d: seq<Byte>)
    requires PageOk(s, n) && pos <= n && SLOT + |d| <= Upper(s) - Lower(s)
    ensures PageOk(InsertedAt(s, n, pos, d), n + 1)
  {
    InsertedFields(s, n, pos, d);
    forall i | 0 <= i <= n ensures SlotOk(InsertedAt(s, n, pos, d), i) {
      InsertedTuple(s, n, pos, d, i);
    }
  }

  // `insert_tuple_at` is insertion into the list; every other slot reads back unchanged.
  lemma InsertIsListInsert(s: Bytes, n: nat, pos: nat, d: seq<Byte>)
    requires PageOk(s, n) && pos <= n && SLOT + |d| <= Upper(s) - Lower(s)
    ensures PageOk(InsertedAt(s, n, pos, d), n + 1)
    ensures Tuples(InsertedAt(s, n, pos, d), n + 1) == Tuples(s, n)[..pos] + [Some(d)] + Tuples(s, n)[pos..]
  {
    InsertedPageOk(s, n, pos, d);
    var list, list' := Tuples(s, n), Tuples(InsertedAt(s, n, pos, d), n + 1);
    forall i: nat | i <= n ensures CameFrom(list, list', pos, Some(d), i) {
      InsertedCame(s, n, pos, d, i);
    }
    ListInserted(list, list', pos, Some(d));
  }

  // `s2` is `s` after the insertion; the fact is expanded only where asked for.
  predicate Unfold(i: int) { true }

  ghost predicate IsInserted(s: Bytes, n: nat, pos: nat, d: seq<Byte>, s2: Bytes)
    requires Layout(s, n) && pos <= n && SLOT + |d| <= Upper(s) - Lower(s)
  {
    forall i {:trigger Unfold(i)} :: Unfold(i) ==> s2 == InsertedAt(s, n, pos, d)
  }

  lemma InsertedOk(s: Bytes, n: nat, pos: nat, d: seq<Byte>, s2: Bytes)
    requires PageOk(s, n) && pos <= n && SLOT + |d| <= Upper(s) - Lower(s) && IsInserted(s, n, pos, d, s2)
    ensures PageOk(s2, n + 1) && Lower(s2) == Lower(s) + SLOT
    ensures Tuples(s2, n + 1) == Tuples(s, n)[..pos] + [Some(d)] + Tuples(s, n)[pos..]
  {
    assert Unfold(0);
    InsertIsListInsert(s, n, pos, d);
    InsertedFields(s, n, pos, d);
  }

  predicate CameFrom<T(==)>(list: seq<T>, list': seq<T>, pos: nat, x: T, i: nat)
    requires |list'| == |list| + 1 && pos <= |list| && i < |list'|
  {
    list'[i] == if i < pos then list[i] else if i == pos then x else list[i - 1]
  }

  lemma ListInserted<T>(list: seq<T>, list': seq<T>, pos: nat, x: T)
    requires |list'| == |list| + 1 && pos <= |list|
    requires forall i: nat | i < |list'| :: CameFrom(list, list', pos, x, i)
    ensures list' == list[..pos] + [x] + list[pos..]
  {
    var joined := list[..pos] + [x] + list[pos..];
    forall i: nat | i < |list'| ensures list'[i] == joined[i] {
      assert CameFrom(list, list', pos, x, i);
    }
  }

  // `delete_tuple` clears one element of the list.
  lemma DeleteIsListClear(s: Bytes, n: nat, slot: nat, flags: U16)
    requires PageOk(s, n) && slot < n
    ensures PageOk(Deleted(s, slot, flags), n)
    ensures Tuples(Deleted(s, slot, flags), n) == Tuples(s, n)[slot := None]
  {
    var s' := Deleted(s, slot, flags);
    assert Lower(s') == Lower(s) && Upper(s') == Upper(s) && Special(s') == Special(s);
    forall i | 0 <= i < n
      ensures SlotOk(s', i) && TupleAt(s', i) == if i == slot then None else TupleAt(s, i)
    {
      assert SlotOk(s, i);
      if i != slot {
        SameTuple(s, s', i, i);
      }
    }
  }

  lemma ClearIsEmptyList(s: Bytes, n: nat)
    requires PageOk(s, n)
    ensures PageOk(Cleared(s), 0) && Tuples(Cleared(s), 0) == []
    ensures Special(Cleared(s)) == Special(s) && Upper(Cleared(s)) == Special(s)
    ensures forall k | Special(s) <= k < PAGE_SIZE :: Cleared(s)[k] == s[k]
  {
    var zeroed := s[..HEADER] + seq(Special(s) - HEADER, _ => 0) + s[Special(s)..];
    PutU16Reads(zeroed, LOWER, HEADER);
    PutU16Reads(PutU16(zeroed, LOWER, HEADER), UPPER, Special(s));
  }

  // A fresh page: zeros but for the header's layout fields.
  function NewBytes(): Bytes {
    PutU16(PutU16(PutU16(seq(PAGE_SIZE, _ => 0), LOWER, HEADER), UPPER, PAGE_SIZE), SPECIAL, PAGE_SIZE)
  }

  lemma NewIsEmptyList()
    ensures PageOk(NewBytes(), 0) && Tuples(NewBytes(), 0) == []
  {
    var s0: Bytes := seq(PAGE_SIZE, _ => 0);
    PutU16Reads(s0, LOWER, HEADER);
    PutU16Reads(PutU16(s0, LOWER, HEADER), UPPER, PAGE_SIZE);
    PutU16Reads(PutU16(PutU16(s0, LOWER, HEADER), UPPER, PAGE_SIZE), SPECIAL, PAGE_SIZE);
  }

  // Little-endian helpers on the array.
  method WriteU16(data: array<Byte>, off: nat, v: U16)
    requires data.Length == PAGE_SIZE && off + 2 <= PAGE_SIZE
    modifies data
    ensures data[..] == PutU16(old(data[..]), off, v)
  {
    data[off] := v % 256;
    data[off + 1] := v / 256;
  }

  method CopyIn(data: array<Byte>, at: nat, d: seq<Byte>)
    requires data.Length == PAGE_SIZE && at + |d| <= PAGE_SIZE
    modifies data
    ensures data[..] == Spliced(old(data[..]), at, d)
  {
    for i := 0 to |d|
      invariant forall k | 0 <= k < PAGE_SIZE :: data[k] == if at <= k < at + i then d[k - at] else old(data[k])
    {
      data[at + i] := d[i];
    }
  }

  method ShiftSlots(data: array<Byte>, pos: nat, n: nat)
    requires data.Length == PAGE_SIZE && pos <= n && HEADER + SLOT * n + SLOT <= PAGE_SIZE
    modifies data
    ensures data[..] == Shifted(old(data[..]), pos, n)
  {
    forall k | HEADER + SLOT * pos <= k < HEADER + SLOT * n {
      data[k + SLOT] := data[k];
    }
  }

  lemma ShiftNone(s: Bytes, n: nat)
    requires HEADER + SLOT * n + SLOT <= PAGE_SIZE
    ensures Shifted(s, n, n) == s
  {
  }

  method MakeRoom(data: array<Byte>, pos: nat, n: nat)
    requires data.Length == PAGE_SIZE && pos <= n && HEADER + SLOT * n + SLOT <= PAGE_SIZE
    modifies data
    ensures data[..] == Shifted(old(data[..]), pos, n)
  {
    if pos < n {
      ShiftSlots(data, pos, n);
    } else {
      ShiftNone(data[..], n);
    }
  }

  method WriteSlot(data: array<Byte>, slot: nat, offset: U16, length: U16)
    requires data.Length == PAGE_SIZE && HEADER + SLOT * slot + SLOT <= PAGE_SIZE
    modifies data
    ensures data[..] == PutSlot(old(data[..]), slot, offset, length)
  {
    WriteU16(data, HEADER + SLOT * slot, offset);
    WriteU16(data, HEADER + SLOT * slot + 2, length);
  }

  method WriteBounds(data: array<Byte>, lower: U16, upper: U16)
    requires data.Length == PAGE_SIZE
    modifies data
    ensures data[..] == PutU16(PutU16(old(data[..]), UPPER, upper), LOWER, lower)
  {
    WriteU16(data, UPPER, upper);
    WriteU16(data, LOWER, lower);
  }

  // The writes of an insertion at slot `pos` of `n`.
  method PutTuple(data: array<Byte>, n: nat, pos: nat, d: seq<Byte>, lower: U16, upper: U16)
    requires data.Length == PAGE_SIZE && Layout(data[..], n) && pos <= n
    requires lower == Lower(data[..]) && upper == Upper(data[..]) && SLOT + |d| <= upper - lower
    modifies data
    ensures IsInserted(old(data[..]), n, pos, d, data[..])
  {
    var newUpper := upper - |d|;
    ghost var s := data[..];
    WriteTuple(data, n, pos, d, newUpper);
    ghost var s2 := data[..];
    WriteBounds(data, lower + SLOT, newUpper);
    BoundsLast(s, n, pos, d, s2, data[..]);
  }

  // The tuple and its slot are there, the header fields not yet.
  ghost predicate IsWritten(s: Bytes, n: nat, pos: nat, d: seq<Byte>, up: nat, s2: Bytes) {
    && up + |d| <= PAGE_SIZE && pos <= n && HEADER + SLOT * n + SLOT <= PAGE_SIZE && up < 0x1_0000 && |d| < 0x1_0000
    && forall i {:trigger Unfold(i)} :: Unfold(i) ==> s2 == PutSlot(Shifted(Spliced(s, up, d), pos, n), pos, up, |d|)
  }

  lemma BoundsLast(s: Bytes, n: nat, pos: nat, d: seq<Byte>, s2: Bytes, s3: Bytes)
    requires Layout(s, n) && pos <= n && SLOT + |d| <= Upper(s) - Lower(s)
    requires IsWritten(s, n, pos, d, Upper(s) - |d|, s2)
    requires s3 == PutU16(PutU16(s2, UPPER, Upper(s) - |d|), LOWER, Lower(s) + SLOT)
    ensures IsInserted(s, n, pos, d, s3)
  {
    assert Unfold(0);
  }

  method WriteTuple(data: array<Byte>, n: nat, pos: nat, d: seq<Byte>, up: U16)
    requires data.Length == PAGE_SIZE && up + |d| <= PAGE_SIZE && pos <= n && HEADER + SLOT * n + SLOT <= PAGE_SIZE
    modifies data
    ensures IsWritten(old(data[..]), n, pos, d, up, data[..])
  {
    CopyIn(data, up, d);
    MakeRoom(data, pos, n);
    WriteSlot(data, pos, up, |d|);
  }

  // ---- The page object ----

  class Page {
    const data: array<Byte>

    ghost predicate Valid()
      reads this, data
    {
      data.Length == PAGE_SIZE && HEADER <= Lower(data[..]) && PageOk(data[..], Count())
    }

    ghost function Count(): nat
      requires data.Length == PAGE_SIZE && HEADER <= Lower(data[..])
      reads this, data
    {
      (Lower(data[..]) - HEADER) / SLOT
    }

    // The page as a list of optional tuples.
    ghost function List(): seq<Option<seq<Byte>>>
      requires Valid()
      reads this, data
    {
      Tuples(data[..], Count())
    }

    constructor ()
      ensures Valid() && fresh(data) && List() == []
    {
      data := new Byte[PAGE_SIZE](_ => 0);
      new;
      NewIsEmptyList();
      WriteU16(data, LOWER, HEADER);
      WriteU16(data, UPPER, PAGE_SIZE);
      WriteU16(data, SPECIAL, PAGE_SIZE);
      assert data[..] == NewBytes();
    }

    method ReadU16(off: nat) returns (v: U16)
      requires data.Length == PAGE_SIZE && off + 2 <= PAGE_SIZE
      ensures v == U16At(data[..], off)
    {
      v := (data[off] as int) + 256 * (data[off + 1] as int);
    }

    method SlotCount() returns (n: nat)
      requires Valid()
      ensures n == |List()|
    {
      var lower := ReadU16(LOWER);
      n := (lower - HEADER) / SLOT;
    }

    method FreeSpace() returns (f: nat)
      requires Valid()
      ensures f == Upper(data[..]) - Lower(data[..])
    {
      var lower := ReadU16(LOWER);
      var upper := ReadU16(UPPER);
      f := upper - lower;
    }

    method GetTuple(slot: nat) returns (r: Result<seq<Byte>>)
      requires Valid()
      ensures r.Ok? <==> slot < |List()| && List()[slot].Some?
      ensures r.Ok? ==> List()[slot] == Some(r.value)
      ensures r.Err? ==> r.error == SlotOutOfRange(slot)
    {
      var n := SlotCount();
      if slot >= n {
        return Err(SlotOutOfRange(slot));
      }
      assert SlotOk(data[..], slot) && List()[slot] == TupleAt(data[..], slot);
      var offset := ReadU16(HEADER + SLOT * slot);
      var length := ReadU16(HEADER + SLOT * slot + 2);
      if offset == 0 && length == 0 {
        return Err(SlotOutOfRange(slot));
      }
      r := Ok(data[offset..offset + length]);
    }

    method InsertTupleAt(pos: nat, d: seq<Byte>) returns (r: Result<nat>)
      requires Valid()
      modifies data
      ensures Valid()
      ensures
        var free := old(Upper(data[..]) - Lower(data[..]));
        if free < SLOT + |d| then r == Err(InsufficientSpace(SLOT + |d|, free))
        else if pos > |old(List())| then r == Err(SlotOutOfRange(pos))
        else r == Ok(pos)
      ensures r.Ok? ==> List() == old(List())[..pos] + [Some(d)] + old(List())[pos..]
      ensures r.Ok? ==> IsInserted(old(data[..]), |old(List())|, pos, d, data[..])
      ensures r.Err? ==> data[..] == old(data[..])
    {
      var free := FreeSpace();
      if free < SLOT + |d| {
        return Err(InsufficientSpace(SLOT + |d|, free));
      }
      var n := SlotCount();
      if pos > n {
        return Err(SlotOutOfRange(pos));
      }
      ghost var s := data[..];
      var upper := ReadU16(UPPER);
      var lower := ReadU16(LOWER);
      PutTuple(data, n, pos, d, lower, upper);
      InsertedOk(s, n, pos, d, data[..]);
      r := Ok(pos);
    }

    method InsertTuple(d: seq<Byte>) returns (r: Result<nat>)
      requires Valid()
      modifies data
      ensures Valid()
      ensures
        var free := old(Upper(data[..]) - Lower(data[..]));
        if free < SLOT + |d| then r == Err(InsufficientSpace(SLOT + |d|, free))
        else r == Ok(|old(List())|)
      ensures r.Ok? ==> List() == old(List()) + [Some(d)]
      ensures r.Err? ==> data[..] == old(data[..])
    {
      var free := FreeSpace();
      if free < SLOT + |d| {
        return Err(InsufficientSpace(SLOT + |d|, free));
      }
      ghost var s := data[..];
      var upper := ReadU16(UPPER);
      var lower := ReadU16(LOWER);
      var n := SlotCount();
      PutTuple(data, n, n, d, lower, upper);
      InsertedOk(s, n, n, d, data[..]);
      r := Ok(n);
    }

    method DeleteTuple(slot: nat) returns (r: Result<()>)
      requires Valid()
      modifies data
      ensures Valid()
      ensures if slot >= |old(List())| then r == Err(SlotOutOfRange(slot)) && data[..] == old(data[..])
              else r == Ok(()) && List() == old(List())[slot := None]
                   && data[..] == Deleted(old(data[..]), slot, WithFreeLines(U16At(old(data[..]), FLAGS)))
                   && U16At(data[..], FLAGS) % 2 == 1 && U16At(data[..], FLAGS) / 2 == U16At(old(data[..]), FLAGS) / 2
    {
      var n := SlotCount();
      if slot >= n {
        return Err(SlotOutOfRange(slot));
      }
      ghost var s := data[..];
      var flags := ReadU16(FLAGS);
      var flags' := WithFreeLines(flags);
      DeleteIsListClear(s, n, slot, flags');
      WriteU16(data, HEADER + SLOT * slot, 0);
      WriteU16(data, HEADER + SLOT * slot + 2, 0);
      WriteU16(data, FLAGS, flags');
      r := Ok(());
    }

    method ClearTuples()
      requires Valid()
      modifies data
      ensures Valid() && List() == [] && Special(data[..]) == old(Special(data[..])) && Upper(data[..]) == Special(data[..])
      ensures forall k | Special(old(data[..])) <= k < PAGE_SIZE :: data[k] == old(data[k])
    {
      ghost var s := data[..];
      ClearIsEmptyList(s, Count());
      var special := ReadU16(SPECIAL);
      for i := HEADER to special
        invariant forall k | 0 <= k < PAGE_SIZE :: data[k] == if HEADER <= k < i then 0 else s[k]
      {
        data[i] := 0;
      }
      assert data[..] == s[..HEADER] + seq(special - HEADER, _ => 0) + s[special..];
      WriteU16(data, LOWER, HEADER);
      WriteU16(data, UPPER, special);
    }
  }
}
