// The row format of crates/sql/src/spill.rs: a 4-byte count of columns, then each
// value as a tag byte and its bytes, little-endian.
module Spill {
  import JsonValue
  import Jsonb

  type Byte = JsonValue.Byte
  type Bytes = JsonValue.Bytes

  // A float is kept by its 64 bits, a text by its UTF-8 bytes.
  datatype Value = Null | Bool(b: bool) | Int(n: int) | Float(bits: int) | Text(s: Bytes)

  type Row = seq<Value>

  datatype Read<+T> = Done(value: T, rest: Bytes) | Failed

  // ---- Writing ----

  predicate Fits(v: Value) {
    match v
    case Int(n) => JsonValue.MIN_I64 <= n <= JsonValue.MAX_I64
    case Float(bits) => 0 <= bits < Jsonb.TWO_64
    case Text(s) => Jsonb.FitsString(s)
    case _ => true
  }

  predicate FitsRow(row: Row) {
    |row| < Jsonb.MAX_LEN && forall i | 0 <= i < |row| :: Fits(row[i])
  }

  function WriteValue(v: Value): Bytes {
    match v
    case Null => [0]
    case Bool(b) => [1, if b then 1 else 0]
    case Int(n) => [2] + Jsonb.Little(n % Jsonb.TWO_64, 8)
    case Float(bits) => [3] + Jsonb.Little(bits % Jsonb.TWO_64, 8)
    case Text(s) => [4] + (Jsonb.Little(|s|, 4) + s)
  }

  function WriteValues(row: Row): Bytes {
    if row == [] then [] else WriteValue(row[0]) + WriteValues(row[1..])
  }

  function WriteRow(row: Row): Bytes { Jsonb.Little(|row|, 4) + WriteValues(row) }

  function WriteRows(rows: seq<Row>): Bytes {
    if rows == [] then [] else WriteRow(rows[0]) + WriteRows(rows[1..])
  }

  // ---- Reading; `lossy` is what becomes of bytes that are not UTF-8 ----

  type Lossy = Bytes -> Bytes

  function ReadText(r: Bytes, lossy: Lossy): (p: Read<Value>)
    ensures p.Done? ==> |p.rest| <= |r|
  {
    if |r| < 4 then Failed
    else
      var len := Jsonb.FromLittle(r[..4]);
      if 4 + len > |r| then Failed
      else
        var s := r[4..4 + len];
        Done(Text(if Jsonb.ValidUtf8(s) then s else lossy(s)), r[4 + len..])
  }

  function ReadValue(r: Bytes, lossy: Lossy): (p: Read<Value>)
    ensures p.Done? ==> |p.rest| < |r|
  {
    if r == [] then Failed
    else
      var tag, q := r[0], r[1..];
      if tag == 1 then (if q == [] then Failed else Done(Bool(q[0] != 0), q[1..]))
      else if tag == 2 || tag == 3 then
        if |q| < 8 then Failed
        else
          var n := Jsonb.FromLittle(q[..8]);
          Done(if tag == 2 then Int(Jsonb.FromU64(n)) else Float(n), q[8..])
      else if tag == 4 then ReadText(q, lossy)
      else Done(Null, q)
  }

  function ReadValues(n: nat, r: Bytes, lossy: Lossy): (p: Read<Row>)
    ensures p.Done? ==> |p.rest| <= |r|
  {
    if n == 0 then Done([], r)
    else
      match ReadValue(r, lossy)
      case Failed => Failed
      case Done(v, r1) =>
        match ReadValues(n - 1, r1, lossy)
        case Failed => Failed
        case Done(vs, r2) => Done([v] + vs, r2)
  }

  // Reading stops where no count of columns is left.
  function ReadRows(r: Bytes, lossy: Lossy): (p: Read<seq<Row>>)
    decreases |r|
  {
    if |r| < 4 then Done([], r)
    else
      match ReadValues(Jsonb.FromLittle(r[..4]), r[4..], lossy)
      case Failed => Failed
      case Done(row, r1) =>
        match ReadRows(r1, lossy)
        case Failed => Failed
        case Done(rows, r2) => Done([row] + rows, r2)
  }

  // ---- Round trip ----

  predicate Unfold(i: int) { true }

  ghost predicate ReadsValue(r: Bytes, lossy: Lossy, v: Value, z: Bytes) {
    forall i {:trigger Unfold(i)} :: Unfold(i) ==> ReadValue(r, lossy) == Done(v, z)
  }

  ghost predicate ReadsValues(n: nat, r: Bytes, lossy: Lossy, row: Row, z: Bytes) {
    forall i {:trigger Unfold(i)} :: Unfold(i) ==> ReadValues(n, r, lossy) == Done(row, z)
  }

  ghost predicate ReadsRows(r: Bytes, lossy: Lossy, rows: seq<Row>) {
    forall i {:trigger Unfold(i)} :: Unfold(i) ==> ReadRows(r, lossy) == Done(rows, [])
  }

  ghost predicate ReadsText(r: Bytes, lossy: Lossy, s: Bytes, z: Bytes) {
    forall i {:trigger Unfold(i)} :: Unfold(i) ==> ReadText(r, lossy) == Done(Text(s), z)
  }

  lemma TextBack(s: Bytes, z: Bytes, lossy: Lossy)
    requires Jsonb.FitsString(s)
    ensures ReadsText(Jsonb.Little(|s|, 4) + (s + z), lossy, s, z)
  {
    Jsonb.Powers();
    Jsonb.NumberBack(|s|, 4, s + z);
    AfterFour(Jsonb.Little(|s|, 4), s, z);
  }

  lemma AfterFour(count: Bytes, s: Bytes, z: Bytes)
    requires |count| == 4
    ensures var r := count + (s + z); |r| >= 4 + |s| && r[..4] == count && r[4..4 + |s|] == s && r[4 + |s|..] == z
  {
  }

  lemma TagText(q: Bytes, lossy: Lossy, s: Bytes, z: Bytes)
    requires ReadsText(q, lossy, s, z)
    ensures ReadsValue([4] + q, lossy, Text(s), z)
  {
    assert Unfold(0);
    assert ([4] + q)[1..] == q;
  }

  lemma NumberBack(tag: Byte, n: nat, z: Bytes, lossy: Lossy)
    requires n < Jsonb.TWO_64 && (tag == 2 || tag == 3)
    ensures ReadsValue([tag] + Jsonb.Little(n, 8) + z, lossy, if tag == 2 then Int(Jsonb.FromU64(n)) else Float(n), z)
  {
    Jsonb.EightBack(tag, n, z);
  }

  lemma PlainBack(v: Value, z: Bytes, lossy: Lossy)
    requires v.Null? || v.Bool?
    ensures ReadsValue(WriteValue(v) + z, lossy, v, z)
  {
    assert v.Null? ==> (WriteValue(v) + z)[1..] == z;
    assert v.Bool? ==> (WriteValue(v) + z)[1..][1..] == z;
  }

  lemma TextValueBack(s: Bytes, z: Bytes, lossy: Lossy)
    requires Jsonb.FitsString(s)
    ensures ReadsValue([4] + (Jsonb.Little(|s|, 4) + s) + z, lossy, Text(s), z)
  {
    TextBack(s, z, lossy);
    TagText(Jsonb.Little(|s|, 4) + (s + z), lossy, s, z);
    assert [4] + (Jsonb.Little(|s|, 4) + s) + z == [4] + (Jsonb.Little(|s|, 4) + (s + z));
  }

  lemma TwosComplement(n: int)
    requires JsonValue.MIN_I64 <= n <= JsonValue.MAX_I64
    ensures Jsonb.FromU64(n % Jsonb.TWO_64) == n
  {
    assert n % Jsonb.TWO_64 == if n >= 0 then n else n + Jsonb.TWO_64;
  }

  lemma IntBack(n: int, z: Bytes, lossy: Lossy)
    requires Fits(Int(n))
    ensures ReadsValue(WriteValue(Int(n)) + z, lossy, Int(n), z)
  {
    TwosComplement(n);
    NumberBack(2, n % Jsonb.TWO_64, z, lossy);
  }

  lemma FloatBack(bits: int, z: Bytes, lossy: Lossy)
    requires Fits(Float(bits))
    ensures ReadsValue(WriteValue(Float(bits)) + z, lossy, Float(bits), z)
  {
    NumberBack(3, bits, z, lossy);
    assert WriteValue(Float(bits)) == [3] + Jsonb.Little(bits, 8) by {
      assert bits % Jsonb.TWO_64 == bits;
    }
  }

  lemma ValueBack(v: Value, z: Bytes, lossy: Lossy)
    requires Fits(v)
    ensures ReadsValue(WriteValue(v) + z, lossy, v, z)
  {
    if v.Text? {
      TextValueBack(v.s, z, lossy);
    } else if v.Int? {
      IntBack(v.n, z, lossy);
    } else if v.Float? {
      FloatBack(v.bits, z, lossy);
    } else {
      PlainBack(v, z, lossy);
    }
  }

  lemma ValuesCons(n: nat, r: Bytes, v: Value, r1: Bytes, vs: Row, z: Bytes, lossy: Lossy)
    requires n > 0 && ReadsValue(r, lossy, v, r1) && ReadsValues(n - 1, r1, lossy, vs, z)
    ensures ReadsValues(n, r, lossy, [v] + vs, z)
  {
    assert Unfold(0);
  }

  lemma {:induction false} ValuesBack(row: Row, z: Bytes, lossy: Lossy)
    requires forall i | 0 <= i < |row| :: Fits(row[i])
    ensures ReadsValues(|row|, WriteValues(row) + z, lossy, row, z)
  {
    if row == [] {
      assert WriteValues(row) + z == z;
    } else {
      var rest := WriteValues(row[1..]) + z;
      ValuesBack(row[1..], z, lossy);
      ValueBack(row[0], rest, lossy);
      ValuesCons(|row|, WriteValue(row[0]) + rest, row[0], rest, row[1..], z, lossy);
      FirstValue(row, z);
    }
  }

  lemma FirstValue(row: Row, z: Bytes)
    requires row != []
    ensures WriteValues(row) + z == WriteValue(row[0]) + (WriteValues(row[1..]) + z) && row == [row[0]] + row[1..]
  {
    var a, b := WriteValue(row[0]), WriteValues(row[1..]);
    assert a + b + z == a + (b + z);
  }

  lemma RowsCons(n: nat, inner: Bytes, row: Row, r1: Bytes, rows: seq<Row>, lossy: Lossy)
    requires n < Jsonb.MAX_LEN && ReadsValues(n, inner, lossy, row, r1) && ReadsRows(r1, lossy, rows)
    ensures ReadsRows(Jsonb.Little(n, 4) + inner, lossy, [row] + rows)
  {
    Jsonb.Powers();
    Jsonb.NumberBack(n, 4, inner);
    assert Unfold(0);
  }

  lemma RowBack(row: Row, rest: Bytes, rows: seq<Row>, lossy: Lossy)
    requires FitsRow(row) && ReadsRows(rest, lossy, rows)
    ensures ReadsRows(WriteRow(row) + rest, lossy, [row] + rows)
  {
    ValuesBack(row, rest, lossy);
    RowsCons(|row|, WriteValues(row) + rest, row, rest, rows, lossy);
    assert WriteRow(row) + rest == Jsonb.Little(|row|, 4) + (WriteValues(row) + rest);
  }

  lemma {:induction false} RowsBack(rows: seq<Row>, lossy: Lossy)
    requires forall i | 0 <= i < |rows| :: FitsRow(rows[i])
    ensures ReadsRows(WriteRows(rows), lossy, rows)
  {
    if rows != [] {
      RowsBack(rows[1..], lossy);
      RowBack(rows[0], WriteRows(rows[1..]), rows[1..], lossy);
      assert rows == [rows[0]] + rows[1..];
    }
  }

  // A spilled file reads back as the rows written, in order.
  lemma ReadOfWrite(rows: seq<Row>, lossy: Lossy)
    requires forall i | 0 <= i < |rows| :: FitsRow(rows[i])
    ensures ReadRows(WriteRows(rows), lossy) == Done(rows, [])
  {
    RowsBack(rows, lossy);
    assert Unfold(0);
  }

  // NULL, true, 258 and the text `b` in one row.
  lemma LayoutExample()
    ensures WriteRow([Null, Bool(true), Int(258), Text([98])])
      == [4, 0, 0, 0] + ([0] + ([1, 1] + ([2, 2, 1, 0, 0, 0, 0, 0, 0] + [4, 1, 0, 0, 0, 98])))
  {
    var row := [Null, Bool(true), Int(258), Text([98])];
    Jsonb.FourBytes(4);
    Jsonb.FourBytes(1);
    Jsonb.EightBytes(258);
    assert row[1..][1..] == [Int(258), Text([98])] && row[1..][1..][1..] == [Text([98])] && [Text([98])][1..] == [];
    assert WriteValues([Text([98])]) == [4, 1, 0, 0, 0, 98];
    assert 258 % Jsonb.TWO_64 == 258;
    assert WriteValue(Int(258)) == [2, 2, 1, 0, 0, 0, 0, 0, 0];
    assert WriteValues(row[1..][1..]) == [2, 2, 1, 0, 0, 0, 0, 0, 0] + [4, 1, 0, 0, 0, 98];
    assert WriteValues(row) == [0] + ([1, 1] + WriteValues(row[1..][1..]));
  }

  // ---- Truncated files ----

  ghost predicate FailsValue(r: Bytes, lossy: Lossy) {
    forall i {:trigger Unfold(i)} :: Unfold(i) ==> ReadValue(r, lossy).Failed?
  }

  ghost predicate FailsValues(n: nat, r: Bytes, lossy: Lossy) {
    forall i {:trigger Unfold(i)} :: Unfold(i) ==> ReadValues(n, r, lossy).Failed?
  }

  lemma TextCut(s: Bytes, q: Bytes, lossy: Lossy)
    requires Jsonb.FitsString(s) && |q| < 4 + |s| && q <= Jsonb.Little(|s|, 4) + s
    ensures ReadText(q, lossy).Failed?
  {
    if |q| >= 4 {
      Jsonb.Powers();
      Jsonb.LittleBack(|s|, 4);
      assert q[..4] == (Jsonb.Little(|s|, 4) + s)[..4] == Jsonb.Little(|s|, 4);
    }
  }

  // A value cut short cannot be read.
  lemma ValueCut(v: Value, p: Bytes, lossy: Lossy)
    requires Fits(v) && p <= WriteValue(v) && |p| < |WriteValue(v)|
    ensures FailsValue(p, lossy)
  {
    if p != [] && v.Text? {
      var q := Jsonb.Little(|v.s|, 4) + v.s;
      assert p[1..] <= q by { assert WriteValue(v)[1..] == q; }
      TextCut(v.s, p[1..], lossy);
    }
  }

  lemma CutWhere(first: Bytes, more: Bytes, p: Bytes)
    requires p <= first + more
    ensures if |p| < |first| then p <= first else p == first + p[|first|..] && p[|first|..] <= more
  {
    assert p == (first + more)[..|p|];
  }

  lemma {:induction false} ValuesCut(row: Row, p: Bytes, lossy: Lossy)
    requires (forall i | 0 <= i < |row| :: Fits(row[i])) && p <= WriteValues(row) && |p| < |WriteValues(row)|
    ensures FailsValues(|row|, p, lossy)
  {
    var first, more := WriteValue(row[0]), WriteValues(row[1..]);
    CutWhere(first, more, p);
    if |p| < |first| {
      ValueCut(row[0], p, lossy);
      FirstFails(|row|, p, lossy);
    } else {
      var q := p[|first|..];
      ValuesCut(row[1..], q, lossy);
      ValueBack(row[0], q, lossy);
      RestFails(|row|, p, row[0], q, lossy);
    }
  }

  lemma FirstFails(n: nat, p: Bytes, lossy: Lossy)
    requires n > 0 && FailsValue(p, lossy)
    ensures FailsValues(n, p, lossy)
  {
    assert Unfold(0);
  }

  lemma RestFails(n: nat, p: Bytes, v: Value, q: Bytes, lossy: Lossy)
    requires n > 0 && ReadsValue(p, lossy, v, q) && FailsValues(n - 1, q, lossy)
    ensures FailsValues(n, p, lossy)
  {
    assert Unfold(0);
  }

  lemma RowCut(row: Row, p: Bytes, lossy: Lossy)
    requires FitsRow(row) && p <= WriteRow(row) && 4 <= |p| < |WriteRow(row)|
    ensures ReadRows(p, lossy).Failed?
  {
    var q := p[4..];
    assert q <= WriteValues(row) by { assert WriteRow(row)[4..] == WriteValues(row); }
    ValuesCut(row, q, lossy);
    Jsonb.Powers();
    Jsonb.LittleBack(|row|, 4);
    assert p[..4] == WriteRow(row)[..4] == Jsonb.Little(|row|, 4);
    assert Unfold(0);
  }

  // The reader's end of a file: rows and what is left, or a failure.
  ghost predicate ReadsTo(r: Bytes, lossy: Lossy, p: Read<seq<Row>>) {
    forall i {:trigger Unfold(i)} :: Unfold(i) ==> ReadRows(r, lossy) == p
  }

  lemma RowThen(row: Row, rest: Bytes, p: Read<seq<Row>>, lossy: Lossy)
    requires FitsRow(row) && ReadsTo(rest, lossy, p)
    ensures ReadsTo(WriteRow(row) + rest, lossy, RowsSoFar([row], p))
  {
    ValuesBack(row, rest, lossy);
    Jsonb.Powers();
    Jsonb.NumberBack(|row|, 4, WriteValues(row) + rest);
    assert WriteRow(row) + rest == Jsonb.Little(|row|, 4) + (WriteValues(row) + rest);
    assert Unfold(0);
  }

  lemma CutReads(row: Row, p: Bytes, lossy: Lossy)
    requires FitsRow(row) && p <= WriteRow(row) && |p| < |WriteRow(row)|
    ensures ReadsTo(p, lossy, if |p| < 4 then Done([], p) else Failed)
  {
    if |p| >= 4 {
      RowCut(row, p, lossy);
    }
  }

  lemma {:induction false} TruncatedReads(rows: seq<Row>, row: Row, p: Bytes, lossy: Lossy)
    requires (forall i | 0 <= i < |rows| :: FitsRow(rows[i])) && FitsRow(row) && p <= WriteRow(row) && |p| < |WriteRow(row)|
    ensures ReadsTo(WriteRows(rows) + p, lossy, if |p| < 4 then Done(rows, p) else Failed)
  {
    if rows == [] {
      assert WriteRows(rows) + p == p;
      CutReads(row, p, lossy);
    } else {
      var rest := WriteRows(rows[1..]) + p;
      TruncatedReads(rows[1..], row, p, lossy);
      RowThen(rows[0], rest, if |p| < 4 then Done(rows[1..], p) else Failed, lossy);
      FirstRow(rows, p);
    }
  }

  lemma FirstRow(rows: seq<Row>, p: Bytes)
    requires rows != []
    ensures WriteRows(rows) + p == WriteRow(rows[0]) + (WriteRows(rows[1..]) + p) && rows == [rows[0]] + rows[1..]
  {
    var a, b := WriteRow(rows[0]), WriteRows(rows[1..]);
    assert a + b + p == a + (b + p);
  }

  // A file whose last row is cut short: the reader fails, unless the cut leaves less than
  // a count of columns; then it returns the rows before as if the file were whole.
  lemma TruncatedIff(rows: seq<Row>, row: Row, p: Bytes, lossy: Lossy)
    requires (forall i | 0 <= i < |rows| :: FitsRow(rows[i])) && FitsRow(row) && p <= WriteRow(row) && |p| < |WriteRow(row)|
    ensures ReadRows(WriteRows(rows) + p, lossy) == if |p| < 4 then Done(rows, p) else Failed
  {
    TruncatedReads(rows, row, p, lossy);
    assert Unfold(0);
  }

  // ---- The loops ----

  lemma {:induction false} WriteRowsSnoc(rows: seq<Row>, row: Row)
    ensures WriteRows(rows + [row]) == WriteRows(rows) + WriteRow(row)
  {
    if rows == [] {
      assert rows + [row] == [row];
      assert WriteRows([row]) == WriteRow(row) + WriteRows([]);
    } else {
      WriteRowsSnoc(rows[1..], row);
      assert (rows + [row])[1..] == rows[1..] + [row] && (rows + [row])[0] == rows[0];
      var a, b, c := WriteRow(rows[0]), WriteRows(rows[1..]), WriteRow(row);
      assert a + (b + c) == a + b + c;
    }
  }

  // `write_row` appends to a file.
  method AppendRow(file: Bytes, row: Row) returns (out: Bytes)
    ensures out == file + WriteRow(row)
  {
    out := file + Jsonb.Little(|row|, 4);
    for i := 0 to |row|
      invariant out + WriteValues(row[i..]) == file + WriteRow(row)
    {
      ghost var before := out;
      assert row[i..][0] == row[i] && row[i..][1..] == row[i + 1..];
      out := out + WriteValue(row[i]);
      assert before + (WriteValue(row[i]) + WriteValues(row[i + 1..])) == out + WriteValues(row[i + 1..]);
    }
    assert out + [] == out;
  }

  function ValuesSoFar(vs: Row, p: Read<Row>): Read<Row> {
    match p
    case Done(more, rest) => Done(vs + more, rest)
    case Failed => Failed
  }

  lemma ValuesTwice(vs: Row, v: Value, p: Read<Row>)
    ensures ValuesSoFar([], p) == p && ValuesSoFar(vs, ValuesSoFar([v], p)) == ValuesSoFar(vs + [v], p)
  {
    assert p.Done? ==> [] + p.value == p.value && vs + ([v] + p.value) == vs + [v] + p.value;
  }

  // The values of one row.
  method ReadColumns(n: nat, r: Bytes, lossy: Lossy) returns (p: Read<Row>)
    ensures p == ReadValues(n, r, lossy)
  {
    var row: Row, rest := [], r;
    ValuesTwice([], Null, ReadValues(n, r, lossy));
    for i := 0 to n
      invariant ValuesSoFar(row, ReadValues(n - i, rest, lossy)) == ReadValues(n, r, lossy)
    {
      var v := ReadValue(rest, lossy);
      if v.Failed? {
        return Failed;
      }
      ValuesTwice(row, v.value, ReadValues(n - i - 1, v.rest, lossy));
      row, rest := row + [v.value], v.rest;
    }
    assert row + [] == row;
    p := Done(row, rest);
  }

  function RowsSoFar(rows: seq<Row>, p: Read<seq<Row>>): Read<seq<Row>> {
    match p
    case Done(more, rest) => Done(rows + more, rest)
    case Failed => Failed
  }

  lemma RowsTwice(rows: seq<Row>, row: Row, p: Read<seq<Row>>)
    ensures RowsSoFar([], p) == p && RowsSoFar(rows, RowsSoFar([row], p)) == RowsSoFar(rows + [row], p)
  {
    assert p.Done? ==> [] + p.value == p.value && rows + ([row] + p.value) == rows + [row] + p.value;
  }

  // `into_rows` reads to the end of the file.
  method ReadAll(file: Bytes, lossy: Lossy) returns (p: Read<seq<Row>>)
    ensures p == ReadRows(file, lossy)
  {
    var rows: seq<Row>, rest := [], file;
    RowsTwice([], [], ReadRows(file, lossy));
    while |rest| >= 4
      invariant RowsSoFar(rows, ReadRows(rest, lossy)) == ReadRows(file, lossy)
      decreases |rest|
    {
      var row := ReadColumns(Jsonb.FromLittle(rest[..4]), rest[4..], lossy);
      if row.Failed? {
        return Failed;
      }
      RowsTwice(rows, row.value, ReadRows(row.rest, lossy));
      rows, rest := rows + [row.value], row.rest;
    }
    assert rows + [] == rows;
    p := Done(rows, rest);
  }
}
