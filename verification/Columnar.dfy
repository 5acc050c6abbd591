// Run-length columns and zone maps of crates/storage/src/columnar.rs, with the
// orderings of column values and of SQL values (crates/sql/src/value.rs). A
// float is any real number, a text its bytes.
module Columnar {
  datatype Option<+T> = None | Some(value: T)

  datatype Value = Null | Int(n: int) | Float(f: real) | Text(s: seq<nat>) | Bool(b: bool)

  datatype Ordering = Less | Equal | Greater

  // ---- Comparing values ----

  function OrderInt(a: int, b: int): Ordering { if a < b then Less else if a == b then Equal else Greater }

  function OrderReal(a: real, b: real): Ordering { if a < b then Less else if a == b then Equal else Greater }

  function OrderText(a: seq<nat>, b: seq<nat>): Ordering {
    if a == [] then (if b == [] then Equal else Less)
    else if b == [] then Greater
    else if a[0] != b[0] then OrderInt(a[0], b[0])
    else OrderText(a[1..], b[1..])
  }

  function OrderBool(a: bool, b: bool): Ordering { if a == b then Equal else if b then Less else Greater }

  // The order of stored values: NULL below everything, kinds not mixed.
  function Compare(a: Value, b: Value): Option<Ordering> {
    match (a, b)
    case (Int(x), Int(y)) => Some(OrderInt(x, y))
    case (Float(x), Float(y)) => Some(OrderReal(x, y))
    case (Text(x), Text(y)) => Some(OrderText(x, y))
    case (Bool(x), Bool(y)) => Some(OrderBool(x, y))
    case (Null, Null) => Some(Equal)
    case (Null, _) => Some(Less)
    case (_, Null) => Some(Greater)
    case _ => None
  }

  // The order of SQL: NULL only beside NULL, integers beside floats.
  function SqlCompare(a: Value, b: Value): Option<Ordering> {
    match (a, b)
    case (Null, Null) => Some(Equal)
    case (Null, _) => None
    case (_, Null) => None
    case (Int(x), Int(y)) => Some(OrderInt(x, y))
    case (Float(x), Float(y)) => Some(OrderReal(x, y))
    case (Int(x), Float(y)) => Some(OrderReal(x as real, y))
    case (Float(x), Int(y)) => Some(OrderReal(x, y as real))
    case (Text(x), Text(y)) => Some(OrderText(x, y))
    case (Bool(x), Bool(y)) => Some(OrderBool(x, y))
    case _ => None
  }

  function Kind(v: Value): (k: nat)
    ensures k == 0 <==> v.Null?
  {
    match v
    case Null => 0
    case Int(_) => 1
    case Float(_) => 2
    case Text(_) => 3
    case Bool(_) => 4
  }

  predicate SameKind(a: Value, b: Value) { Kind(a) == Kind(b) }

  predicate Leq(a: Value, b: Value) { Compare(a, b) == Some(Less) || Compare(a, b) == Some(Equal) }

  lemma {:induction false} TextOrder(a: seq<nat>, b: seq<nat>, c: seq<nat>)
    ensures OrderText(a, b).Equal? <==> a == b
    ensures OrderText(a, b).Less? <==> OrderText(b, a).Greater?
    ensures !OrderText(a, b).Greater? && !OrderText(b, c).Greater? ==>
      !OrderText(a, c).Greater? && (OrderText(a, c).Equal? ==> OrderText(a, b).Equal? && OrderText(b, c).Equal?)
    decreases |a|
  {
    if a != [] && b != [] {
      TextOrder(a[1..], b[1..], if c == [] then [] else c[1..]);
      assert a == [a[0]] + a[1..] && b == [b[0]] + b[1..];
    }
  }

  // Within one kind the order is total and transitive, and SQL's is the same.
  lemma OneOrder(a: Value, b: Value, c: Value)
    requires SameKind(a, b) && SameKind(b, c)
    ensures Compare(a, b).Some? && SqlCompare(a, b) == Compare(a, b)
    ensures Compare(a, b) == Some(Equal) <==> a == b
    ensures Compare(a, b) == Some(Less) <==> Compare(b, a) == Some(Greater)
    ensures Compare(a, b) == Some(Less) <==> !Leq(b, a)
    ensures Compare(a, b) == Some(Greater) <==> !Leq(a, b)
    ensures Leq(a, b) && Leq(b, c) ==> Leq(a, c)
    ensures Leq(a, b) && Leq(b, c) && a == c ==> a == b
  {
    if a.Text? {
      TextOrder(a.s, b.s, c.s);
      TextOrder(b.s, a.s, c.s);
      TextOrder(a.s, c.s, b.s);
    }
  }

  // ---- Run-length columns ----

  datatype Run = Run(value: Value, count: nat)
  type Runs = seq<Run>

  function Repeat(v: Value, n: nat): (s: seq<Value>)
    ensures |s| == n && forall i | 0 <= i < n :: s[i] == v
  {
    seq(n, _ => v)
  }

  function Values(runs: Runs): seq<Value> {
    if runs == [] then [] else Repeat(runs[0].value, runs[0].count) + Values(runs[1..])
  }

  lemma {:induction false} ValuesAppend(a: Runs, b: Runs)
    ensures Values(a + b) == Values(a) + Values(b)
  {
    if a == [] {
      assert a + b == b;
    } else {
      ValuesAppend(a[1..], b);
      assert (a + b)[1..] == a[1..] + b;
      var first, mid, last := Repeat(a[0].value, a[0].count), Values(a[1..]), Values(b);
      assert first + (mid + last) == first + mid + last;
    }
  }

  lemma ValuesLast(runs: Runs, last: Run)
    ensures Values(runs + [last]) == Values(runs) + Repeat(last.value, last.count)
  {
    ValuesAppend(runs, [last]);
    assert Values([last]) == Repeat(last.value, last.count);
  }

  // Neighbouring runs differ, and none is empty.
  predicate Compact(runs: Runs) {
    && (forall i | 0 <= i < |runs| :: runs[i].count > 0)
    && (forall i, j | 0 <= i < |runs| && j == i + 1 < |runs| :: runs[i].value != runs[j].value)
  }

  method Push(runs: Runs, v: Value) returns (out: Runs)
    ensures Values(out) == Values(runs) + [v]
    ensures Compact(runs) ==> Compact(out)
  {
    if runs != [] {
      var init, last := runs[..|runs| - 1], runs[|runs| - 1];
      assert runs == init + [last];
      if last.value == v {
        ValuesLast(init, last);
        ValuesLast(init, Run(v, last.count + 1));
        assert Repeat(v, last.count + 1) == Repeat(v, last.count) + [v];
        return init + [Run(v, last.count + 1)];
      }
    }
    ValuesLast(runs, Run(v, 1));
    out := runs + [Run(v, 1)];
  }

  method Materialize(runs: Runs) returns (out: seq<Value>)
    ensures out == Values(runs)
  {
    out := [];
    for i := 0 to |runs|
      invariant out == Values(runs[..i])
    {
      ValuesLast(runs[..i], runs[i]);
      assert runs[..i + 1] == runs[..i] + [runs[i]];
      for k := 0 to runs[i].count
        invariant out == Values(runs[..i]) + Repeat(runs[i].value, k)
      {
        out := out + [runs[i].value];
      }
    }
    assert runs[..|runs|] == runs;
  }

  method Get(runs: Runs, row: nat) returns (v: Option<Value>)
    ensures v == if row < |Values(runs)| then Some(Values(runs)[row]) else None
  {
    var remaining := row;
    for i := 0 to |runs|
      invariant 0 <= remaining <= row && row - remaining + |Values(runs[i..])| == |Values(runs)|
      invariant Values(runs)[row - remaining..] == Values(runs[i..])
    {
      assert runs[i..][1..] == runs[i + 1..];
      assert Values(runs[i..]) == Repeat(runs[i].value, runs[i].count) + Values(runs[i + 1..]);
      if remaining < runs[i].count {
        assert Values(runs)[row] == Values(runs)[row - remaining..][remaining];
        return Some(runs[i].value);
      }
      ghost var before := Values(runs[i..]);
      assert before[runs[i].count..] == Values(runs[i + 1..]);
      remaining := remaining - runs[i].count;
    }
    v := None;
  }

  // ---- Zone maps ----

  const ZONE_SIZE := 1000

  datatype ZoneMap = ZoneMap(min: Value, max: Value)

  // `min` and `max` bound every value of their kind; without a value both are NULL.
  ghost predicate ZoneOk(zm: ZoneMap, vals: seq<Value>) {
    && SameKind(zm.min, zm.max)
    && (zm.min.Null? <==> forall i | 0 <= i < |vals| :: vals[i].Null?)
    && (forall i | 0 <= i < |vals| && SameKind(vals[i], zm.min) :: Leq(zm.min, vals[i]) && Leq(vals[i], zm.max))
    && (zm.min.Null? || (zm.min in vals && zm.max in vals))
  }

  method ZoneOf(vals: seq<Value>) returns (zm: ZoneMap)
    ensures ZoneOk(zm, vals)
  {
    zm := ZoneMap(Null, Null);
    for i := 0 to |vals|
      invariant ZoneOk(zm, vals[..i])
    {
      ghost var before := zm;
      if !vals[i].Null? {
        if zm.min.Null? || Compare(vals[i], zm.min) == Some(Less) {
          zm := zm.(min := vals[i]);
        }
        if zm.max.Null? || Compare(vals[i], zm.max) == Some(Greater) {
          zm := zm.(max := vals[i]);
        }
      }
      ZoneStep(before, zm, vals[..i], vals[i]);
      assert vals[..i + 1] == vals[..i] + [vals[i]];
    }
    assert vals[..|vals|] == vals;
  }

  ghost function Widened(zm: ZoneMap, v: Value): ZoneMap {
    if v.Null? then zm
    else ZoneMap(
        if zm.min.Null? || Compare(v, zm.min) == Some(Less) then v else zm.min,
        if zm.max.Null? || Compare(v, zm.max) == Some(Greater) then v else zm.max)
  }

  lemma WidenKeeps(zm: ZoneMap, v: Value, x: Value)
    requires SameKind(zm.min, zm.max) && !zm.min.Null? && SameKind(x, zm.min) && Leq(zm.min, x) && Leq(x, zm.max)
    ensures SameKind(Widened(zm, v).min, zm.min) && SameKind(Widened(zm, v).max, zm.min)
    ensures Leq(Widened(zm, v).min, x) && Leq(x, Widened(zm, v).max)
  {
    if SameKind(v, zm.min) {
      OneOrder(v, zm.min, x);
      OneOrder(x, zm.max, v);
      OneOrder(zm.max, v, x);
    }
  }

  lemma WidenCovers(zm: ZoneMap, v: Value)
    requires SameKind(zm.min, zm.max) && SameKind(v, Widened(zm, v).min) && !v.Null?
    ensures SameKind(Widened(zm, v).max, v)
    ensures Leq(Widened(zm, v).min, v) && Leq(v, Widened(zm, v).max)
  {
    OneOrder(v, v, v);
    assert Leq(v, v);
    if zm.min.Null? {
      assert Widened(zm, v) == ZoneMap(v, v);
    } else {
      assert SameKind(v, zm.min);
      OneOrder(v, zm.min, v);
      OneOrder(v, zm.max, v);
      OneOrder(zm.min, v, v);
      OneOrder(zm.max, v, v);
    }
  }

  lemma ZoneStep(zm: ZoneMap, wide: ZoneMap, vals: seq<Value>, v: Value)
    requires ZoneOk(zm, vals) && wide == Widened(zm, v)
    ensures ZoneOk(wide, vals + [v])
  {
    var more := vals + [v];
    forall i | 0 <= i < |more| && SameKind(more[i], wide.min)
      ensures Leq(wide.min, more[i]) && Leq(more[i], wide.max)
    {
      if i == |vals| {
        if !v.Null? {
          WidenCovers(zm, v);
        }
      } else if !zm.min.Null? {
        assert more[i] == vals[i];
        WidenKind(zm, v);
        WidenKeeps(zm, v, vals[i]);
      } else {
        assert more[i] == vals[i];
      }
    }
    WidenKind(zm, v);
    assert more[|vals|] == v;
    if !zm.min.Null? {
      var k :| 0 <= k < |vals| && vals[k] == zm.min;
      var l :| 0 <= l < |vals| && vals[l] == zm.max;
      assert more[k] == zm.min && more[l] == zm.max;
    }
  }

  lemma WidenKind(zm: ZoneMap, v: Value)
    requires SameKind(zm.min, zm.max)
    ensures SameKind(Widened(zm, v).min, Widened(zm, v).max)
    ensures !zm.min.Null? ==> SameKind(Widened(zm, v).min, zm.min)
    ensures zm.min.Null? ==> Widened(zm, v).min == v && (v.Null? ==> Widened(zm, v) == zm)
  {
  }

  function ZoneCount(rows: nat): nat { (rows + ZONE_SIZE - 1) / ZONE_SIZE }

  // The part of a column in zone `z`.
  function ZoneRows<T>(column: seq<T>, z: nat): seq<T> {
    var start, end := z * ZONE_SIZE, (z + 1) * ZONE_SIZE;
    if start >= |column| then [] else if end < |column| then column[start..end] else column[start..]
  }

  ghost predicate ZoneAt(zones: seq<ZoneMap>, column: seq<Value>, z: nat) {
    z < |zones| ==> ZoneOk(zones[z], ZoneRows(column, z))
  }

  ghost predicate ZonesOk(zones: seq<ZoneMap>, column: seq<Value>) {
    |zones| == ZoneCount(|column|) && forall z: nat :: ZoneAt(zones, column, z)
  }

  method ZonesOf(column: seq<Value>) returns (zones: seq<ZoneMap>)
    ensures ZonesOk(zones, column)
  {
    zones := [];
    var offset := 0;
    while offset < |column|
      invariant offset == |zones| * ZONE_SIZE && (zones == [] || offset - ZONE_SIZE < |column|)
      invariant forall z: nat :: ZoneAt(zones, column, z)
    {
      var end := if offset + ZONE_SIZE < |column| then offset + ZONE_SIZE else |column|;
      assert column[offset..end] == ZoneRows(column, |zones|);
      var zm := ZoneOf(column[offset..end]);
      OneZoneMore(zones, zm, column);
      zones := zones + [zm];
      offset := offset + ZONE_SIZE;
    }
  }

  lemma OneZoneMore(zones: seq<ZoneMap>, zm: ZoneMap, column: seq<Value>)
    requires (forall z: nat :: ZoneAt(zones, column, z)) && ZoneOk(zm, ZoneRows(column, |zones|))
    ensures forall z: nat :: ZoneAt(zones + [zm], column, z)
  {
    forall z: nat ensures ZoneAt(zones + [zm], column, z) {
      assert ZoneAt(zones, column, z);
    }
  }

  // ---- The store ----

  // The values of column `c` in a batch of rows.
  function Cells(rows: seq<seq<Value>>, c: nat): (cells: seq<Value>)
    requires forall r | 0 <= r < |rows| :: c < |rows[r]|
    ensures |cells| == |rows|
  {
    seq(|rows|, r requires 0 <= r < |rows| => rows[r][c])
  }

  class ColumnarStore {
    var columns: seq<Runs>
    var zoneMaps: seq<seq<ZoneMap>>
    var rowCount: nat
    // The rows there were when the zone maps were last built.
    ghost var covered: nat

    ghost predicate Valid()
      reads this
    {
      && |zoneMaps| == |columns| && covered <= rowCount && (columns == [] ==> rowCount == 0)
      && (forall c | 0 <= c < |columns| :: |Values(columns[c])| == rowCount)
      && (forall c | 0 <= c < |columns| :: ZonesOk(zoneMaps[c], Values(columns[c])[..covered]))
    }

    // The maps cover all rows up to the last multiple of the zone size.
    ghost predicate Aligned()
      reads this
    {
      covered == rowCount - rowCount % ZONE_SIZE
    }

    constructor ()
      ensures Valid() && Aligned() && columns == [] && rowCount == 0
    {
      columns, zoneMaps, rowCount, covered := [], [], 0, 0;
    }

    method BuildZoneMaps()
      requires Valid()
      modifies this`zoneMaps, this`covered
      ensures Valid() && covered == rowCount
    {
      for c := 0 to |columns|
        invariant |zoneMaps| == |columns|
        invariant forall k | 0 <= k < c :: ZonesOk(zoneMaps[k], Values(columns[k]))
      {
        var values := Materialize(columns[c]);
        var zones := ZonesOf(values);
        zoneMaps := zoneMaps[c := zones];
      }
      covered := rowCount;
      forall c | 0 <= c < |columns|
        ensures ZonesOk(zoneMaps[c], Values(columns[c])[..covered])
      {
        assert Values(columns[c])[..covered] == Values(columns[c]);
      }
    }

    // The maps are rebuilt whenever a zone fills up.
    method AddRow(row: seq<Value>)
      requires Valid() && |row| >= |columns| > 0
      modifies this
      ensures Valid() && rowCount == old(rowCount) + 1 && Added(old(columns), columns, row)
      ensures old(Aligned()) ==> Aligned()
    {
      ghost var before := columns;
      columns := PushEach(columns, row);
      rowCount := rowCount + 1;
      AddedOk(before, columns, row, zoneMaps, covered);
      if rowCount % ZONE_SIZE == 0 {
        BuildZoneMaps();
      }
    }

    // Append rows, each with a value for every column; values beyond are ignored.
    method InsertRows(width: nat, rows: seq<seq<Value>>)
      requires Valid() && width > 0
      requires forall r | 0 <= r < |rows| :: |rows[r]| >= if columns == [] then width else |columns|
      modifies this
      ensures Valid() && rowCount == old(rowCount) + |rows|
      ensures |columns| == if old(columns) == [] then width else |old(columns)|
      ensures forall r | 0 <= r < |rows| :: |rows[r]| >= |columns|
      ensures forall c | 0 <= c < |columns| ::
        Values(columns[c]) == (if c < |old(columns)| then Values(old(columns)[c]) else []) + Cells(rows, c)
      ensures old(Aligned()) ==> Aligned()
    {
      if columns == [] {
        columns, zoneMaps := seq(width, _ => []), seq(width, _ => []);
        covered := 0;
      }
      ghost var start := columns;
      for r := 0 to |rows|
        invariant Valid() && |columns| == |start| && rowCount == old(rowCount) + r
        invariant forall c | 0 <= c < |columns| :: HasCells(start[c], columns[c], rows, c, r)
        invariant old(Aligned()) ==> Aligned()
      {
        ghost var before := columns;
        AddRow(rows[r]);
        forall c | 0 <= c < |columns|
          ensures HasCells(start[c], columns[c], rows, c, r + 1)
        {
          assert HasCells(start[c], before[c], rows, c, r);
          NextCell(start[c], before[c], columns[c], rows, c, r);
        }
      }
      forall c | 0 <= c < |columns|
        ensures Values(columns[c]) == Values(start[c]) + Cells(rows, c)
      {
        assert HasCells(start[c], columns[c], rows, c, |rows|);
        assert Cells(rows, c)[..|rows|] == Cells(rows, c);
      }
    }
  }

  ghost predicate Added(before: seq<Runs>, after: seq<Runs>, row: seq<Value>) {
    |before| == |after| <= |row| && forall c | 0 <= c < |before| :: Values(after[c]) == Values(before[c]) + [row[c]]
  }

  method PushEach(columns: seq<Runs>, row: seq<Value>) returns (out: seq<Runs>)
    requires |row| >= |columns|
    ensures Added(columns, out, row)
  {
    out := [];
    for c := 0 to |columns|
      invariant |out| == c
      invariant forall k | 0 <= k < c :: Values(out[k]) == Values(columns[k]) + [row[k]]
    {
      var runs := Push(columns[c], row[c]);
      out := out + [runs];
    }
  }

  lemma AddedOk(before: seq<Runs>, after: seq<Runs>, row: seq<Value>, zoneMaps: seq<seq<ZoneMap>>, covered: nat)
    requires Added(before, after, row) && |zoneMaps| == |before|
    requires forall c | 0 <= c < |before| :: covered <= |Values(before[c])|
    requires forall c | 0 <= c < |before| :: ZonesOk(zoneMaps[c], Values(before[c])[..covered])
    ensures forall c | 0 <= c < |after| :: |Values(after[c])| == |Values(before[c])| + 1
    ensures forall c | 0 <= c < |after| :: ZonesOk(zoneMaps[c], Values(after[c])[..covered])
  {
    forall c | 0 <= c < |after|
      ensures ZonesOk(zoneMaps[c], Values(after[c])[..covered])
    {
      assert Values(after[c])[..covered] == Values(before[c])[..covered];
    }
  }

  ghost predicate HasCells(before: Runs, after: Runs, rows: seq<seq<Value>>, c: nat, r: nat) {
    && r <= |rows| && (forall i | 0 <= i < |rows| :: c < |rows[i]|)
    && Values(after) == Values(before) + Cells(rows, c)[..r]
  }

  lemma NextCell(start: Runs, before: Runs, after: Runs, rows: seq<seq<Value>>, c: nat, r: nat)
    requires HasCells(start, before, rows, c, r) && r < |rows|
    requires Values(after) == Values(before) + [rows[r][c]]
    ensures HasCells(start, after, rows, c, r + 1)
  {
    assert Cells(rows, c)[..r + 1] == Cells(rows, c)[..r] + [rows[r][c]];
  }
}
