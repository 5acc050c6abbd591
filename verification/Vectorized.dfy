// Filtering a columnar store through its zone maps, crates/sql/src/vectorized.rs.
module Vectorized {
  import opened Columnar

  datatype Op = Eq | NotEq | Lt | Gt | LtEq | GtEq | OtherOp

  // A WHERE clause: a column beside a literal, either way round, or anything else.
  // The column is given by its place in the schema.
  datatype Where =
    | ColumnFirst(col: nat, op: Op, lit: Value)
    | LiteralFirst(lit: Value, op: Op, col: nat)
    | Complex

  // ---- What a row must meet ----

  predicate CmpOp(op: Op, a: Value, b: Value) {
    match op
    case Eq => a == b
    case NotEq => a != b
    case Lt => SqlCompare(a, b) == Some(Less)
    case Gt => SqlCompare(a, b) == Some(Greater)
    case LtEq => SqlCompare(a, b) == Some(Less) || SqlCompare(a, b) == Some(Equal)
    case GtEq => SqlCompare(a, b) == Some(Greater) || SqlCompare(a, b) == Some(Equal)
    case OtherOp => true
  }

  function Flip(op: Op): Op {
    match op
    case Lt => Gt
    case Gt => Lt
    case LtEq => GtEq
    case GtEq => LtEq
    case _ => op
  }

  // Turning the operator round means turning the operands round.
  lemma FlipTurns(op: Op, a: Value, b: Value)
    ensures CmpOp(Flip(op), a, b) == CmpOp(op, b, a)
  {
    if a.Text? && b.Text? {
      TextOrder(a.s, b.s, []);
      TextOrder(b.s, a.s, []);
    }
  }

  // What SQL means by less: numbers by size, a text by its first difference, a prefix
  // before what it begins, false before true.
  ghost predicate Below(a: Value, b: Value) {
    || (Numeric(a) && Numeric(b) && Number(a) < Number(b))
    || (a.Text? && b.Text? && exists p: nat :: FirstDiffers(a.s, b.s, p))
    || (a == Bool(false) && b == Bool(true))
  }

  predicate Numeric(v: Value) { v.Int? || v.Float? }

  function Number(v: Value): real
    requires Numeric(v)
  {
    if v.Int? then v.n as real else v.f
  }

  // The texts agree on their first `p` characters, and there `a` ends or is smaller.
  ghost predicate FirstDiffers(a: seq<nat>, b: seq<nat>, p: nat) {
    p <= |a| && p < |b| && a[..p] == b[..p] && (p < |a| ==> a[p] < b[p])
  }

  predicate Comparable(a: Value, b: Value) { SameKind(a, b) || (Numeric(a) && Numeric(b)) }

  ghost predicate Means(op: Op, a: Value, b: Value) {
    match op
    case Eq => a == b
    case NotEq => a != b
    case Lt => Below(a, b)
    case Gt => Below(b, a)
    case LtEq => Comparable(a, b) && !Below(b, a)
    case GtEq => Comparable(a, b) && !Below(a, b)
    case OtherOp => true
  }

  lemma {:induction false} TextBelow(a: seq<nat>, b: seq<nat>)
    ensures OrderText(a, b).Less? <==> exists p: nat :: FirstDiffers(a, b, p)
  {
    if a == [] || b == [] {
      assert b != [] ==> FirstDiffers(a, b, 0);
    } else if a[0] != b[0] {
      assert a[0] < b[0] ==> FirstDiffers(a, b, 0);
      forall p: nat ensures p > 0 ==> !FirstDiffers(a, b, p) {
        if 0 < p <= |a| && p <= |b| {
          assert a[..p][0] == a[0] && b[..p][0] == b[0];
        }
      }
    } else {
      TextBelow(a[1..], b[1..]);
      forall p: nat ensures FirstDiffers(a, b, p + 1) <==> FirstDiffers(a[1..], b[1..], p) {
        DiffersNext(a, b, p);
      }
      assert !FirstDiffers(a, b, 0);
      forall p: nat | FirstDiffers(a, b, p) ensures FirstDiffers(a[1..], b[1..], p - 1) {
        assert FirstDiffers(a, b, p - 1 + 1);
      }
    }
  }

  lemma DiffersNext(a: seq<nat>, b: seq<nat>, p: nat)
    requires a != [] && b != [] && a[0] == b[0]
    ensures FirstDiffers(a, b, p + 1) <==> FirstDiffers(a[1..], b[1..], p)
  {
    if p < |a| && p < |b| {
      assert a[..p + 1] == [a[0]] + a[1..][..p] && b[..p + 1] == [b[0]] + b[1..][..p];
      assert a[..p + 1][1..] == a[1..][..p] && b[..p + 1][1..] == b[1..][..p];
    }
  }

  lemma CmpOpMeans(op: Op, a: Value, b: Value)
    ensures CmpOp(op, a, b) <==> Means(op, a, b)
  {
    if a.Text? && b.Text? {
      TextBelow(a.s, b.s);
      TextBelow(b.s, a.s);
      TextOrder(a.s, b.s, []);
      TextOrder(b.s, a.s, []);
    }
  }

  // Of two values of one kind exactly one of `<`, `=` and `>` holds.
  lemma OneOfThree(a: Value, b: Value)
    requires SameKind(a, b)
    ensures Below(a, b) || a == b || Below(b, a)
    ensures !(Below(a, b) && a == b) && !(Below(a, b) && Below(b, a)) && !(a == b && Below(b, a))
  {
    CmpOpMeans(Lt, a, b);
    CmpOpMeans(Gt, a, b);
    OneOrder(a, b, a);
  }

  function OpOf(w: Where): Op
    requires !w.Complex?
  {
    if w.ColumnFirst? then w.op else Flip(w.op)
  }

  // ---- Pruning one zone ----

  predicate Prunes(op: Op, zm: ZoneMap, k: Value) {
    match op
    case Gt => Compare(zm.max, k).Some? && Compare(zm.max, k) != Some(Greater)
    case Lt => Compare(zm.min, k).Some? && Compare(zm.min, k) != Some(Less)
    case GtEq => Compare(zm.max, k) == Some(Less)
    case LtEq => Compare(zm.min, k) == Some(Greater)
    case Eq => Compare(k, zm.min) == Some(Less) || Compare(k, zm.max) == Some(Greater)
    case _ => false
  }

  // A number in a zone of numbers lies within the zone's bounds, as SQL orders it. For
  // a value of the bounds' own kind this is so; an integer among floats, or a float
  // among integers, may lie outside.
  predicate Bounded(zm: ZoneMap, v: Value) {
    Numeric(zm.min) && Numeric(v) ==> SqlCompare(v, zm.min) != Some(Less) && SqlCompare(v, zm.max) != Some(Greater)
  }

  ghost predicate AllBounded(zm: ZoneMap, vals: seq<Value>) {
    forall i | 0 <= i < |vals| :: Bounded(zm, vals[i])
  }

  // A NULL beside a value: `col <= NULL` and `col = NULL` accept the NULL, the zone map
  // does not.
  ghost predicate PartlyNull(vals: seq<Value>) {
    (exists i :: 0 <= i < |vals| && vals[i].Null?) && (exists i :: 0 <= i < |vals| && !vals[i].Null?)
  }

  ghost predicate NullTrap(op: Op, k: Value) { k.Null? && (op == LtEq || op == Eq) }

  ghost predicate NonePass(op: Op, vals: seq<Value>, k: Value) {
    forall i | 0 <= i < |vals| :: !CmpOp(op, vals[i], k)
  }

  // Two kinds SQL does not order either.
  lemma OtherKind(v: Value, k: Value)
    requires !SameKind(v, k) && !(v.Int? && k.Float?) && !(v.Float? && k.Int?)
    ensures SqlCompare(v, k) == None && v != k
  {
  }

  lemma PruneOne(zm: ZoneMap, vals: seq<Value>, op: Op, k: Value, i: nat)
    requires ZoneOk(zm, vals) && i < |vals| && Bounded(zm, vals[i]) && !k.Null? && Prunes(op, zm, k)
    ensures !CmpOp(op, vals[i], k)
  {
    var v := vals[i];
    if zm.min.Null? {
      assert v.Null?;
    } else {
      assert SameKind(zm.min, k) && SameKind(zm.max, k);
      if SameKind(v, k) {
        PruneSameKind(zm, v, op, k);
      } else if !(Numeric(v) && Numeric(k)) {
        OtherKind(v, k);
      }
    }
  }

  lemma PruneSameKind(zm: ZoneMap, v: Value, op: Op, k: Value)
    requires SameKind(zm.min, k) && SameKind(zm.max, k) && SameKind(v, k) && !k.Null? && Prunes(op, zm, k)
    requires Leq(zm.min, v) && Leq(v, zm.max)
    ensures !CmpOp(op, v, k)
  {
    OneOrder(v, k, zm.min);
    OneOrder(v, k, zm.max);
    OneOrder(zm.min, v, k);
    OneOrder(k, v, zm.max);
    OneOrder(zm.min, k, v);
    OneOrder(k, zm.max, v);
    OneOrder(zm.max, k, v);
    OneOrder(v, zm.max, k);
    OneOrder(k, zm.min, v);
  }

  // A zone is pruned exactly when no value between its bounds could meet the comparison;
  // `<>` never prunes.
  lemma PruneExact(zm: ZoneMap, op: Op, k: Value)
    requires SameKind(zm.min, k) && SameKind(zm.max, k) && !k.Null? && Leq(zm.min, zm.max)
    requires op != NotEq && op != OtherOp
    ensures Prunes(op, zm, k) <==> forall v | SameKind(v, k) && Leq(zm.min, v) && Leq(v, zm.max) :: !Means(op, v, k)
  {
    if Prunes(op, zm, k) {
      forall v | SameKind(v, k) && Leq(zm.min, v) && Leq(v, zm.max)
        ensures !Means(op, v, k)
      {
        PruneSameKind(zm, v, op, k);
        CmpOpMeans(op, v, k);
      }
    } else {
      var v := if op == Eq then k else if op == Gt || op == GtEq then zm.max else zm.min;
      OneOrder(zm.min, zm.min, k);
      OneOrder(zm.max, zm.max, k);
      OneOrder(v, k, v);
      OneOrder(k, zm.min, k);
      OneOrder(k, zm.max, k);
      CmpOpMeans(op, v, k);
      assert SameKind(v, k) && Leq(zm.min, v) && Leq(v, zm.max) && Means(op, v, k);
    }
  }

  // Whatever the literal, a value outside the bounds is lost by `>` the maximum or
  // by `<` the minimum.
  lemma OutsideIsLost(zm: ZoneMap, vals: seq<Value>, i: nat)
    requires ZoneOk(zm, vals) && i < |vals| && !Bounded(zm, vals[i])
    ensures !zm.min.Null? && !zm.max.Null?
    ensures (Prunes(Gt, zm, zm.max) && CmpOp(Gt, vals[i], zm.max)) || (Prunes(Lt, zm, zm.min) && CmpOp(Lt, vals[i], zm.min))
  {
    OneOrder(zm.min, zm.min, zm.min);
    OneOrder(zm.max, zm.max, zm.max);
  }

  // Pruning a zone by comparisons with values never loses a row exactly when all its
  // numbers lie within the bounds.
  lemma PruneIff(zm: ZoneMap, vals: seq<Value>)
    requires ZoneOk(zm, vals)
    ensures (forall op: Op, k: Value | !k.Null? && Prunes(op, zm, k) :: NonePass(op, vals, k)) <==> AllBounded(zm, vals)
  {
    if AllBounded(zm, vals) {
      forall op: Op, k: Value | !k.Null? && Prunes(op, zm, k)
        ensures NonePass(op, vals, k)
      {
        PruneSound(zm, vals, op, k);
      }
    } else {
      var i :| 0 <= i < |vals| && !Bounded(zm, vals[i]);
      OutsideIsLost(zm, vals, i);
      assert !NonePass(Gt, vals, zm.max) || !NonePass(Lt, vals, zm.min);
    }
  }

  // One kind of number in a zone is enough.
  lemma OneKindBounded(zm: ZoneMap, vals: seq<Value>)
    requires ZoneOk(zm, vals) && !(exists i, j :: 0 <= i < |vals| && 0 <= j < |vals| && vals[i].Int? && vals[j].Float?)
    ensures AllBounded(zm, vals)
  {
    forall i | 0 <= i < |vals|
      ensures Bounded(zm, vals[i])
    {
      if Numeric(zm.min) && Numeric(vals[i]) {
        var m :| 0 <= m < |vals| && vals[m] == zm.min;
        OneOrder(vals[i], zm.min, zm.max);
        OneOrder(zm.min, vals[i], zm.max);
        OneOrder(vals[i], zm.max, zm.min);
      }
    }
  }

  lemma PruneNull(zm: ZoneMap, vals: seq<Value>, op: Op, i: nat)
    requires ZoneOk(zm, vals) && op != LtEq && op != Eq && Prunes(op, zm, Null) && i < |vals|
    ensures !CmpOp(op, vals[i], Null)
  {
  }

  // A pruned zone holds no row that passes.
  lemma PruneSound(zm: ZoneMap, vals: seq<Value>, op: Op, k: Value)
    requires ZoneOk(zm, vals) && Prunes(op, zm, k)
    requires if k.Null? then NullTrap(op, k) ==> !PartlyNull(vals) else AllBounded(zm, vals)
    ensures NonePass(op, vals, k)
  {
    forall i | 0 <= i < |vals|
      ensures !CmpOp(op, vals[i], k)
    {
      if !k.Null? {
        PruneOne(zm, vals, op, k, i);
      } else if NullTrap(op, k) {
        assert !zm.min.Null?;
        var m :| 0 <= m < |vals| && vals[m] == zm.min;
        assert !vals[i].Null?;
      } else {
        PruneNull(zm, vals, op, i);
      }
    }
  }

  // With a NULL literal and `<=` or `=`, pruning a zone is right exactly when the
  // zone is not partly NULL.
  lemma PruneNullIff(zm: ZoneMap, vals: seq<Value>, op: Op)
    requires ZoneOk(zm, vals) && NullTrap(op, Null)
    ensures (Prunes(op, zm, Null) ==> NonePass(op, vals, Null)) <==> !PartlyNull(vals)
  {
    if PartlyNull(vals) {
      var i :| 0 <= i < |vals| && vals[i].Null?;
      assert CmpOp(op, vals[i], Null);
      assert !zm.min.Null? && !zm.max.Null?;
      assert Prunes(op, zm, Null);
    } else if Prunes(op, zm, Null) {
      forall i | 0 <= i < |vals|
        ensures !CmpOp(op, vals[i], Null)
      {
        assert !zm.min.Null?;
        var m :| 0 <= m < |vals| && vals[m] == zm.min;
        assert !vals[i].Null?;
      }
    }
  }

  // A float zone with an integer in it hides the integer from `> 5.0`.
  lemma MixedIsLost()
    ensures
      var vals, zm := [Float(1.0), Int(9)], ZoneMap(Float(1.0), Float(1.0));
      ZoneOk(zm, vals) && Prunes(Gt, zm, Float(5.0)) && CmpOp(Gt, vals[1], Float(5.0))
  {
    assert [Float(1.0), Int(9)][0] == Float(1.0);
  }

  // ---- Filtering ----

  function Mask(column: seq<Value>, op: Op, k: Value): (mask: seq<bool>)
    ensures |mask| == |column|
  {
    seq(|column|, i requires 0 <= i < |column| => CmpOp(op, column[i], k))
  }

  function Masked<T>(column: seq<T>, mask: seq<bool>): seq<T>
    requires |column| == |mask|
  {
    if column == [] then [] else (if mask[0] then [column[0]] else []) + Masked(column[1..], mask[1..])
  }

  // The values of `column` in the rows whose value in `key` passes.
  function Passing<T>(column: seq<T>, key: seq<Value>, op: Op, k: Value): seq<T>
    requires |column| == |key|
  {
    Masked(column, Mask(key, op, k))
  }

  lemma {:induction false} MaskedAppend<T>(a: seq<T>, b: seq<T>, m: seq<bool>, n: seq<bool>)
    requires |a| == |m| && |b| == |n|
    ensures Masked(a + b, m + n) == Masked(a, m) + Masked(b, n)
  {
    if a == [] {
      assert a + b == b && m + n == n;
    } else {
      MaskedAppend(a[1..], b, m[1..], n);
      assert (a + b)[1..] == a[1..] + b && (m + n)[1..] == m[1..] + n;
      var first := if m[0] then [a[0]] else [];
      assert first + (Masked(a[1..], m[1..]) + Masked(b, n)) == first + Masked(a[1..], m[1..]) + Masked(b, n);
    }
  }

  lemma PassingAppend<T>(a: seq<T>, b: seq<T>, x: seq<Value>, y: seq<Value>, op: Op, k: Value)
    requires |a| == |x| && |b| == |y|
    ensures Passing(a + b, x + y, op, k) == Passing(a, x, op, k) + Passing(b, y, op, k)
  {
    MaskedAppend(a, b, Mask(x, op, k), Mask(y, op, k));
    assert Mask(x + y, op, k) == Mask(x, op, k) + Mask(y, op, k);
  }

  lemma {:induction false} MaskedNone<T>(column: seq<T>, mask: seq<bool>)
    requires |column| == |mask|
    ensures Masked(column, mask) == [] <==> forall i | 0 <= i < |mask| :: !mask[i]
  {
    if column != [] {
      MaskedNone(column[1..], mask[1..]);
      assert forall i | 0 < i < |mask| :: mask[i] == mask[1..][i - 1];
      assert forall i | 0 <= i < |mask[1..]| :: mask[1..][i] == mask[i + 1];
    }
  }

  lemma PassingNone<T>(column: seq<T>, key: seq<Value>, op: Op, k: Value)
    requires |column| == |key|
    ensures Passing(column, key, op, k) == [] <==> NonePass(op, key, k)
  {
    MaskedNone(column, Mask(key, op, k));
    assert forall i | 0 <= i < |key| :: Mask(key, op, k)[i] == CmpOp(op, key[i], k);
  }

  // ---- Pruning a column ----

  // The zones, of the first `n`, that are not pruned.
  function Surviving(zones: seq<ZoneMap>, n: nat, op: Op, k: Value): (zs: seq<nat>)
    requires n <= |zones|
    ensures |zs| <= n
  {
    if n == 0 then []
    else Surviving(zones, n - 1, op, k) + (if Prunes(op, zones[n - 1], k) then [] else [n - 1])
  }

  // The rows of the zones listed.
  function Gathered<T>(column: seq<T>, zs: seq<nat>): seq<T> {
    if zs == [] then [] else Gathered(column, zs[..|zs| - 1]) + ZoneRows(column, zs[|zs| - 1])
  }

  // The rows before zone `n`.
  function Head<T>(column: seq<T>, n: nat): seq<T> {
    if n * ZONE_SIZE < |column| then column[..n * ZONE_SIZE] else column
  }

  lemma HeadNext<T>(column: seq<T>, n: nat)
    ensures Head(column, n + 1) == Head(column, n) + ZoneRows(column, n)
  {
  }

  ghost predicate SafeZone(zones: seq<ZoneMap>, key: seq<Value>, z: nat, op: Op, k: Value) {
    z < |zones| ==>
      if k.Null? then NullTrap(op, k) ==> !PartlyNull(ZoneRows(key, z)) else AllBounded(zones[z], ZoneRows(key, z))
  }

  ghost predicate Safe(zones: seq<ZoneMap>, key: seq<Value>, op: Op, k: Value) {
    forall z: nat :: SafeZone(zones, key, z, op, k)
  }

  // The two tables have the same passing rows; the fact is kept under a trigger so
  // that it is expanded only where asked for.
  predicate Unfold(i: int) { true }

  ghost predicate Agree<T>(a: seq<T>, x: seq<Value>, b: seq<T>, y: seq<Value>, op: Op, k: Value) {
    |a| == |x| && |b| == |y| && forall i {:trigger Unfold(i)} :: Unfold(i) ==> Passing(a, x, op, k) == Passing(b, y, op, k)
  }

  lemma AgreeAppend<T>(a: seq<T>, x: seq<Value>, b: seq<T>, y: seq<Value>, c: seq<T>, z: seq<Value>, op: Op, k: Value)
    requires Agree(a, x, b, y, op, k) && |c| == |z|
    ensures Agree(a + c, x + z, b + c, y + z, op, k)
  {
    assert Unfold(0);
    PassingAppend(a, c, x, z, op, k);
    PassingAppend(b, c, y, z, op, k);
  }

  lemma AgreeSkip<T>(a: seq<T>, x: seq<Value>, b: seq<T>, y: seq<Value>, c: seq<T>, z: seq<Value>, op: Op, k: Value)
    requires Agree(a, x, b, y, op, k) && |c| == |z| && NonePass(op, z, k)
    ensures Agree(a, x, b + c, y + z, op, k)
  {
    assert Unfold(0);
    PassingAppend(b, c, y, z, op, k);
    PassingNone(c, z, op, k);
  }

  // A zone that is pruned holds no row that passes.
  ghost predicate EmptyIfPruned(zones: seq<ZoneMap>, key: seq<Value>, z: nat, op: Op, k: Value) {
    z < |zones| && Prunes(op, zones[z], k) ==> NonePass(op, ZoneRows(key, z), k)
  }

  predicate UnfoldZones(i: int) { true }

  ghost predicate AllEmptyIfPruned(zones: seq<ZoneMap>, key: seq<Value>, op: Op, k: Value) {
    forall i {:trigger UnfoldZones(i)} :: UnfoldZones(i) ==> forall z: nat :: EmptyIfPruned(zones, key, z, op, k)
  }

  lemma PrunedZone(key: seq<Value>, zones: seq<ZoneMap>, z: nat, op: Op, k: Value)
    requires SafeZone(zones, key, z, op, k) && ZoneAt(zones, key, z)
    ensures EmptyIfPruned(zones, key, z, op, k)
  {
    if z < |zones| && Prunes(op, zones[z], k) {
      PruneSound(zones[z], ZoneRows(key, z), op, k);
    }
  }

  // The surviving zones and their rows, one zone further.
  lemma SurvivingNext<T>(column: seq<T>, zones: seq<ZoneMap>, z: nat, op: Op, k: Value)
    requires z < |zones|
    ensures Gathered(column, Surviving(zones, z + 1, op, k))
      == Gathered(column, Surviving(zones, z, op, k)) + (if Prunes(op, zones[z], k) then [] else ZoneRows(column, z))
  {
    var before, zs := Surviving(zones, z, op, k), Surviving(zones, z + 1, op, k);
    if Prunes(op, zones[z], k) {
      assert zs == before;
    } else {
      assert zs[..|zs| - 1] == before && zs[|zs| - 1] == z;
    }
  }

  ghost predicate PrunedAgree(column: seq<Value>, key: seq<Value>, zones: seq<ZoneMap>, n: nat, op: Op, k: Value)
    requires n <= |zones|
  {
    forall i {:trigger UnfoldZones(i)} :: UnfoldZones(i) ==>
      Agree(Gathered(column, Surviving(zones, n, op, k)), Gathered(key, Surviving(zones, n, op, k)),
            Head(column, n), Head(key, n), op, k)
  }

  lemma PrunedNext(column: seq<Value>, key: seq<Value>, zones: seq<ZoneMap>, z: nat, op: Op, k: Value)
    requires |column| == |key| && z < |zones| && PrunedAgree(column, key, zones, z, op, k)
    requires AllEmptyIfPruned(zones, key, op, k)
    ensures PrunedAgree(column, key, zones, z + 1, op, k)
  {
    assert Unfold(0) && UnfoldZones(0);
    assert EmptyIfPruned(zones, key, z, op, k);
    var zs := Surviving(zones, z, op, k);
    var a, x, b, y := Gathered(column, zs), Gathered(key, zs), Head(column, z), Head(key, z);
    HeadNext(column, z);
    HeadNext(key, z);
    SurvivingNext(column, zones, z, op, k);
    SurvivingNext(key, zones, z, op, k);
    if Prunes(op, zones[z], k) {
      AgreeSkip(a, x, b, y, ZoneRows(column, z), ZoneRows(key, z), op, k);
      assert a + [] == a && x + [] == x;
    } else {
      AgreeAppend(a, x, b, y, ZoneRows(column, z), ZoneRows(key, z), op, k);
    }
  }

  lemma PrunedNone(column: seq<Value>, key: seq<Value>, zones: seq<ZoneMap>, op: Op, k: Value)
    ensures PrunedAgree(column, key, zones, 0, op, k)
  {
    assert Head(column, 0) == [] && Head(key, 0) == [];
  }

  // Filtering the surviving zones is filtering all of them.
  lemma PrunedPassing(column: seq<Value>, key: seq<Value>, zones: seq<ZoneMap>, op: Op, k: Value)
    requires |column| == |key| && AllEmptyIfPruned(zones, key, op, k)
    ensures PrunedAgree(column, key, zones, |zones|, op, k)
  {
    PrunedNone(column, key, zones, op, k);
    for z := 0 to |zones|
      invariant PrunedAgree(column, key, zones, z, op, k)
    {
      PrunedNext(column, key, zones, z, op, k);
    }
  }

  // ---- Batches ----

  datatype Batch = Batch(columns: seq<seq<Value>>, rowCount: nat)

  ghost predicate Rectangular(b: Batch) {
    b.columns != [] && forall c | 0 <= c < |b.columns| :: |b.columns[c]| == b.rowCount
  }

  predicate Fits(w: Where, width: nat) { w.Complex? || w.col < width }

  ghost predicate ColumnFiltered(b: Batch, w: Where, out: Batch, c: nat)
    requires Rectangular(b) && Fits(w, |b.columns|) && !w.Complex? && |out.columns| == |b.columns|
  {
    c < |b.columns| ==> out.columns[c] == Passing(b.columns[c], b.columns[w.col], OpOf(w), w.lit)
  }

  // The batch filtered, column by column; a complex clause is left to others.
  ghost predicate IsFiltered(b: Batch, w: Where, out: Batch) {
    && Rectangular(b) && Fits(w, |b.columns|) && |out.columns| == |b.columns|
    && (w.Complex? ==> out == b)
    && (!w.Complex? ==> (forall c: nat :: ColumnFiltered(b, w, out, c)) && out.rowCount == |out.columns[w.col]|)
  }

  // The row meets the clause, whichever side the column stands on.
  ghost predicate Meets(w: Where, v: Value)
    requires !w.Complex?
  {
    if w.ColumnFirst? then Means(w.op, v, w.lit) else Means(w.op, w.lit, v)
  }

  ghost predicate Ascending(rows: seq<nat>, total: nat) {
    && (forall i | 0 <= i < |rows| :: rows[i] < total)
    && (forall i, j | 0 <= i < j < |rows| :: rows[i] < rows[j])
  }

  // Row `r` is among the rows picked exactly when it meets the clause.
  ghost predicate PickedIff(rows: seq<nat>, key: seq<Value>, w: Where, r: nat)
    requires !w.Complex?
  {
    r < |key| ==> (r in rows <==> Meets(w, key[r]))
  }

  ghost predicate ColumnPicked(column: seq<Value>, rows: seq<nat>, out: seq<Value>) {
    |out| == |rows| && forall i | 0 <= i < |rows| :: rows[i] < |column| && out[i] == column[rows[i]]
  }

  // `out` holds, in order and column by column, exactly the rows of `b` that meet the
  // clause; `rows` are their places.
  ghost predicate Answers(b: Batch, w: Where, out: Batch, rows: seq<nat>) {
    && Rectangular(b) && Fits(w, |b.columns|) && !w.Complex?
    && Ascending(rows, b.rowCount) && out.rowCount == |rows| && |out.columns| == |b.columns|
    && (forall r: nat :: PickedIff(rows, b.columns[w.col], w, r))
    && (forall c | 0 <= c < |b.columns| :: ColumnPicked(b.columns[c], rows, out.columns[c]))
  }

  // The places where the mask is set, from `from` on.
  function Places(mask: seq<bool>, from: nat): seq<nat> {
    if mask == [] then [] else (if mask[0] then [from] else []) + Places(mask[1..], from + 1)
  }

  ghost predicate PlacesOk(mask: seq<bool>, from: nat, rows: seq<nat>) {
    && (forall i | 0 <= i < |rows| :: from <= rows[i] < from + |mask| && mask[rows[i] - from])
    && (forall i, j | 0 <= i < j < |rows| :: rows[i] < rows[j])
    && (forall r | 0 <= r < |mask| && mask[r] :: from + r in rows)
  }

  lemma {:induction false} PlacesAreSet(mask: seq<bool>, from: nat)
    ensures PlacesOk(mask, from, Places(mask, from))
  {
    if mask != [] {
      PlacesAreSet(mask[1..], from + 1);
      PlacesStep(mask, from, Places(mask[1..], from + 1));
    }
  }

  lemma PlacesStep(mask: seq<bool>, from: nat, more: seq<nat>)
    requires mask != [] && PlacesOk(mask[1..], from + 1, more)
    ensures PlacesOk(mask, from, (if mask[0] then [from] else []) + more)
  {
    var rows := (if mask[0] then [from] else []) + more;
    var k := if mask[0] then 1 else 0;
    forall i | 0 <= i < |rows| ensures from <= rows[i] < from + |mask| && mask[rows[i] - from] {
      if i >= k {
        assert rows[i] == more[i - k];
      }
    }
    forall r | 0 <= r < |mask| && mask[r] ensures from + r in rows {
      if r > 0 {
        assert mask[1..][r - 1];
        assert from + 1 + (r - 1) in more;
      }
    }
  }

  lemma {:induction false} MaskedAt<T>(column: seq<T>, mask: seq<bool>, from: nat, whole: seq<T>)
    requires |column| == |mask| && from + |column| == |whole| && column == whole[from..]
    ensures |Masked(column, mask)| == |Places(mask, from)|
    ensures forall i | 0 <= i < |Places(mask, from)| ::
      Places(mask, from)[i] < |whole| && Masked(column, mask)[i] == whole[Places(mask, from)[i]]
  {
    if column != [] {
      assert whole[from..][1..] == whole[from + 1..];
      MaskedAt(column[1..], mask[1..], from + 1, whole);
    }
  }

  // What the filter leaves is the answer.
  lemma FilterAnswers(b: Batch, w: Where, out: Batch) returns (rows: seq<nat>)
    requires IsFiltered(b, w, out) && !w.Complex?
    ensures Answers(b, w, out, rows)
  {
    var key := b.columns[w.col];
    var mask := Mask(key, OpOf(w), w.lit);
    rows := Places(mask, 0);
    PlacesAreSet(mask, 0);
    forall r: nat ensures PickedIff(rows, key, w, r) {
      if r < |key| {
        CmpOpMeans(OpOf(w), key[r], w.lit);
        if w.LiteralFirst? {
          FlipTurns(w.op, key[r], w.lit);
          CmpOpMeans(w.op, w.lit, key[r]);
        }
        assert mask[r] ==> 0 + r in rows;
      }
    }
    forall c | 0 <= c < |b.columns| ensures ColumnPicked(b.columns[c], rows, out.columns[c]) {
      assert ColumnFiltered(b, w, out, c);
      MaskedAt(b.columns[c], mask, 0, b.columns[c]);
    }
    assert ColumnPicked(b.columns[w.col], rows, out.columns[w.col]);
  }

  lemma {:induction false} MaskedParts<T>(column: seq<T>, mask: seq<bool>, rest: seq<bool>)
    requires |column| == |mask| == |rest| && forall i | 0 <= i < |mask| :: rest[i] == !mask[i]
    ensures multiset(Masked(column, mask)) + multiset(Masked(column, rest)) == multiset(column)
  {
    if column != [] {
      MaskedParts(column[1..], mask[1..], rest[1..]);
      assert column == [column[0]] + column[1..];
    }
  }

  // The answers to `=` and `<>` make up the rows: none of the one has a key other than
  // the literal, none of the other has it, and column by column nothing is left over.
  lemma EqualOrNot(b: Batch, col: nat, lit: Value, equal: Batch, others: Batch, c: nat)
    requires IsFiltered(b, ColumnFirst(col, Eq, lit), equal) && IsFiltered(b, ColumnFirst(col, NotEq, lit), others)
    requires c < |b.columns|
    ensures multiset(equal.columns[c]) + multiset(others.columns[c]) == multiset(b.columns[c])
    ensures forall i | 0 <= i < |equal.columns[col]| :: equal.columns[col][i] == lit
    ensures lit !in others.columns[col]
  {
    var key := b.columns[col];
    assert ColumnFiltered(b, ColumnFirst(col, Eq, lit), equal, c);
    assert ColumnFiltered(b, ColumnFirst(col, NotEq, lit), others, c);
    MaskedParts(b.columns[c], Mask(key, Eq, lit), Mask(key, NotEq, lit));
    var p := FilterAnswers(b, ColumnFirst(col, Eq, lit), equal);
    var q := FilterAnswers(b, ColumnFirst(col, NotEq, lit), others);
    forall i | 0 <= i < |p| ensures equal.columns[col][i] == lit {
      assert PickedIff(p, key, ColumnFirst(col, Eq, lit), p[i]);
    }
    forall i | 0 <= i < |q| ensures others.columns[col][i] != lit {
      assert PickedIff(q, key, ColumnFirst(col, NotEq, lit), q[i]);
    }
  }

  method EvalFilter(b: Batch, w: Where) returns (mask: seq<bool>)
    requires Rectangular(b) && Fits(w, |b.columns|)
    ensures mask == if w.Complex? then seq(b.rowCount, _ => true) else Mask(b.columns[w.col], OpOf(w), w.lit)
  {
    mask := if w.Complex? then seq(b.rowCount, _ => true) else Mask(b.columns[w.col], OpOf(w), w.lit);
  }

  lemma {:induction false} MaskedAll<T>(column: seq<T>, mask: seq<bool>)
    requires |column| == |mask| && forall i | 0 <= i < |mask| :: mask[i]
    ensures Masked(column, mask) == column
  {
    if column != [] {
      MaskedAll(column[1..], mask[1..]);
    }
  }

  function Count(mask: seq<bool>): nat {
    if mask == [] then 0 else (if mask[0] then 1 else 0) + Count(mask[1..])
  }

  lemma {:induction false} MaskedLength<T>(column: seq<T>, mask: seq<bool>)
    requires |column| == |mask|
    ensures |Masked(column, mask)| == Count(mask)
  {
    if column != [] {
      MaskedLength(column[1..], mask[1..]);
    }
  }

  method Keep<T>(column: seq<T>, mask: seq<bool>) returns (kept: seq<T>)
    requires |column| == |mask|
    ensures kept == Masked(column, mask)
  {
    kept := [];
    for i := 0 to |column|
      invariant kept == Masked(column[..i], mask[..i])
    {
      MaskedAppend(column[..i], [column[i]], mask[..i], [mask[i]]);
      assert column[..i + 1] == column[..i] + [column[i]] && mask[..i + 1] == mask[..i] + [mask[i]];
      assert Masked([column[i]], [mask[i]]) == if mask[i] then [column[i]] else [];
      if mask[i] {
        kept := kept + [column[i]];
      }
    }
    assert column[..|column|] == column && mask[..|mask|] == mask;
  }

  method Filter(b: Batch, w: Where) returns (out: Batch)
    requires Rectangular(b) && Fits(w, |b.columns|)
    ensures IsFiltered(b, w, out)
    ensures !w.Complex? ==> exists rows :: Answers(b, w, out, rows)
  {
    var mask := EvalFilter(b, w);
    var columns: seq<seq<Value>> := [];
    for c := 0 to |b.columns|
      invariant |columns| == c
      invariant forall i | 0 <= i < c :: columns[i] == Masked(b.columns[i], mask)
    {
      var kept := Keep(b.columns[c], mask);
      columns := columns + [kept];
    }
    out := Batch(columns, Count(mask));
    MaskedLength(b.columns[if w.Complex? then 0 else w.col], mask);
    if w.Complex? {
      forall c | 0 <= c < |columns|
        ensures columns[c] == b.columns[c]
      {
        MaskedAll(b.columns[c], mask);
      }
    } else {
      ghost var rows := FilterAnswers(b, w, out);
    }
  }

  // ---- The store ----

  // The stored values, column by column.
  ghost function Table(columns: seq<Runs>): (t: seq<seq<Value>>)
    ensures |t| == |columns|
  {
    seq(|columns|, c requires 0 <= c < |columns| => Values(columns[c]))
  }

  function Take<T>(s: seq<T>, n: nat): seq<T> { if n <= |s| then s[..n] else s }

  // The first rows of a table.
  ghost function First(t: seq<seq<Value>>, rows: nat): (b: Batch)
    ensures |b.columns| == |t|
  {
    Batch(seq(|t|, c requires 0 <= c < |t| => Take(t[c], rows)), rows)
  }

  ghost predicate HoldsZones(t: seq<seq<Value>>, zs: seq<nat>, b: Batch) {
    |b.columns| == |t| && forall c | 0 <= c < |t| :: b.columns[c] == Gathered(t[c], zs)
  }

  method FromColumnar(store: ColumnarStore) returns (b: Batch)
    requires store.Valid() && store.columns != []
    ensures b == First(Table(store.columns), store.rowCount) && Rectangular(b)
  {
    var columns: seq<seq<Value>> := [];
    for c := 0 to |store.columns|
      invariant |columns| == c
      invariant forall i | 0 <= i < c :: columns[i] == Values(store.columns[i])
    {
      var column := Materialize(store.columns[c]);
      columns := columns + [column];
    }
    b := Batch(columns, store.rowCount);
    forall c | 0 <= c < |columns|
      ensures columns[c] == Take(Table(store.columns)[c], store.rowCount)
    {
      assert columns[c][..store.rowCount] == columns[c];
    }
    assert columns == First(Table(store.columns), store.rowCount).columns;
  }

  lemma GatheredNext<T>(column: seq<T>, zs: seq<nat>, i: nat)
    requires i < |zs|
    ensures Gathered(column, zs[..i + 1]) == Gathered(column, zs[..i]) + ZoneRows(column, zs[i])
  {
    assert zs[..i + 1][..i] == zs[..i];
  }

  // The rows of one column in the zones listed.
  method GatherColumn(column: seq<Value>, zs: seq<nat>) returns (out: seq<Value>)
    ensures out == Gathered(column, zs)
  {
    out := [];
    for i := 0 to |zs|
      invariant out == Gathered(column, zs[..i])
    {
      out := out + ZoneRows(column, zs[i]);
      GatheredNext(column, zs, i);
    }
    assert zs[..|zs|] == zs;
  }

  lemma {:induction false} GatheredLength<T, U>(a: seq<T>, b: seq<U>, zs: seq<nat>)
    requires |a| == |b|
    ensures |Gathered(a, zs)| == |Gathered(b, zs)|
  {
    if zs != [] {
      GatheredLength(a, b, zs[..|zs| - 1]);
    }
  }

  method BatchFromZones(store: ColumnarStore, zs: seq<nat>) returns (b: Batch)
    requires store.Valid() && store.columns != []
    ensures HoldsZones(Table(store.columns), zs, b) && Rectangular(b)
  {
    var columns := GatherColumns(store.columns, zs);
    b := Batch(columns, |columns[0]|);
    GatheredBatch(columns, store.columns, store.rowCount, zs);
  }

  lemma GatheredBatch(columns: seq<seq<Value>>, runs: seq<Runs>, rows: nat, zs: seq<nat>)
    requires |columns| == |runs| > 0 && forall c: nat :: IsGathered(columns, runs, zs, c)
    requires forall c | 0 <= c < |runs| :: |Values(runs[c])| == rows
    ensures HoldsZones(Table(runs), zs, Batch(columns, |columns[0]|)) && Rectangular(Batch(columns, |columns[0]|))
  {
    forall c: nat | c < |columns|
      ensures |columns[c]| == |columns[0]| && columns[c] == Gathered(Table(runs)[c], zs)
    {
      assert IsGathered(columns, runs, zs, c) && IsGathered(columns, runs, zs, 0);
      GatheredLength(Values(runs[c]), Values(runs[0]), zs);
    }
  }

  ghost predicate IsGathered(columns: seq<seq<Value>>, runs: seq<Runs>, zs: seq<nat>, c: nat)
    requires |columns| <= |runs|
  {
    c < |columns| ==> columns[c] == Gathered(Values(runs[c]), zs)
  }

  method GatherColumns(runs: seq<Runs>, zs: seq<nat>) returns (columns: seq<seq<Value>>)
    ensures |columns| == |runs| && forall c: nat :: IsGathered(columns, runs, zs, c)
  {
    columns := [];
    for c := 0 to |runs|
      invariant |columns| == c && forall i: nat :: IsGathered(columns, runs, zs, i)
    {
      var all := Materialize(runs[c]);
      var column := GatherColumn(all, zs);
      ghost var before := columns;
      columns := columns + [column];
      forall i: nat
        ensures IsGathered(columns, runs, zs, i)
      {
        assert IsGathered(before, runs, zs, i);
      }
    }
  }

  function Upto(n: nat): (zs: seq<nat>)
    ensures |zs| == n
  {
    seq(n, i => i)
  }

  // The zones to read: those not pruned, of those that have a map.
  function ToRead(zoneMaps: seq<seq<ZoneMap>>, rows: nat, w: Where): seq<nat>
    requires Fits(w, |zoneMaps|)
  {
    if w.Complex? || zoneMaps[w.col] == [] then Upto(ZoneCount(rows))
    else Surviving(zoneMaps[w.col], |zoneMaps[w.col]|, OpOf(w), w.lit)
  }

  method PruneWithZoneMaps(store: ColumnarStore, w: Where) returns (zs: seq<nat>)
    requires store.Valid() && Fits(w, |store.columns|)
    ensures zs == ToRead(store.zoneMaps, store.rowCount, w)
  {
    if w.Complex? || store.zoneMaps[w.col] == [] {
      return Upto(ZoneCount(store.rowCount));
    }
    zs := [];
    var zones := store.zoneMaps[w.col];
    for z := 0 to |zones|
      invariant zs == Surviving(zones, z, OpOf(w), w.lit)
    {
      if !Prunes(OpOf(w), zones[z], w.lit) {
        zs := zs + [z];
      }
    }
  }

  // How far the zones read reach: to the end of the last zone with a map, or, when that
  // one is pruned, through the rows its map covers, none of which passes.
  ghost function Reach(zones: seq<ZoneMap>, covered: nat, total: nat, op: Op, k: Value): nat {
    if zones == [] || Prunes(op, zones[|zones| - 1], k) then covered
    else if |zones| * ZONE_SIZE < total then |zones| * ZONE_SIZE
    else total
  }

  // The rows the filter gets to see.
  ghost function Seen(store: ColumnarStore, w: Where): nat
    requires Fits(w, |store.zoneMaps|)
    reads store
  {
    if w.Complex? || store.zoneMaps[w.col] == [] then store.rowCount
    else Reach(store.zoneMaps[w.col], store.covered, store.rowCount, OpOf(w), w.lit)
  }

  // No zone of the key column sets a trap for the clause.
  ghost predicate SafeFor(store: ColumnarStore, w: Where)
    requires store.Valid() && Fits(w, |store.columns|)
    reads store
  {
    w.Complex? || Safe(store.zoneMaps[w.col], Values(store.columns[w.col])[..store.covered], OpOf(w), w.lit)
  }

  // A zone that is read lies within the rows reached, and a zone that is pruned within
  // the rows covered.
  lemma ReachedZone<T>(column: seq<T>, zones: seq<ZoneMap>, covered: nat, z: nat, op: Op, k: Value)
    requires covered <= |column| && |zones| == ZoneCount(covered) && z < |zones|
    ensures
      var reach := Reach(zones, covered, |column|, op, k);
      && reach <= |column|
      && ZoneRows(column[..reach], z) == ZoneRows(if Prunes(op, zones[z], k) then column[..covered] else column, z)
  {
  }

  ghost predicate ReadAt(zones: seq<ZoneMap>, zs: seq<nat>, i: nat, op: Op, k: Value) {
    i < |zs| ==> zs[i] < |zones| && !Prunes(op, zones[zs[i]], k)
  }

  lemma {:induction false} GatheredReach<T>(column: seq<T>, zones: seq<ZoneMap>, covered: nat, zs: seq<nat>, op: Op, k: Value)
    requires covered <= |column| && |zones| == ZoneCount(covered)
    requires Reach(zones, covered, |column|, op, k) <= |column|
    requires forall i: nat :: ReadAt(zones, zs, i, op, k)
    ensures Gathered(column, zs) == Gathered(column[..Reach(zones, covered, |column|, op, k)], zs)
  {
    if zs != [] {
      var before := zs[..|zs| - 1];
      forall i: nat
        ensures ReadAt(zones, before, i, op, k)
      {
        assert ReadAt(zones, zs, i, op, k);
      }
      GatheredReach(column, zones, covered, before, op, k);
      assert ReadAt(zones, zs, |zs| - 1, op, k);
      ReachedZone(column, zones, covered, zs[|zs| - 1], op, k);
    }
  }

  lemma {:induction false} SurvivingRead(zones: seq<ZoneMap>, n: nat, op: Op, k: Value)
    requires n <= |zones|
    ensures forall i: nat :: ReadAt(zones, Surviving(zones, n, op, k), i, op, k)
  {
    if n > 0 {
      SurvivingRead(zones, n - 1, op, k);
      var before, zs := Surviving(zones, n - 1, op, k), Surviving(zones, n, op, k);
      forall i: nat
        ensures ReadAt(zones, zs, i, op, k)
      {
        assert ReadAt(zones, before, i, op, k);
      }
    }
  }

  lemma ReachBounds(zones: seq<ZoneMap>, covered: nat, total: nat, op: Op, k: Value)
    requires covered <= total && |zones| == ZoneCount(covered)
    ensures covered <= Reach(zones, covered, total, op, k) <= total
    ensures Reach(zones, covered, total, op, k) <= |zones| * ZONE_SIZE
    ensures covered % ZONE_SIZE == 0 || covered == total ==> Reach(zones, covered, total, op, k) == covered
  {
  }

  lemma ReachedEmpty(key: seq<Value>, zones: seq<ZoneMap>, covered: nat, z: nat, op: Op, k: Value)
    requires covered <= |key| && ZonesOk(zones, key[..covered]) && Safe(zones, key[..covered], op, k)
    requires Reach(zones, covered, |key|, op, k) <= |key|
    ensures EmptyIfPruned(zones, key[..Reach(zones, covered, |key|, op, k)], z, op, k)
  {
    if z < |zones| {
      ReachedZone(key, zones, covered, z, op, k);
      assert SafeZone(zones, key[..covered], z, op, k) && ZoneAt(zones, key[..covered], z);
      PrunedZone(key[..covered], zones, z, op, k);
    }
  }

  // One column of the answer.
  lemma PrunedColumn(column: seq<Value>, key: seq<Value>, zones: seq<ZoneMap>, covered: nat, seen: nat, op: Op, k: Value)
    requires |column| == |key| && covered <= |key| && seen == Reach(zones, covered, |key|, op, k) <= |key|
    requires ZonesOk(zones, key[..covered]) && Safe(zones, key[..covered], op, k)
    ensures
      var zs := Surviving(zones, |zones|, op, k);
      Agree(Gathered(column, zs), Gathered(key, zs), column[..seen], key[..seen], op, k)
  {
    var zs := Surviving(zones, |zones|, op, k);
    SurvivingRead(zones, |zones|, op, k);
    GatheredReach(column, zones, covered, zs, op, k);
    GatheredReach(key, zones, covered, zs, op, k);
    forall z: nat
      ensures EmptyIfPruned(zones, key[..seen], z, op, k)
    {
      ReachedEmpty(key, zones, covered, z, op, k);
    }
    PrunedPassing(column[..seen], key[..seen], zones, op, k);
    assert UnfoldZones(0);
    ReachBounds(zones, covered, |key|, op, k);
    assert Head(column[..seen], |zones|) == column[..seen] && Head(key[..seen], |zones|) == key[..seen];
  }

  lemma FirstRectangular(t: seq<seq<Value>>, rows: nat, total: nat)
    requires t != [] && rows <= total && forall c | 0 <= c < |t| :: |t[c]| == total
    ensures Rectangular(First(t, rows))
    ensures forall c | 0 <= c < |t| :: First(t, rows).columns[c] == t[c][..rows]
  {
  }

  lemma PrunedAnswers(t: seq<seq<Value>>, total: nat, zones: seq<ZoneMap>, covered: nat, w: Where, b: Batch, out: Batch)
    requires t != [] && !w.Complex? && w.col < |t| && covered <= total && forall c | 0 <= c < |t| :: |t[c]| == total
    requires ZonesOk(zones, t[w.col][..covered]) && Safe(zones, t[w.col][..covered], OpOf(w), w.lit)
    requires HoldsZones(t, Surviving(zones, |zones|, OpOf(w), w.lit), b) && IsFiltered(b, w, out)
    ensures IsFiltered(First(t, Reach(zones, covered, total, OpOf(w), w.lit)), w, out)
  {
    var seen := Reach(zones, covered, total, OpOf(w), w.lit);
    ReachBounds(zones, covered, total, OpOf(w), w.lit);
    FirstRectangular(t, seen, total);
    forall c: nat
      ensures ColumnFiltered(First(t, seen), w, out, c)
    {
      if c < |t| {
        PrunedColumn(t[c], t[w.col], zones, covered, seen, OpOf(w), w.lit);
        assert ColumnFiltered(b, w, out, c);
        assert Unfold(0);
      }
    }
  }

  lemma {:induction false} AllSurvive(zones: seq<ZoneMap>, n: nat, op: Op, k: Value)
    requires n <= |zones|
    ensures |Surviving(zones, n, op, k)| == n > 0 ==> !Prunes(op, zones[n - 1], k)
  {
  }

  // All zones are read only when all rows are seen.
  lemma ReadsSeen(store: ColumnarStore, w: Where)
    requires store.Valid() && store.columns != [] && Fits(w, |store.columns|)
    ensures
      var zs := ToRead(store.zoneMaps, store.rowCount, w);
      if |zs| < ZoneCount(store.rowCount) then !w.Complex? && store.zoneMaps[w.col] != []
      else Seen(store, w) == store.rowCount
  {
    if !w.Complex? && store.zoneMaps[w.col] != [] {
      var zones := store.zoneMaps[w.col];
      assert |zones| == ZoneCount(store.covered);
      AllSurvive(zones, |zones|, OpOf(w), w.lit);
    }
  }

  lemma ReadAnswers(store: ColumnarStore, w: Where, b: Batch, out: Batch)
    requires store.Valid() && store.columns != [] && !w.Complex? && w.col < |store.columns| && SafeFor(store, w)
    requires store.zoneMaps[w.col] != []
    requires HoldsZones(Table(store.columns), ToRead(store.zoneMaps, store.rowCount, w), b) && IsFiltered(b, w, out)
    ensures IsFiltered(First(Table(store.columns), Seen(store, w)), w, out)
  {
    PrunedAnswers(Table(store.columns), store.rowCount, store.zoneMaps[w.col], store.covered, w, b, out);
  }

  // What `vectorized_aggregate` computes its aggregates from: the answer over the
  // rows seen.
  method QueryBatch(store: ColumnarStore, w: Where) returns (out: Batch)
    requires store.Valid() && store.columns != [] && Fits(w, |store.columns|)
    ensures SafeFor(store, w) ==> IsFiltered(First(Table(store.columns), Seen(store, w)), w, out)
    ensures SafeFor(store, w) && !w.Complex? ==>
      exists rows :: Answers(First(Table(store.columns), Seen(store, w)), w, out, rows)
  {
    var zs := PruneWithZoneMaps(store, w);
    ReadsSeen(store, w);
    var b;
    if |zs| < ZoneCount(store.rowCount) {
      b := BatchFromZones(store, zs);
    } else {
      b := FromColumnar(store);
    }
    out := Filter(b, w);
    if |zs| < ZoneCount(store.rowCount) && SafeFor(store, w) {
      ReadAnswers(store, w, b, out);
    }
    if SafeFor(store, w) && !w.Complex? {
      ghost var rows := FilterAnswers(First(Table(store.columns), Seen(store, w)), w, out);
    }
  }

  lemma ColumnIff<T>(column: seq<T>, key: seq<Value>, seen: nat, op: Op, k: Value)
    requires |column| == |key| && seen <= |key|
    ensures Passing(column[..seen], key[..seen], op, k) == Passing(column, key, op, k) <==> NonePass(op, key[seen..], k)
  {
    PassingAppend(column[..seen], column[seen..], key[..seen], key[seen..], op, k);
    assert column == column[..seen] + column[seen..] && key == key[..seen] + key[seen..];
    PassingNone(column[seen..], key[seen..], op, k);
  }

  // The answer over the rows seen is the answer over all rows exactly when no later
  // row passes; then every aggregate over it is right too.
  lemma AnswerIff(t: seq<seq<Value>>, total: nat, seen: nat, w: Where, out: Batch)
    requires t != [] && !w.Complex? && w.col < |t| && seen <= total && forall c | 0 <= c < |t| :: |t[c]| == total
    requires IsFiltered(First(t, seen), w, out)
    ensures IsFiltered(First(t, total), w, out) <==> NonePass(OpOf(w), t[w.col][seen..], w.lit)
  {
    FirstRectangular(t, seen, total);
    FirstRectangular(t, total, total);
    forall c: nat
      ensures c < |t| ==>
        (ColumnFiltered(First(t, total), w, out, c) <==> NonePass(OpOf(w), t[w.col][seen..], w.lit))
    {
      if c < |t| {
        assert ColumnFiltered(First(t, seen), w, out, c);
        assert t[c][..total] == t[c] && t[w.col][..total] == t[w.col];
        ColumnIff(t[c], t[w.col], seen, OpOf(w), w.lit);
      }
    }
    assert ColumnFiltered(First(t, total), w, out, w.col) <==> NonePass(OpOf(w), t[w.col][seen..], w.lit);
  }

  // One column of a thousand and one ones, whose maps are those of its full zone.
  ghost predicate OneTooMany(store: ColumnarStore)
    reads store
  {
    store.Valid() && store.Aligned() && |store.columns| == 1 && Values(store.columns[0]) == Repeat(Int(1), ZONE_SIZE + 1)
  }

  // Its last row passes `col > 0`, is not seen, and is missing from the answer.
  lemma StaleIsLost(store: ColumnarStore, out: Batch)
    requires OneTooMany(store)
    ensures
      var w := ColumnFirst(0, Gt, Int(0));
      && SafeFor(store, w) && store.rowCount == ZONE_SIZE + 1 && Seen(store, w) == ZONE_SIZE
      && !(IsFiltered(First(Table(store.columns), Seen(store, w)), w, out)
           && IsFiltered(First(Table(store.columns), store.rowCount), w, out))
  {
    var w, key, zones := ColumnFirst(0, Gt, Int(0)), Values(store.columns[0]), store.zoneMaps[0];
    assert |key| == store.rowCount;
    forall z: nat
      ensures SafeZone(zones, key[..ZONE_SIZE], z, Gt, Int(0))
    {
      if z < |zones| {
        assert ZoneAt(zones, key[..ZONE_SIZE], z);
        OneKindBounded(zones[z], ZoneRows(key[..ZONE_SIZE], z));
      }
    }
    if IsFiltered(First(Table(store.columns), ZONE_SIZE), w, out) {
      AnswerIff(Table(store.columns), store.rowCount, ZONE_SIZE, w, out);
      assert CmpOp(Gt, key[ZONE_SIZE..][0], Int(0));
    }
  }

  // Such a store comes from inserting the rows and asking.
  method LoseRow() returns (store: ColumnarStore, out: Batch)
    ensures OneTooMany(store)
    ensures !IsFiltered(First(Table(store.columns), store.rowCount), ColumnFirst(0, Gt, Int(0)), out)
  {
    var rows := seq(ZONE_SIZE + 1, _ => [Int(1)]);
    store := new ColumnarStore();
    store.InsertRows(1, rows);
    assert Values(store.columns[0]) == Repeat(Int(1), ZONE_SIZE + 1);
    StaleIsLost(store, Batch([], 0));
    out := QueryBatch(store, ColumnFirst(0, Gt, Int(0)));
    StaleIsLost(store, out);
  }
}
