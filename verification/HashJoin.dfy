// Inner joins on one equality, crates/sql/src/executor.rs and crates/sql/src/spill.rs:
// nested loops, a hash table in memory, and hash tables over spilled partitions.
module HashJoin {
  import Spill

  type Value = Spill.Value
  type Row = Spill.Row

  // How two key values are matched.
  type Matching = (Value, Value) -> bool

  // How a key value is printed for hashing.
  type Render = Value -> string

  function Key(row: Row, c: nat): Value { if c < |row| then row[c] else Spill.Null }

  // SQL equality, under which NULL equals nothing.
  const SqlEq: Matching := (a: Value, b: Value) => !a.Null? && a == b

  function SameText(render: Render): Matching { (a: Value, b: Value) => render(a) == render(b) }

  ghost predicate Injective(render: Render) {
    forall a, b :: render(a) == render(b) ==> a == b
  }

  // ---- The join ----

  // The joined rows of one left row, in the order of the right rows.
  function Pairs(l: Row, right: seq<Row>, li: nat, ri: nat, m: Matching): seq<Row> {
    if right == [] then []
    else
      var init, r := right[..|right| - 1], right[|right| - 1];
      Pairs(l, init, li, ri, m) + (if m(Key(l, li), Key(r, ri)) then [l + r] else [])
  }

  function Joined(left: seq<Row>, right: seq<Row>, li: nat, ri: nat, m: Matching): seq<Row> {
    if left == [] then []
    else Joined(left[..|left| - 1], right, li, ri, m) + Pairs(left[|left| - 1], right, li, ri, m)
  }

  // ---- What a join is ----

  // Pair `p` is of a left and a right row whose keys match.
  ghost predicate Meets(left: seq<Row>, right: seq<Row>, li: nat, ri: nat, m: Matching, p: (nat, nat)) {
    p.0 < |left| && p.1 < |right| && m(Key(left[p.0], li), Key(right[p.1], ri))
  }

  predicate Before(p: (nat, nat), q: (nat, nat)) { p.0 < q.0 || (p.0 == q.0 && p.1 < q.1) }

  predicate InOrder(ps: seq<(nat, nat)>) { forall i, j | 0 <= i < j < |ps| :: Before(ps[i], ps[j]) }

  // `out` lists the left row and the right row of every pair that matches, once, left rows
  // first in order.
  ghost predicate IsJoin(left: seq<Row>, right: seq<Row>, li: nat, ri: nat, m: Matching, out: seq<Row>, ps: seq<(nat, nat)>) {
    && |out| == |ps| && InOrder(ps)
    && (forall p :: p in ps <==> Meets(left, right, li, ri, m, p))
    && (forall i | 0 <= i < |ps| :: ps[i].0 < |left| && ps[i].1 < |right| && out[i] == left[ps[i].0] + right[ps[i].1])
  }

  // The places of the right rows that match one left row.
  ghost predicate AreMatches(l: Row, right: seq<Row>, li: nat, ri: nat, m: Matching, out: seq<Row>, js: seq<nat>) {
    && |out| == |js| && (forall i, j | 0 <= i < j < |js| :: js[i] < js[j])
    && (forall j: nat :: j in js <==> j < |right| && m(Key(l, li), Key(right[j], ri)))
    && (forall i | 0 <= i < |js| :: js[i] < |right| && out[i] == l + right[js[i]])
  }

  lemma {:induction false} PairsMatch(l: Row, right: seq<Row>, li: nat, ri: nat, m: Matching) returns (js: seq<nat>)
    ensures AreMatches(l, right, li, ri, m, Pairs(l, right, li, ri, m), js)
  {
    js := [];
    if right != [] {
      var n := |right| - 1;
      var init := right[..n];
      var before := PairsMatch(l, init, li, ri, m);
      js := before + (if m(Key(l, li), Key(right[n], ri)) then [n] else []);
      forall j: nat ensures j in js <==> j < |right| && m(Key(l, li), Key(right[j], ri)) {
        assert j < n ==> init[j] == right[j];
        assert j in before <==> j < n && m(Key(l, li), Key(init[j], ri));
      }
    }
  }

  lemma JoinedSnocIs(left: seq<Row>, l: Row, right: seq<Row>, li: nat, ri: nat, m: Matching, out: seq<Row>, ps: seq<(nat, nat)>,
                     more: seq<Row>, js: seq<nat>) returns (all: seq<(nat, nat)>)
    requires IsJoin(left, right, li, ri, m, out, ps) && AreMatches(l, right, li, ri, m, more, js)
    ensures IsJoin(left + [l], right, li, ri, m, out + more, all)
  {
    var n := |left|;
    var added := seq(|js|, i requires 0 <= i < |js| => (n, js[i]));
    all := ps + added;
    forall p ensures p in all <==> Meets(left + [l], right, li, ri, m, p) {
      assert p in ps <==> Meets(left, right, li, ri, m, p);
      assert p in added <==> p.0 == n && p.1 in js by {
        if p.0 == n && p.1 in js {
          var i :| 0 <= i < |js| && js[i] == p.1;
          assert added[i] == p;
        }
      }
    }
    forall i, j | 0 <= i < j < |all| ensures Before(all[i], all[j]) {
      assert i < |ps| ==> all[i] in ps && Meets(left, right, li, ri, m, all[i]);
    }
  }

  // The join holds exactly the pairs of rows whose keys match.
  lemma {:induction false} JoinedIsJoin(left: seq<Row>, right: seq<Row>, li: nat, ri: nat, m: Matching) returns (ps: seq<(nat, nat)>)
    ensures IsJoin(left, right, li, ri, m, Joined(left, right, li, ri, m), ps)
  {
    ps := [];
    if left != [] {
      var init, l := left[..|left| - 1], left[|left| - 1];
      ps := JoinedIsJoin(init, right, li, ri, m);
      var js := PairsMatch(l, right, li, ri, m);
      ps := JoinedSnocIs(init, l, right, li, ri, m, Joined(init, right, li, ri, m), ps, Pairs(l, right, li, ri, m), js);
      assert init + [l] == left;
    }
  }

  // ---- Where the two matchings differ ----

  ghost predicate HasNull(rows: seq<Row>, c: nat) {
    exists i :: 0 <= i < |rows| && Key(rows[i], c).Null?
  }

  lemma {:induction false} PairsSame(l: Row, right: seq<Row>, li: nat, ri: nat, render: Render)
    requires Injective(render) && !(Key(l, li).Null? && HasNull(right, ri))
    ensures Pairs(l, right, li, ri, SqlEq) == Pairs(l, right, li, ri, SameText(render))
  {
    if right != [] {
      var init, r := right[..|right| - 1], right[|right| - 1];
      assert forall i | 0 <= i < |init| :: init[i] == right[i];
      PairsSame(l, init, li, ri, render);
      assert Key(r, ri).Null? ==> HasNull(right, ri);
    }
  }

  lemma {:induction false} PairsMore(l: Row, right: seq<Row>, li: nat, ri: nat, render: Render)
    requires Injective(render)
    ensures |Pairs(l, right, li, ri, SqlEq)| <= |Pairs(l, right, li, ri, SameText(render))|
    ensures Key(l, li).Null? && HasNull(right, ri) ==>
      |Pairs(l, right, li, ri, SqlEq)| < |Pairs(l, right, li, ri, SameText(render))|
  {
    if right != [] {
      var init, r := right[..|right| - 1], right[|right| - 1];
      PairsMore(l, init, li, ri, render);
      if i :| 0 <= i < |right| && Key(right[i], ri).Null? {
        assert i < |init| ==> Key(init[i], ri).Null?;
      }
    }
  }

  lemma {:induction false} JoinedSame(left: seq<Row>, right: seq<Row>, li: nat, ri: nat, render: Render)
    requires Injective(render) && !(HasNull(left, li) && HasNull(right, ri))
    ensures Joined(left, right, li, ri, SqlEq) == Joined(left, right, li, ri, SameText(render))
  {
    if left != [] {
      var init, l := left[..|left| - 1], left[|left| - 1];
      assert forall i | 0 <= i < |init| :: init[i] == left[i];
      JoinedSame(init, right, li, ri, render);
      assert Key(l, li).Null? ==> HasNull(left, li);
      PairsSame(l, right, li, ri, render);
    }
  }

  lemma {:induction false} JoinedMore(left: seq<Row>, right: seq<Row>, li: nat, ri: nat, render: Render)
    requires Injective(render)
    ensures |Joined(left, right, li, ri, SqlEq)| <= |Joined(left, right, li, ri, SameText(render))|
    ensures HasNull(left, li) && HasNull(right, ri) ==>
      |Joined(left, right, li, ri, SqlEq)| < |Joined(left, right, li, ri, SameText(render))|
  {
    if left != [] {
      var init, l := left[..|left| - 1], left[|left| - 1];
      JoinedMore(init, right, li, ri, render);
      PairsMore(l, right, li, ri, render);
      if i :| 0 <= i < |left| && Key(left[i], li).Null? {
        assert i < |init| ==> Key(init[i], li).Null?;
      }
    }
  }

  // Matching by printed keys is SQL's join, row for row, exactly when not both sides
  // have a NULL key.
  lemma HashJoinIff(left: seq<Row>, right: seq<Row>, li: nat, ri: nat, render: Render)
    requires Injective(render)
    ensures Joined(left, right, li, ri, SqlEq) == Joined(left, right, li, ri, SameText(render))
      <==> !(HasNull(left, li) && HasNull(right, ri))
    ensures multiset(Joined(left, right, li, ri, SqlEq)) == multiset(Joined(left, right, li, ri, SameText(render)))
      <==> !(HasNull(left, li) && HasNull(right, ri))
  {
    JoinedMore(left, right, li, ri, render);
    var a, b := Joined(left, right, li, ri, SqlEq), Joined(left, right, li, ri, SameText(render));
    assert |multiset(a)| == |a| && |multiset(b)| == |b|;
    if !(HasNull(left, li) && HasNull(right, ri)) {
      JoinedSame(left, right, li, ri, render);
    }
  }

  // Two NULL keys meet in the hash table, but are not equal in SQL.
  lemma NullKeysMeet(render: Render)
    ensures
      var row: Row := [Spill.Null];
      Joined([row], [row], 0, 0, SqlEq) == [] && Joined([row], [row], 0, 0, SameText(render)) == [row + row]
  {
    OneByOne([Spill.Null], [Spill.Null], SqlEq);
    OneByOne([Spill.Null], [Spill.Null], SameText(render));
  }

  lemma OneByOne(l: Row, r: Row, m: Matching)
    ensures Joined([l], [r], 0, 0, m) == if m(Key(l, 0), Key(r, 0)) then [l + r] else []
  {
    assert [l][..0] == [] && [r][..0] == [];
    assert Pairs(l, [], 0, 0, m) == [] && Joined([], [r], 0, 0, m) == [];
    assert Pairs(l, [r], 0, 0, m) == if m(Key(l, 0), Key(r, 0)) then [l + r] else [];
  }

  // ---- Partitions ----

  // The rows of one bucket.
  function Bucket(rows: seq<Row>, c: nat, hash: Value -> nat, b: nat): seq<Row> {
    if rows == [] then []
    else
      var init, r := rows[..|rows| - 1], rows[|rows| - 1];
      Bucket(init, c, hash, b) + (if hash(Key(r, c)) == b then [r] else [])
  }

  function BucketJoin(left: seq<Row>, right: seq<Row>, li: nat, ri: nat, hash: Value -> nat, m: Matching, b: nat): seq<Row> {
    Joined(Bucket(left, li, hash, b), Bucket(right, ri, hash, b), li, ri, m)
  }

  function Concat(parts: nat -> seq<Row>, n: nat): seq<Row> {
    if n == 0 then [] else Concat(parts, n - 1) + parts(n - 1)
  }

  // The join of the first `n` buckets, one after another.
  function BucketJoins(left: seq<Row>, right: seq<Row>, li: nat, ri: nat, hash: Value -> nat, n: nat, m: Matching): seq<Row> {
    Concat((b: nat) => BucketJoin(left, right, li, ri, hash, m, b), n)
  }

  // Keys that match fall into one bucket.
  ghost predicate Respects(hash: Value -> nat, m: Matching) {
    forall a, b :: m(a, b) ==> hash(a) == hash(b)
  }

  lemma PairsSnoc(l: Row, right: seq<Row>, r: Row, li: nat, ri: nat, m: Matching)
    ensures Pairs(l, right + [r], li, ri, m) == Pairs(l, right, li, ri, m) + (if m(Key(l, li), Key(r, ri)) then [l + r] else [])
  {
    assert (right + [r])[..|right|] == right;
  }

  lemma JoinedSnoc(left: seq<Row>, l: Row, right: seq<Row>, li: nat, ri: nat, m: Matching)
    ensures Joined(left + [l], right, li, ri, m) == Joined(left, right, li, ri, m) + Pairs(l, right, li, ri, m)
  {
    assert (left + [l])[..|left|] == left;
  }

  lemma BucketSnoc(rows: seq<Row>, r: Row, c: nat, hash: Value -> nat, b: nat)
    ensures Bucket(rows + [r], c, hash, b) == Bucket(rows, c, hash, b) + (if hash(Key(r, c)) == b then [r] else [])
  {
    assert (rows + [r])[..|rows|] == rows;
  }

  // The join of one bucket after one more left row.
  lemma BucketNext(init: seq<Row>, l: Row, right: seq<Row>, li: nat, ri: nat, hash: Value -> nat, b: nat, m: Matching)
    requires Respects(hash, m)
    ensures Joined(Bucket(init + [l], li, hash, b), Bucket(right, ri, hash, b), li, ri, m)
      == Joined(Bucket(init, li, hash, b), Bucket(right, ri, hash, b), li, ri, m)
       + (if hash(Key(l, li)) == b then Pairs(l, right, li, ri, m) else [])
  {
    BucketSnoc(init, l, li, hash, b);
    if hash(Key(l, li)) == b {
      JoinedSnoc(Bucket(init, li, hash, b), l, Bucket(right, ri, hash, b), li, ri, m);
      PairsInBucket(l, right, li, ri, hash, m);
    } else {
      var part := Bucket(init, li, hash, b);
      assert part + [] == part;
    }
  }

  lemma {:induction false} PairsInBucket(l: Row, right: seq<Row>, li: nat, ri: nat, hash: Value -> nat, m: Matching)
    requires Respects(hash, m)
    ensures Pairs(l, Bucket(right, ri, hash, hash(Key(l, li))), li, ri, m) == Pairs(l, right, li, ri, m)
  {
    if right != [] {
      var init, r := right[..|right| - 1], right[|right| - 1];
      var b := hash(Key(l, li));
      PairsInBucket(l, init, li, ri, hash, m);
      var before := Bucket(init, ri, hash, b);
      assert m(Key(l, li), Key(r, ri)) ==> hash(Key(r, ri)) == b;
      if hash(Key(r, ri)) == b {
        assert Bucket(right, ri, hash, b) == before + [r];
        PairsSnoc(l, before, r, li, ri, m);
      } else {
        assert Bucket(right, ri, hash, b) == before + [] == before;
      }
    }
  }

  lemma GrownOnce(was: seq<Row>, now: seq<Row>, part: seq<Row>, grown: seq<Row>, pairs: seq<Row>, early: bool, here: bool)
    requires !(early && here)
    requires multiset(now) == multiset(was) + (if early then multiset(pairs) else multiset{})
    requires grown == part + (if here then pairs else [])
    ensures multiset(now + grown) == multiset(was + part) + (if early || here then multiset(pairs) else multiset{})
  {
  }

  // Growing one part grows the whole by as much.
  lemma {:induction false} ConcatGrows(parts: nat -> seq<Row>, grown: nat -> seq<Row>, pairs: seq<Row>, at: nat, n: nat)
    requires forall b: nat :: grown(b) == parts(b) + (if b == at then pairs else [])
    ensures multiset(Concat(grown, n)) == multiset(Concat(parts, n)) + (if at < n then multiset(pairs) else multiset{})
  {
    if n > 0 {
      ConcatGrows(parts, grown, pairs, at, n - 1);
      GrownOnce(Concat(parts, n - 1), Concat(grown, n - 1), parts(n - 1), grown(n - 1), pairs, at < n - 1, at == n - 1);
    }
  }

  // One more left row adds its pairs once, in its own bucket.
  lemma BucketJoinsNext(init: seq<Row>, l: Row, right: seq<Row>, li: nat, ri: nat, hash: Value -> nat, n: nat, m: Matching)
    requires Respects(hash, m) && hash(Key(l, li)) < n
    ensures multiset(BucketJoins(init + [l], right, li, ri, hash, n, m))
      == multiset(BucketJoins(init, right, li, ri, hash, n, m)) + multiset(Pairs(l, right, li, ri, m))
  {
    var parts := (b: nat) => BucketJoin(init, right, li, ri, hash, m, b);
    var grown := (b: nat) => BucketJoin(init + [l], right, li, ri, hash, m, b);
    forall b: nat
      ensures grown(b) == parts(b) + (if b == hash(Key(l, li)) then Pairs(l, right, li, ri, m) else [])
    {
      BucketNext(init, l, right, li, ri, hash, b, m);
    }
    ConcatGrows(parts, grown, Pairs(l, right, li, ri, m), hash(Key(l, li)), n);
  }

  lemma {:induction false} NoneConcat(parts: nat -> seq<Row>, n: nat)
    requires forall b: nat :: parts(b) == []
    ensures Concat(parts, n) == []
  {
    if n > 0 {
      NoneConcat(parts, n - 1);
    }
  }

  // The fact of the theorem below, kept under a trigger so that the induction does
  // not expand the joins.
  predicate Unfold(i: int) { true }

  ghost predicate SameRows(left: seq<Row>, right: seq<Row>, li: nat, ri: nat, hash: Value -> nat, n: nat, m: Matching) {
    forall i {:trigger Unfold(i)} :: Unfold(i) ==>
      multiset(BucketJoins(left, right, li, ri, hash, n, m)) == multiset(Joined(left, right, li, ri, m))
  }

  lemma SameRowsNone(right: seq<Row>, li: nat, ri: nat, hash: Value -> nat, n: nat, m: Matching)
    ensures SameRows([], right, li, ri, hash, n, m)
  {
    NoneConcat((b: nat) => BucketJoin([], right, li, ri, hash, m, b), n);
  }

  lemma SameRowsNext(init: seq<Row>, l: Row, right: seq<Row>, li: nat, ri: nat, hash: Value -> nat, n: nat, m: Matching)
    requires SameRows(init, right, li, ri, hash, n, m) && Respects(hash, m) && hash(Key(l, li)) < n
    ensures SameRows(init + [l], right, li, ri, hash, n, m)
  {
    assert Unfold(0);
    BucketJoinsNext(init, l, right, li, ri, hash, n, m);
    JoinedSnoc(init, l, right, li, ri, m);
  }

  lemma {:induction false} RowsSame(left: seq<Row>, right: seq<Row>, li: nat, ri: nat, hash: Value -> nat, n: nat, m: Matching)
    requires Respects(hash, m) && forall a :: hash(a) < n
    ensures SameRows(left, right, li, ri, hash, n, m)
  {
    if left == [] {
      SameRowsNone(right, li, ri, hash, n, m);
    } else {
      var init, l := left[..|left| - 1], left[|left| - 1];
      RowsSame(init, right, li, ri, hash, n, m);
      SameRowsNext(init, l, right, li, ri, hash, n, m);
      assert left == init + [l];
    }
  }

  // Joining bucket by bucket gives the rows of the whole join, whatever the hash and
  // the number of buckets.
  lemma PartitionedJoin(left: seq<Row>, right: seq<Row>, li: nat, ri: nat, hash: Value -> nat, n: nat, m: Matching)
    requires Respects(hash, m) && forall a :: hash(a) < n
    ensures multiset(BucketJoins(left, right, li, ri, hash, n, m)) == multiset(Joined(left, right, li, ri, m))
  {
    RowsSame(left, right, li, ri, hash, n, m);
    assert Unfold(0);
  }

  // ---- The loops ----

  function Concatenated(l: Row, rows: seq<Row>): seq<Row> {
    if rows == [] then [] else Concatenated(l, rows[..|rows| - 1]) + [l + rows[|rows| - 1]]
  }

  // The rows filed under a printed key.
  function Filed(rows: seq<Row>, c: nat, render: Render, text: string): seq<Row> {
    if rows == [] then []
    else
      var init, r := rows[..|rows| - 1], rows[|rows| - 1];
      Filed(init, c, render, text) + (if render(Key(r, c)) == text then [r] else [])
  }

  lemma FiledSnoc(rows: seq<Row>, r: Row, c: nat, render: Render, text: string)
    ensures Filed(rows + [r], c, render, text) == Filed(rows, c, render, text) + (if render(Key(r, c)) == text then [r] else [])
  {
    assert (rows + [r])[..|rows|] == rows;
  }

  function Entry(table: map<string, seq<Row>>, text: string): seq<Row> { if text in table then table[text] else [] }

  method BuildTable(rows: seq<Row>, c: nat, render: Render) returns (table: map<string, seq<Row>>)
    requires forall i | 0 <= i < |rows| :: c < |rows[i]|
    ensures forall text :: Entry(table, text) == Filed(rows, c, render, text)
  {
    table := map[];
    for i := 0 to |rows|
      invariant forall text :: Entry(table, text) == Filed(rows[..i], c, render, text)
    {
      var text := render(rows[i][c]);
      ghost var before := table;
      table := table[text := Entry(table, text) + [rows[i]]];
      assert rows[..i + 1] == rows[..i] + [rows[i]];
      forall t
        ensures Entry(table, t) == Filed(rows[..i + 1], c, render, t)
      {
        FiledSnoc(rows[..i], rows[i], c, render, t);
        assert Entry(before, t) == Filed(rows[..i], c, render, t);
      }
    }
    assert rows[..|rows|] == rows;
  }

  // The pairs of a left row are the rows filed under its key.
  lemma {:induction false} PairsFiled(l: Row, right: seq<Row>, li: nat, ri: nat, render: Render)
    ensures Concatenated(l, Filed(right, ri, render, render(Key(l, li)))) == Pairs(l, right, li, ri, SameText(render))
  {
    if right != [] {
      var init, r := right[..|right| - 1], right[|right| - 1];
      var filed := Filed(init, ri, render, render(Key(l, li)));
      PairsFiled(l, init, li, ri, render);
      if render(Key(r, ri)) == render(Key(l, li)) {
        assert (filed + [r])[..|filed|] == filed;
      } else {
        assert filed + [] == filed;
      }
    }
  }

  // Probe the table with each left row.
  method Probe(left: seq<Row>, li: nat, table: map<string, seq<Row>>, render: Render, ghost right: seq<Row>, ghost ri: nat)
    returns (result: seq<Row>)
    requires forall i | 0 <= i < |left| :: li < |left[i]|
    requires forall text :: Entry(table, text) == Filed(right, ri, render, text)
    ensures result == Joined(left, right, li, ri, SameText(render))
  {
    result := [];
    for i := 0 to |left|
      invariant result == Joined(left[..i], right, li, ri, SameText(render))
    {
      var matches := Entry(table, render(left[i][li]));
      var pairs := Extend(left[i], matches);
      PairsFiled(left[i], right, li, ri, render);
      JoinedSnoc(left[..i], left[i], right, li, ri, SameText(render));
      assert left[..i + 1] == left[..i] + [left[i]];
      result := result + pairs;
    }
    assert left[..|left|] == left;
  }

  method Extend(l: Row, rows: seq<Row>) returns (out: seq<Row>)
    ensures out == Concatenated(l, rows)
  {
    out := [];
    for i := 0 to |rows|
      invariant out == Concatenated(l, rows[..i])
    {
      out := out + [l + rows[i]];
      assert rows[..i + 1][..i] == rows[..i];
    }
    assert rows[..|rows|] == rows;
  }

  method MemoryJoin(left: seq<Row>, li: nat, right: seq<Row>, ri: nat, render: Render) returns (result: seq<Row>)
    requires forall i | 0 <= i < |left| :: li < |left[i]|
    requires forall i | 0 <= i < |right| :: ri < |right[i]|
    ensures result == Joined(left, right, li, ri, SameText(render))
  {
    var table := BuildTable(right, ri, render);
    result := Probe(left, li, table, render, right, ri);
  }

  method NestedLoopJoin(left: seq<Row>, li: nat, right: seq<Row>, ri: nat) returns (result: seq<Row>)
    requires forall i | 0 <= i < |left| :: li < |left[i]|
    requires forall i | 0 <= i < |right| :: ri < |right[i]|
    ensures result == Joined(left, right, li, ri, SqlEq)
  {
    result := [];
    for i := 0 to |left|
      invariant result == Joined(left[..i], right, li, ri, SqlEq)
    {
      var l := left[i];
      ghost var before := result;
      for j := 0 to |right|
        invariant result == before + Pairs(l, right[..j], li, ri, SqlEq)
      {
        PairsSnoc(l, right[..j], right[j], li, ri, SqlEq);
        assert right[..j + 1] == right[..j] + [right[j]];
        if SqlEq(l[li], right[j][ri]) {
          result := result + [l + right[j]];
        }
      }
      assert right[..|right|] == right;
      JoinedSnoc(left[..i], l, right, li, ri, SqlEq);
      assert left[..i + 1] == left[..i] + [l];
    }
    assert left[..|left|] == left;
  }

  // ---- The spilled join ----

  // The bucket of a key is taken from the hash of its text.
  function BucketOf(render: Render, hashText: string -> nat, k: nat): Value -> nat
    requires k > 0
  {
    (v: Value) => hashText(render(v)) % k
  }

  ghost predicate FilesHold(files: seq<Spill.Bytes>, rows: seq<Row>, c: nat, hash: Value -> nat) {
    forall b | 0 <= b < |files| :: files[b] == Spill.WriteRows(Bucket(rows, c, hash, b))
  }

  // One file for each bucket.
  method Partition(rows: seq<Row>, c: nat, k: nat, render: Render, hashText: string -> nat) returns (files: seq<Spill.Bytes>)
    requires k > 0 && forall i | 0 <= i < |rows| :: c < |rows[i]|
    ensures |files| == k && FilesHold(files, rows, c, BucketOf(render, hashText, k))
  {
    files := seq(k, _ => []);
    ghost var hash := BucketOf(render, hashText, k);
    for i := 0 to |rows|
      invariant |files| == k && FilesHold(files, rows[..i], c, hash)
    {
      var bucket := hashText(render(rows[i][c])) % k;
      var file := Spill.AppendRow(files[bucket], rows[i]);
      ghost var before := files;
      files := files[bucket := file];
      assert rows[..i + 1] == rows[..i] + [rows[i]];
      forall b | 0 <= b < k
        ensures files[b] == Spill.WriteRows(Bucket(rows[..i + 1], c, hash, b))
      {
        BucketFile(rows[..i], rows[i], c, hash, b);
        assert before[b] == Spill.WriteRows(Bucket(rows[..i], c, hash, b));
      }
    }
    assert rows[..|rows|] == rows;
  }

  lemma BucketFile(rows: seq<Row>, row: Row, c: nat, hash: Value -> nat, b: nat)
    ensures Spill.WriteRows(Bucket(rows + [row], c, hash, b)) == Spill.WriteRows(Bucket(rows, c, hash, b))
      + (if hash(Key(row, c)) == b then Spill.WriteRow(row) else [])
  {
    BucketSnoc(rows, row, c, hash, b);
    if hash(Key(row, c)) == b {
      Spill.WriteRowsSnoc(Bucket(rows, c, hash, b), row);
    } else {
      var part := Bucket(rows, c, hash, b);
      assert part + [] == part && Spill.WriteRows(part) + [] == Spill.WriteRows(part);
    }
  }

  ghost predicate Storable(rows: seq<Row>, c: nat) {
    forall i | 0 <= i < |rows| :: Spill.FitsRow(rows[i]) && c < |rows[i]|
  }

  lemma {:induction false} BucketStorable(rows: seq<Row>, c: nat, d: nat, hash: Value -> nat, b: nat)
    requires Storable(rows, d)
    ensures Storable(Bucket(rows, c, hash, b), d)
  {
    if rows != [] {
      assert Storable(rows[..|rows| - 1], d);
      BucketStorable(rows[..|rows| - 1], c, d, hash, b);
    }
  }

  // One bucket's rows, read back.
  method ReadBucket(file: Spill.Bytes, lossy: Spill.Lossy, ghost rows: seq<Row>, ghost c: nat) returns (read: seq<Row>)
    requires Storable(rows, c) && file == Spill.WriteRows(rows)
    ensures read == rows
  {
    var p := Spill.ReadAll(file, lossy);
    Spill.ReadOfWrite(rows, lossy);
    read := p.value;
  }

  // `partition_hash_join`, for any number of buckets and any hash.
  method SpillJoin(left: seq<Row>, li: nat, right: seq<Row>, ri: nat, k: nat,
                   render: Render, hashText: string -> nat, lossy: Spill.Lossy) returns (result: seq<Row>)
    requires k > 0 && Storable(left, li) && Storable(right, ri)
    ensures result == BucketJoins(left, right, li, ri, BucketOf(render, hashText, k), k, SameText(render))
    ensures multiset(result) == multiset(Joined(left, right, li, ri, SameText(render)))
  {
    var lefts := Partition(left, li, k, render, hashText);
    var rights := Partition(right, ri, k, render, hashText);
    result := JoinBuckets(lefts, rights, left, li, right, ri, BucketOf(render, hashText, k), render, lossy);
    PartitionedJoin(left, right, li, ri, BucketOf(render, hashText, k), k, SameText(render));
  }

  method JoinBuckets(lefts: seq<Spill.Bytes>, rights: seq<Spill.Bytes>, ghost left: seq<Row>, li: nat,
                     ghost right: seq<Row>, ri: nat, ghost hash: Value -> nat, render: Render, lossy: Spill.Lossy)
    returns (result: seq<Row>)
    requires |lefts| == |rights| && Storable(left, li) && Storable(right, ri)
    requires FilesHold(lefts, left, li, hash) && FilesHold(rights, right, ri, hash)
    ensures result == BucketJoins(left, right, li, ri, hash, |lefts|, SameText(render))
  {
    ghost var parts := (b: nat) => BucketJoin(left, right, li, ri, hash, SameText(render), b);
    result := [];
    for b := 0 to |lefts|
      invariant result == Concat(parts, b)
    {
      BucketStorable(left, li, li, hash, b);
      BucketStorable(right, ri, ri, hash, b);
      var part := JoinFiles(lefts[b], rights[b], li, ri, render, lossy, Bucket(left, li, hash, b), Bucket(right, ri, hash, b));
      assert part == parts(b);
      result := result + part;
    }
  }

  method JoinFiles(leftFile: Spill.Bytes, rightFile: Spill.Bytes, li: nat, ri: nat, render: Render, lossy: Spill.Lossy,
                   ghost left: seq<Row>, ghost right: seq<Row>) returns (result: seq<Row>)
    requires Storable(left, li) && Storable(right, ri)
    requires leftFile == Spill.WriteRows(left) && rightFile == Spill.WriteRows(right)
    ensures result == Joined(left, right, li, ri, SameText(render))
  {
    var rows := ReadBucket(rightFile, lossy, right, ri);
    if rows == [] {
      NoRight(left, li, ri, SameText(render));
      return [];
    }
    var table := BuildTable(rows, ri, render);
    var probes := ReadBucket(leftFile, lossy, left, li);
    result := Probe(probes, li, table, render, rows, ri);
  }

  lemma {:induction false} NoRight(left: seq<Row>, li: nat, ri: nat, m: Matching)
    ensures Joined(left, [], li, ri, m) == []
  {
    if left != [] {
      NoRight(left[..|left| - 1], li, ri, m);
    }
  }

  const SPILL_THRESHOLD := 100_000

  // The inner join on an equality: as SQL has it exactly when not both sides have a
  // NULL key. Spilling may change the order of the rows.
  method InnerJoin(left: seq<Row>, li: nat, right: seq<Row>, ri: nat,
                   render: Render, hashText: string -> nat, lossy: Spill.Lossy) returns (result: seq<Row>)
    requires Injective(render)
    requires forall i | 0 <= i < |left| :: li < |left[i]|
    requires forall i | 0 <= i < |right| :: ri < |right[i]|
    requires |right| > SPILL_THRESHOLD ==> Storable(left, li) && Storable(right, ri)
    ensures multiset(result) == multiset(Joined(left, right, li, ri, SqlEq)) <==> !(HasNull(left, li) && HasNull(right, ri))
    ensures |right| <= SPILL_THRESHOLD ==>
      (result == Joined(left, right, li, ri, SqlEq) <==> !(HasNull(left, li) && HasNull(right, ri)))
  {
    HashJoinIff(left, right, li, ri, render);
    if |right| > SPILL_THRESHOLD {
      var k := |right| / SPILL_THRESHOLD + 1;
      k := if k < 2 then 2 else if k > 256 then 256 else k;
      result := SpillJoin(left, li, right, ri, k, render, hashText, lossy);
    } else {
      result := MemoryJoin(left, li, right, ri, render);
    }
  }
}
