// What `@>` means (crates/storage/src/jsonb.rs, `json_contains_val`), said without
// the recursion that decides it: an embedding of the inner value in the outer one.
module Containment {
  import opened JsonValue
  import opened Jsonb

  // Where the parts of the inner value go. `Same`: an equal scalar. `Each`: child `i`
  // goes into child `places[i]`, an object's under the same key. `Into`: the whole of it
  // goes into one item of an array.
  datatype Embedding =
    | Same
    | Each(places: seq<nat>, parts: seq<Embedding>)
    | Into(place: nat, part: Embedding)

  predicate Scalar(v: Value) { !v.Array? && !v.Object? }

  ghost predicate Embeds(e: Embedding, outer: Value, inner: Value)
    decreases e, 1
  {
    match e
    case Same => Scalar(outer) && outer == inner
    case Into(j, part) => outer.Array? && !inner.Array? && j < |outer.items| && Embeds(part, outer.items[j], inner)
    case Each(places, parts) =>
      && |places| == |parts|
      && ((outer.Array? && inner.Array?) || (outer.Object? && inner.Object?))
      && |parts| == (if inner.Array? then |inner.items| else |inner.members|)
      && forall i | 0 <= i < |parts| :: EmbedsChild(places[i], parts[i], outer, inner, i)
  }

  ghost predicate EmbedsChild(j: nat, part: Embedding, outer: Value, inner: Value, i: nat)
    requires if inner.Array? then outer.Array? && i < |inner.items| else inner.Object? && outer.Object? && i < |inner.members|
    decreases part, 2
  {
    if inner.Array? then j < |outer.items| && Embeds(part, outer.items[j], inner.items[i])
    else
      && j < |outer.members| && outer.members[j].key == inner.members[i].key
      && Embeds(part, outer.members[j].value, inner.members[i].value)
  }

  // ---- Containment is embedding ----

  lemma {:induction false} EmbeddedIsContained(e: Embedding, outer: Value, inner: Value)
    requires Embeds(e, outer, inner)
    ensures Contains(outer, inner)
    decreases e
  {
    match e
    case Same =>
    case Into(j, part) => EmbeddedIsContained(part, outer.items[j], inner);
    case Each(places, parts) =>
      if inner.Array? {
        forall i | 0 <= i < |inner.items| ensures HasItem(outer.items, inner.items[i]) {
          assert EmbedsChild(places[i], parts[i], outer, inner, i);
          EmbeddedIsContained(parts[i], outer.items[places[i]], inner.items[i]);
        }
      } else {
        forall i | 0 <= i < |inner.members| ensures HasMember(outer.members, inner.members[i]) {
          assert EmbedsChild(places[i], parts[i], outer, inner, i);
          EmbeddedIsContained(parts[i], outer.members[places[i]].value, inner.members[i].value);
        }
      }
  }

  lemma {:induction false} ContainedIsEmbedded(outer: Value, inner: Value) returns (e: Embedding)
    requires Contains(outer, inner)
    ensures Embeds(e, outer, inner)
    decreases outer, inner, 1
  {
    if outer.Object? && inner.Object? {
      var places, parts := MembersEmbedded(outer, inner, |inner.members|);
      e := Each(places, parts);
    } else if outer.Array? && inner.Array? {
      var places, parts := ItemsEmbedded(outer, inner, |inner.items|);
      e := Each(places, parts);
    } else if outer.Array? {
      var j :| 0 <= j < |outer.items| && Contains(outer.items[j], inner);
      var part := ContainedIsEmbedded(outer.items[j], inner);
      e := Into(j, part);
    } else {
      e := Same;
    }
  }

  lemma {:induction false} MembersEmbedded(outer: Value, inner: Value, n: nat)
    returns (places: seq<nat>, parts: seq<Embedding>)
    requires outer.Object? && inner.Object? && n <= |inner.members|
    requires forall i | 0 <= i < |inner.members| :: HasMember(outer.members, inner.members[i])
    ensures |places| == |parts| == n && forall i | 0 <= i < n :: EmbedsChild(places[i], parts[i], outer, inner, i)
    decreases outer, inner, 0, n
  {
    places, parts := [], [];
    if n > 0 {
      places, parts := MembersEmbedded(outer, inner, n - 1);
      var os, m := outer.members, inner.members[n - 1];
      assert HasMember(os, m);
      var j :| 0 <= j < |os| && os[j].key == m.key && Contains(os[j].value, m.value);
      var part := ContainedIsEmbedded(os[j].value, m.value);
      assert EmbedsChild(j, part, outer, inner, n - 1);
      places, parts := places + [j], parts + [part];
    }
  }

  lemma {:induction false} ItemsEmbedded(outer: Value, inner: Value, n: nat)
    returns (places: seq<nat>, parts: seq<Embedding>)
    requires outer.Array? && inner.Array? && n <= |inner.items|
    requires forall i | 0 <= i < |inner.items| :: HasItem(outer.items, inner.items[i])
    ensures |places| == |parts| == n && forall i | 0 <= i < n :: EmbedsChild(places[i], parts[i], outer, inner, i)
    decreases outer, inner, 0, n
  {
    places, parts := [], [];
    if n > 0 {
      places, parts := ItemsEmbedded(outer, inner, n - 1);
      var v := inner.items[n - 1];
      assert HasItem(outer.items, v);
      var j :| 0 <= j < |outer.items| && Contains(outer.items[j], v);
      var part := ContainedIsEmbedded(outer.items[j], v);
      assert EmbedsChild(j, part, outer, inner, n - 1);
      places, parts := places + [j], parts + [part];
    }
  }

  lemma ContainsIffEmbeds(outer: Value, inner: Value)
    ensures Contains(outer, inner) <==> exists e :: Embeds(e, outer, inner)
  {
    if Contains(outer, inner) {
      var e := ContainedIsEmbedded(outer, inner);
      assert Embeds(e, outer, inner);
    }
    if exists e :: Embeds(e, outer, inner) {
      var e :| Embeds(e, outer, inner);
      EmbeddedIsContained(e, outer, inner);
    }
  }

  // ---- Leaves ----

  datatype Turn = Key(key: Bytes) | Item

  // `leaf` is a scalar in `v`, down the path.
  ghost predicate LeafAt(v: Value, path: seq<Turn>, leaf: Value)
    decreases |path|
  {
    if path == [] then Scalar(v) && v == leaf
    else if path[0].Item? then v.Array? && exists j :: 0 <= j < |v.items| && LeafAt(v.items[j], path[1..], leaf)
    else v.Object? && exists j :: 0 <= j < |v.members| && v.members[j].key == path[0].key && LeafAt(v.members[j].value, path[1..], leaf)
  }

  // The keys along a path.
  function Keys(path: seq<Turn>): seq<Bytes> {
    if path == [] then [] else (if path[0].Key? then [path[0].key] else []) + Keys(path[1..])
  }

  lemma LeafUnder(v: Value, j: nat, path: seq<Turn>, leaf: Value)
    ensures v.Array? && j < |v.items| && LeafAt(v.items[j], path, leaf) ==> LeafAt(v, [Item] + path, leaf)
    ensures v.Object? && j < |v.members| && LeafAt(v.members[j].value, path, leaf) ==> LeafAt(v, [Key(v.members[j].key)] + path, leaf)
    ensures Keys([Item] + path) == Keys(path)
    ensures forall k :: Keys([Key(k)] + path) == [k] + Keys(path)
  {
    assert ([Item] + path)[1..] == path;
    assert forall k :: ([Key(k)] + path)[1..] == path;
  }

  // Every leaf of the inner value is in the outer one, under the same keys.
  lemma {:induction false} LeavesAreMet(outer: Value, inner: Value, path: seq<Turn>, leaf: Value) returns (met: seq<Turn>)
    requires Contains(outer, inner) && LeafAt(inner, path, leaf)
    ensures LeafAt(outer, met, leaf) && Keys(met) == Keys(path)
    decreases outer, inner, path
  {
    met := [];
    if outer.Array? && inner.Array? {
      var i :| 0 <= i < |inner.items| && LeafAt(inner.items[i], path[1..], leaf);
      assert HasItem(outer.items, inner.items[i]);
      var j :| 0 <= j < |outer.items| && Contains(outer.items[j], inner.items[i]);
      met := LeavesAreMet(outer.items[j], inner.items[i], path[1..], leaf);
      LeafUnder(outer, j, met, leaf);
      met := [Item] + met;
    } else if outer.Array? {
      var j :| 0 <= j < |outer.items| && Contains(outer.items[j], inner);
      met := LeavesAreMet(outer.items[j], inner, path, leaf);
      LeafUnder(outer, j, met, leaf);
      met := [Item] + met;
    } else if outer.Object? && inner.Object? {
      var i :| 0 <= i < |inner.members| && inner.members[i].key == path[0].key && LeafAt(inner.members[i].value, path[1..], leaf);
      assert HasMember(outer.members, inner.members[i]);
      var os, m := outer.members, inner.members[i];
      var j :| 0 <= j < |os| && os[j].key == m.key && Contains(os[j].value, m.value);
      met := LeavesAreMet(os[j].value, m.value, path[1..], leaf);
      LeafUnder(outer, j, met, leaf);
      met := [Key(os[j].key)] + met;
    }
  }

  // ---- Dropping parts ----

  // `w` is `v` without one item or one member, somewhere inside.
  ghost predicate DropsOne(v: Value, w: Value)
    decreases v, 1
  {
    exists i: nat :: DropsAt(v, w, i)
  }

  // Without child `i`, or without something inside child `i`.
  ghost predicate DropsAt(v: Value, w: Value, i: nat)
    decreases v, 0
  {
    if v.Array? && w.Array? && i < |v.items| then
      || w.items == v.items[..i] + v.items[i + 1..]
      || (|w.items| == |v.items| && DropsOne(v.items[i], w.items[i]) && w.items == v.items[i := w.items[i]])
    else if v.Object? && w.Object? && i < |v.members| then
      || w.members == v.members[..i] + v.members[i + 1..]
      || (&& |w.members| == |v.members| && DropsOne(v.members[i].value, w.members[i].value)
          && w.members == v.members[i := Member(v.members[i].key, w.members[i].value)])
    else false
  }

  lemma {:induction false} DroppedIsContained(v: Value, w: Value)
    requires DropsOne(v, w)
    ensures Contains(v, w)
  {
    var i: nat :| DropsAt(v, w, i);
    if v.Array? {
      forall k | 0 <= k < |w.items| ensures HasItem(v.items, w.items[k]) {
        if k == i && |w.items| == |v.items| {
          DroppedIsContained(v.items[i], w.items[i]);
        } else {
          var from := if k < i || |w.items| == |v.items| then k else k + 1;
          assert w.items[k] == v.items[from];
          ContainsReflexive(v.items[from]);
        }
      }
    } else {
      forall k | 0 <= k < |w.members| ensures HasMember(v.members, w.members[k]) {
        if k == i && |w.members| == |v.members| {
          DroppedIsContained(v.members[i].value, w.members[i].value);
        } else {
          var from := if k < i || |w.members| == |v.members| then k else k + 1;
          assert w.members[k] == v.members[from];
          ContainsReflexive(v.members[from].value);
        }
      }
    }
  }

  // ---- Putting values inside others ----

  lemma Wrapped(a: Value, b: Value, items: seq<Value>, members: seq<Member>, j: nat)
    requires Contains(a, b)
    ensures j < |items| && items[j] == a ==> Contains(Array(items), Array([b])) && (!b.Array? ==> Contains(Array(items), b))
    ensures j < |members| && members[j].value == a ==> Contains(Object(members), Object([Member(members[j].key, b)]))
  {
    assert j < |items| && items[j] == a ==> HasItem(items, b);
    assert j < |members| && members[j].value == a ==> HasMember(members, Member(members[j].key, b));
  }

  // ---- The loops ----

  method ContainsVal(outer: Value, inner: Value) returns (r: bool)
    ensures r == Contains(outer, inner)
    decreases outer, inner, 1
  {
    match (outer, inner)
    case (Object(os), Object(ins)) =>
      for i := 0 to |ins|
        invariant forall k | 0 <= k < i :: HasMember(os, ins[k])
      {
        var found := AnyMember(os, ins[i]);
        if !found {
          return false;
        }
      }
      r := true;
    case (Array(os), Array(ins)) =>
      for i := 0 to |ins|
        invariant forall k | 0 <= k < i :: HasItem(os, ins[k])
      {
        var found := AnyItem(os, ins[i]);
        if !found {
          return false;
        }
      }
      r := true;
    case (Array(os), _) => r := AnyItem(os, inner);
    case _ => r := outer == inner;
  }

  method AnyItem(os: seq<Value>, v: Value) returns (r: bool)
    ensures r == HasItem(os, v)
    decreases os, v, 0
  {
    for j := 0 to |os|
      invariant forall k | 0 <= k < j :: !Contains(os[k], v)
    {
      var here := ContainsVal(os[j], v);
      if here {
        return true;
      }
    }
    r := false;
  }

  method AnyMember(os: seq<Member>, m: Member) returns (r: bool)
    ensures r == HasMember(os, m)
    decreases os, m, 0
  {
    for j := 0 to |os|
      invariant forall k | 0 <= k < j :: !(os[k].key == m.key && Contains(os[k].value, m.value))
    {
      if os[j].key == m.key {
        var here := ContainsVal(os[j].value, m.value);
        if here {
          return true;
        }
      }
    }
    r := false;
  }

  // On encoded values; malformed ones contain nothing and are in nothing.
  method JsonbContains(outer: Bytes, inner: Bytes) returns (r: bool)
    ensures r <==> Decode(outer).Ok? && Decode(inner).Ok? && Contains(Decode(outer).value, Decode(inner).value)
  {
    assert outer[0..] == outer && inner[0..] == inner;
    var a, _ := DecodeVal(outer, 0);
    if a.None? {
      return false;
    }
    var b, _ := DecodeVal(inner, 0);
    if b.None? {
      return false;
    }
    r := ContainsVal(a.value, b.value);
  }
}
