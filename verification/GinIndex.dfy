// The posting lists of crates/storage/src/gin.rs. The ghost map `docs` holds the
// tokens under which each tuple is filed; the lists must say the same.
module GinIndex {
  datatype TupleId = TupleId(page: nat, slot: nat)

  predicate Less(a: TupleId, b: TupleId) {
    a.page < b.page || (a.page == b.page && a.slot < b.slot)
  }

  predicate Sorted(list: seq<TupleId>) {
    forall i, j | 0 <= i < j < |list| :: Less(list[i], list[j])
  }

  type Entries<T> = map<T, seq<TupleId>>
  type Docs<T> = map<TupleId, set<T>>

  function Postings<T>(entries: Entries<T>, token: T): seq<TupleId> {
    if token in entries then entries[token] else []
  }

  function DocTokens<T>(docs: Docs<T>, tid: TupleId): set<T> {
    if tid in docs then docs[tid] else {}
  }

  ghost predicate Listed<T(!new)>(list: seq<TupleId>, docs: Docs<T>, token: T) {
    Sorted(list) && forall tid :: tid in list <==> token in DocTokens(docs, tid)
  }

  // Each token's list names exactly the tuples filed under it, in order and
  // once; no list is kept empty.
  ghost predicate IndexOk<T(!new)>(entries: Entries<T>, docs: Docs<T>) {
    && (forall token :: Listed(Postings(entries, token), docs, token))
    && (forall token | token in entries :: entries[token] != [])
  }

  ghost predicate HasAll<T(!new)>(docs: Docs<T>, tid: TupleId, tokens: seq<T>) {
    forall t | t in tokens :: t in DocTokens(docs, tid)
  }

  function Elements<T>(s: seq<T>): set<T> { set x | x in s }

  // ---- One list ----

  method PartitionPoint(list: seq<TupleId>, tid: TupleId) returns (pos: nat)
    requires Sorted(list)
    ensures pos <= |list|
    ensures forall i | 0 <= i < pos :: Less(list[i], tid)
    ensures forall i | pos <= i < |list| :: !Less(list[i], tid)
  {
    var lo, hi := 0, |list|;
    while lo < hi
      invariant lo <= hi <= |list|
      invariant forall i | 0 <= i < lo :: Less(list[i], tid)
      invariant forall i | hi <= i < |list| :: !Less(list[i], tid)
    {
      var mid := (lo + hi) / 2;
      if Less(list[mid], tid) {
        lo := mid + 1;
      } else {
        hi := mid;
      }
    }
    pos := lo;
  }

  lemma InsertedSorted(list: seq<TupleId>, pos: nat, tid: TupleId)
    requires Sorted(list) && pos <= |list|
    requires forall i | 0 <= i < pos :: Less(list[i], tid)
    requires forall i | pos <= i < |list| :: Less(tid, list[i])
    ensures Sorted(list[..pos] + [tid] + list[pos..])
  {
    var out := list[..pos] + [tid] + list[pos..];
    forall i, j | 0 <= i < j < |out|
      ensures Less(out[i], out[j])
    {
      assert i < pos ==> out[i] == list[i];
      assert j > pos ==> out[j] == list[j - 1];
      assert i > pos ==> out[i] == list[i - 1];
    }
  }

  method InsertPosting(list: seq<TupleId>, tid: TupleId) returns (out: seq<TupleId>)
    requires Sorted(list)
    ensures Sorted(out)
    ensures forall t :: t in out <==> t in list || t == tid
  {
    var pos := PartitionPoint(list, tid);
    if pos == |list| || list[pos] != tid {
      assert forall i | pos <= i < |list| :: Less(tid, list[i]) by {
        assert pos < |list| ==> Less(tid, list[pos]);
      }
      InsertedSorted(list, pos, tid);
      out := list[..pos] + [tid] + list[pos..];
      assert out[pos] == tid;
      assert list == list[..pos] + list[pos..];
    } else {
      out := list;
    }
  }

  // `retain` keeps the order of what it keeps.
  method Retain(list: seq<TupleId>, keep: TupleId -> bool) returns (out: seq<TupleId>)
    ensures Sorted(list) ==> Sorted(out)
    ensures forall t :: t in out <==> t in list && keep(t)
  {
    out := [];
    for i := 0 to |list|
      invariant Sorted(list) ==> Sorted(out)
      invariant Sorted(list) && i < |list| ==> forall k | 0 <= k < |out| :: Less(out[k], list[i])
      invariant forall t :: t in out <==> t in list[..i] && keep(t)
    {
      ghost var before := out;
      if keep(list[i]) {
        out := out + [list[i]];
      }
      assert list[..i + 1] == list[..i] + [list[i]];
      assert forall k | 0 <= k < |out| :: out[k] == list[i] || (k < |before| && out[k] == before[k]);
    }
    assert list[..|list|] == list;
  }

  // ---- The index ----

  class Index<T(==, !new)> {
    var entries: Entries<T>
    ghost var docs: Docs<T>

    ghost predicate Valid()
      reads this
    {
      IndexOk(entries, docs)
    }

    constructor ()
      ensures Valid() && entries == map[] && docs == map[]
    {
      entries := map[];
      docs := map[];
    }

    // Inserting files the tuple under the tokens given, besides those it had.
    method Insert(tid: TupleId, tokens: seq<T>)
      requires Valid()
      modifies this
      ensures Valid()
      ensures docs == old(docs)[tid := DocTokens(old(docs), tid) + Elements(tokens)]
    {
      ghost var was := entries;
      ghost var filed := docs[tid := DocTokens(docs, tid) + Elements(tokens)];
      var todo := Elements(tokens);
      while todo != {}
        invariant todo <= Elements(tokens)
        invariant docs == old(docs)
        invariant forall t | t in todo :: Postings(entries, t) == Postings(was, t)
        invariant forall t | t !in todo :: Listed(Postings(entries, t), filed, t)
        invariant forall t | t in entries :: entries[t] != []
      {
        var token :| token in todo;
        assert Listed(Postings(was, token), docs, token);
        var list := InsertPosting(Postings(entries, token), tid);
        assert tid in list;
        entries := entries[token := list];
        todo := todo - {token};
      }
      docs := filed;
    }

    // Removing takes the tuple off every list and drops the lists left empty.
    method Remove(tid: TupleId)
      requires Valid()
      modifies this
      ensures Valid()
      ensures docs == old(docs) - {tid}
    {
      ghost var was := entries;
      ghost var left := docs - {tid};
      var todo := entries.Keys;
      while todo != {}
        invariant todo <= entries.Keys == was.Keys
        invariant docs == old(docs)
        invariant forall t | t in todo :: entries[t] == was[t]
        invariant forall t | t !in todo :: Listed(Postings(entries, t), left, t)
      {
        var token :| token in todo;
        assert Listed(Postings(was, token), docs, token);
        var list := Retain(entries[token], t => t != tid);
        entries := entries[token := list];
        todo := todo - {token};
      }
      ghost var full := entries;
      entries := map token | token in entries && entries[token] != [] :: entries[token];
      assert forall t :: Postings(entries, t) == Postings(full, t);
      docs := left;
    }

    method Lookup(token: T) returns (list: seq<TupleId>)
      requires Valid()
      ensures Sorted(list)
      ensures forall tid :: tid in list <==> token in DocTokens(docs, tid)
    {
      list := if token in entries then entries[token] else [];
      assert Listed(Postings(entries, token), docs, token);
    }

    // The tuples filed under every token asked for; none when none is asked.
    method LookupAll(tokens: seq<T>) returns (result: seq<TupleId>)
      requires Valid()
      ensures Sorted(result)
      ensures forall tid :: tid in result <==> tokens != [] && HasAll(docs, tid, tokens)
    {
      if tokens == [] {
        return [];
      }
      var lists := LookupEach(tokens);
      var ordered := ByLength(lists);
      SameLists(lists, ordered);
      result := Intersect(ordered);
      forall tid
        ensures InEach(tid, lists) <==> HasAll(docs, tid, tokens)
      {
        InEachIffHasAll(tid, lists, docs, tokens);
      }
    }

    method LookupEach(tokens: seq<T>) returns (lists: seq<seq<TupleId>>)
      requires Valid()
      ensures |lists| == |tokens|
      ensures forall i | 0 <= i < |lists| :: Listed(lists[i], docs, tokens[i])
    {
      lists := [];
      for i := 0 to |tokens|
        invariant |lists| == i
        invariant forall k | 0 <= k < i :: Listed(lists[k], docs, tokens[k])
      {
        var list := Lookup(tokens[i]);
        lists := lists + [list];
      }
    }
  }

  predicate Ascending(lists: seq<seq<TupleId>>) {
    forall i, j | 0 <= i < j < |lists| :: |lists[i]| <= |lists[j]|
  }

  lemma PlacedAscending(lists: seq<seq<TupleId>>, k: nat, list: seq<TupleId>)
    requires Ascending(lists) && k <= |lists|
    requires forall i | k <= i < |lists| :: |lists[i]| > |list|
    requires k > 0 ==> |lists[k - 1]| <= |list|
    ensures Ascending(lists[..k] + [list] + lists[k..])
  {
    var out := lists[..k] + [list] + lists[k..];
    forall i, j | 0 <= i < j < |out|
      ensures |out[i]| <= |out[j]|
    {
      assert i < k ==> out[i] == lists[i] && |lists[i]| <= |lists[k - 1]|;
      assert j > k ==> out[j] == lists[j - 1];
      assert i > k ==> out[i] == lists[i - 1];
    }
  }

  // Stable sort by length.
  method ByLength(lists: seq<seq<TupleId>>) returns (out: seq<seq<TupleId>>)
    ensures multiset(out) == multiset(lists)
    ensures Ascending(out)
  {
    out := [];
    for i := 0 to |lists|
      invariant multiset(out) == multiset(lists[..i])
      invariant Ascending(out)
    {
      out := PlaceByLength(out, lists[i]);
      assert lists[..i + 1] == lists[..i] + [lists[i]];
    }
    assert lists[..|lists|] == lists;
  }

  method PlaceByLength(lists: seq<seq<TupleId>>, list: seq<TupleId>) returns (out: seq<seq<TupleId>>)
    requires Ascending(lists)
    ensures multiset(out) == multiset(lists) + multiset{list}
    ensures Ascending(out)
  {
    var k := |lists|;
    while k > 0 && |lists[k - 1]| > |list|
      invariant 0 <= k <= |lists|
      invariant forall i | k <= i < |lists| :: |lists[i]| > |list|
    {
      k := k - 1;
    }
    PlacedAscending(lists, k, list);
    PlacedSame(lists, k, list);
    out := lists[..k] + [list] + lists[k..];
  }

  lemma PlacedSame(lists: seq<seq<TupleId>>, k: nat, list: seq<TupleId>)
    requires k <= |lists|
    ensures multiset(lists[..k] + [list] + lists[k..]) == multiset(lists) + multiset{list}
  {
    assert lists == lists[..k] + lists[k..];
  }

  method Intersect(lists: seq<seq<TupleId>>) returns (result: seq<TupleId>)
    requires lists != [] && forall i | 0 <= i < |lists| :: Sorted(lists[i])
    ensures Sorted(result)
    ensures forall tid :: tid in result <==> InEach(tid, lists)
  {
    result := lists[0];
    if result == [] {
      return;
    }
    for i := 1 to |lists|
      invariant Sorted(result)
      invariant forall tid :: tid in result <==> InEach(tid, lists[..i])
    {
      var list := lists[i];
      result := Retain(result, t => t in list);
      assert lists[..i + 1] == lists[..i] + [list];
      if result == [] {
        return;
      }
    }
    assert lists[..|lists|] == lists;
  }

  predicate InEach(tid: TupleId, lists: seq<seq<TupleId>>) {
    forall i | 0 <= i < |lists| :: tid in lists[i]
  }

  lemma SameLists(lists: seq<seq<TupleId>>, ordered: seq<seq<TupleId>>)
    requires multiset(lists) == multiset(ordered)
    ensures |lists| == |ordered|
    ensures forall tid :: InEach(tid, lists) <==> InEach(tid, ordered)
    ensures (forall i | 0 <= i < |lists| :: Sorted(lists[i])) ==> forall i | 0 <= i < |ordered| :: Sorted(ordered[i])
  {
    assert |multiset(lists)| == |lists| && |multiset(ordered)| == |ordered|;
    assert forall i | 0 <= i < |lists| :: lists[i] in multiset(ordered);
    assert forall i | 0 <= i < |ordered| :: ordered[i] in multiset(lists);
  }

  lemma InEachIffHasAll<T(!new)>(tid: TupleId, lists: seq<seq<TupleId>>, docs: Docs<T>, tokens: seq<T>)
    requires |lists| == |tokens| && forall i | 0 <= i < |lists| :: Listed(lists[i], docs, tokens[i])
    ensures InEach(tid, lists) <==> HasAll(docs, tid, tokens)
  {
    if HasAll(docs, tid, tokens) {
      assert forall i | 0 <= i < |tokens| :: tokens[i] in DocTokens(docs, tid);
    }
    if InEach(tid, lists) {
      forall t | t in tokens
        ensures t in DocTokens(docs, tid)
      {
        var i :| 0 <= i < |tokens| && tokens[i] == t;
        assert tid in lists[i];
      }
    }
  }
}
