// Which of the documents that contain a query the key index finds
// (crates/sql/src/executor.rs, insertion and the GIN path of SELECT).
module GinQuery {
  import opened JsonValue
  import opened Jsonb
  import opened Gin
  import opened GinIndex

  // A document is filed under its keys; one without keys, under `words`, the
  // words of its text.
  function IndexTokens(doc: Value, words: seq<Bytes>): seq<Bytes> {
    var keys := Tokens(Encode(doc));
    if keys == [] then words else keys
  }

  ghost predicate Filed(docs: Docs<Bytes>, tid: TupleId, doc: Value, words: seq<Bytes>) {
    Fits(doc) && DocTokens(docs, tid) == Elements(IndexTokens(doc, words))
  }

  // When a document that contains the query is found: the query must be an
  // object with a key, the document an object or its words the query's keys.
  ghost predicate Findable(query: Value, doc: Value, words: seq<Bytes>) {
    && query.Object? && query.members != []
    && (doc.Object? || forall k | k in KeyList(query.members) :: k in words)
  }

  lemma {:induction false} KeyListed(members: seq<Member>, key: Bytes)
    ensures key in KeyList(members) <==> exists i :: 0 <= i < |members| && members[i].key == key
  {
    if members != [] {
      KeyListed(members[1..], key);
      if key in KeyList(members[1..]) {
        var i :| 0 <= i < |members[1..]| && members[1..][i].key == key;
        assert members[i + 1].key == key;
      }
      if i :| 0 <= i < |members| && members[i].key == key {
        assert i > 0 ==> members[1..][i - 1].key == key;
      }
    }
  }

  // Containment of objects is containment of their keys.
  lemma ContainedKeys(outer: seq<Member>, inner: seq<Member>, key: Bytes)
    requires Contains(Object(outer), Object(inner)) && key in KeyList(inner)
    ensures key in KeyList(outer)
  {
    KeyListed(inner, key);
    KeyListed(outer, key);
    var i :| 0 <= i < |inner| && inner[i].key == key;
    assert HasMember(outer, inner[i]);
    var j :| 0 <= j < |outer| && outer[j].key == inner[i].key && Contains(outer[j].value, inner[i].value);
    assert outer[j].key == key;
  }

  ghost predicate Asked(docs: Docs<Bytes>, tid: TupleId, keys: seq<Bytes>) {
    keys != [] && HasAll(docs, tid, keys)
  }

  lemma KeysOf(v: Value)
    requires Fits(v)
    ensures Tokens(Encode(v)) == if v.Object? then KeyList(v.members) else []
  {
    TokensOfEncode(v, []);
    assert Encode(v) + [] == Encode(v);
  }

  lemma FoundIff(docs: Docs<Bytes>, tid: TupleId, doc: Value, words: seq<Bytes>, query: Value)
    requires Filed(docs, tid, doc, words) && Fits(query) && Contains(doc, query)
    ensures Asked(docs, tid, Tokens(Encode(query))) <==> Findable(query, doc, words)
  {
    KeysOf(doc);
    KeysOf(query);
    if query.Object? && query.members != [] {
      if doc.Object? {
        forall k | k in KeyList(query.members)
          ensures k in KeyList(doc.members)
        {
          ContainedKeys(doc.members, query.members, k);
        }
        assert query.members[0].key in KeyList(query.members);
      }
    }
  }

  // A document that is no object, filed under the words of its text, is missed by every
  // query with a key that is no small word, and by the empty query; it may contain both.
  lemma ArrayIsMissed(doc: Value, query: Value, key: Bytes, text: Bytes)
    requires !doc.Object? && query.Object? && (query.members == [] || (key in KeyList(query.members) && !SmallWord(key)))
    ensures !Findable(query, doc, Words(text))
    ensures Contains(Array([query]), query)
  {
    ContainsReflexive(query);
    assert Contains([query][0], query);
    WordsAreSmall(text);
  }

  // The candidates of `doc @> query`.
  method Candidates(index: Index<Bytes>, query: Value) returns (tids: seq<TupleId>)
    requires index.Valid() && Fits(query)
    ensures Sorted(tids)
    ensures forall tid, doc, words | Filed(index.docs, tid, doc, words) && Contains(doc, query)
      :: tid in tids <==> Findable(query, doc, words)
  {
    var encoded := EncodeVal(query, []);
    assert encoded == Encode(query);
    var keys := JsonbTokens(encoded);
    tids := index.LookupAll(keys);
    forall tid, doc, words | Filed(index.docs, tid, doc, words) && Contains(doc, query)
      ensures tid in tids <==> Findable(query, doc, words)
    {
      FoundIff(index.docs, tid, doc, words, query);
    }
  }
}
