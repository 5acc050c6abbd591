// The inverted index over JSONB keys of crates/storage/src/gin.rs, and the
// key query of crates/sql/src/executor.rs that it answers.
module Gin {
  import opened JsonValue
  import opened Jsonb

  // ---- Stepping over one encoded value ----

  function Drop(r: Bytes, n: nat): (rest: Bytes)
    ensures |rest| <= |r| && (n > 0 && r != [] ==> |rest| < |r|)
  {
    if n <= |r| then r[n..] else []
  }

  // What is left after one value; a truncated value swallows the rest.
  function Skip(r: Bytes): (rest: Bytes)
    ensures |rest| <= |r|
    decreases |r|, 0
  {
    if r == [] then []
    else if r[0] == TAG_INT || r[0] == TAG_FLOAT then Drop(r, 9)
    else if r[0] == TAG_STRING || r[0] == TAG_ARRAY || r[0] == TAG_OBJECT then
      if |r| < 5 then r[1..]
      else
        var n := FromLittle(r[1..5]);
        if r[0] == TAG_STRING then Drop(r, 5 + n)
        else SkipMany(if r[0] == TAG_ARRAY then n else 2 * n, r[5..])
    else r[1..]
  }

  function SkipMany(n: nat, r: Bytes): (rest: Bytes)
    ensures |rest| <= |r|
    decreases |r|, n
  {
    if n == 0 then r else SkipMany(n - 1, Skip(r))
  }

  ghost predicate Skips(r: Bytes, z: Bytes) {
    forall k {:trigger Unfold(k)} :: Unfold(k) ==> Skip(r) == z
  }

  ghost predicate SkipsMany(n: nat, r: Bytes, z: Bytes) {
    forall k {:trigger Unfold(k)} :: Unfold(k) ==> SkipMany(n, r) == z
  }

  lemma CountBack(tag: Byte, n: nat, inner: Bytes)
    requires n < MAX_LEN
    ensures
      var r := [tag] + (Little(n, 4) + inner);
      |r| >= 5 && r[0] == tag && FromLittle(r[1..5]) == n && r[5..] == inner
  {
    Powers();
    NumberBack(n, 4, inner);
    var r := [tag] + (Little(n, 4) + inner);
    assert r[1..5] == (Little(n, 4) + inner)[..4];
    assert r[5..] == (Little(n, 4) + inner)[4..];
  }

  lemma StringSkips(s: Bytes, z: Bytes)
    requires |s| < MAX_LEN
    ensures Skips(EncodeString(s) + z, z)
  {
    CountBack(TAG_STRING, |s|, s + z);
    assert EncodeString(s) + z == [TAG_STRING] + (Little(|s|, 4) + (s + z));
    assert (EncodeString(s) + z)[5 + |s|..] == z;
  }

  lemma ScalarSkips(v: Value, z: Bytes)
    requires Fits(v) && !v.Array? && !v.Object?
    ensures Skips(Encode(v) + z, z)
  {
    match v
    case Str(s) => StringSkips(s, z);
    case Int(n) => assert (Encode(v) + z)[9..] == z;
    case Float(f) => assert (Encode(v) + z)[9..] == z;
    case Null => assert (Encode(v) + z)[1..] == z;
    case Bool(_) => assert (Encode(v) + z)[1..] == z;
  }

  lemma ManyFrom(tag: Byte, n: nat, inner: Bytes, z: Bytes)
    requires tag == TAG_ARRAY || tag == TAG_OBJECT
    requires n < MAX_LEN && SkipsMany(if tag == TAG_ARRAY then n else 2 * n, inner, z)
    ensures Skips([tag] + (Little(n, 4) + inner), z)
  {
    CountBack(tag, n, inner);
    assert Unfold(0);
  }

  lemma ManyCons(n: nat, r: Bytes, r1: Bytes, z: Bytes)
    requires n > 0 && Skips(r, r1) && SkipsMany(n - 1, r1, z)
    ensures SkipsMany(n, r, z)
  {
    assert Unfold(0);
  }

  lemma MemberSkips(n: nat, key: Bytes, r: Bytes, r1: Bytes, z: Bytes)
    requires |key| < MAX_LEN && Skips(r, r1) && SkipsMany(2 * n, r1, z)
    ensures SkipsMany(2 * (n + 1), EncodeString(key) + r, z)
  {
    StringSkips(key, r);
    ManyCons(2 * n + 1, r, r1, z);
    ManyCons(2 * n + 2, EncodeString(key) + r, r, z);
  }

  lemma {:induction false} ValueSkips(v: Value, z: Bytes) returns (e: Bytes)
    requires Fits(v)
    ensures Encodes(v, e) && Skips(e + z, z)
    decreases v, 1
  {
    match v
    case Array(items) =>
      var es := ItemsSkip(items, z);
      e := [TAG_ARRAY] + Little(|items|, 4) + es;
      EncodesArray(items, es);
      ManyFrom(TAG_ARRAY, |items|, es + z, z);
      assert e + z == [TAG_ARRAY] + (Little(|items|, 4) + (es + z));
    case Object(members) =>
      var es := MembersSkip(members, z);
      e := [TAG_OBJECT] + Little(|members|, 4) + es;
      EncodesObject(members, es);
      ManyFrom(TAG_OBJECT, |members|, es + z, z);
      assert e + z == [TAG_OBJECT] + (Little(|members|, 4) + (es + z));
    case _ =>
      e := Encode(v);
      ScalarSkips(v, z);
  }

  lemma {:induction false} ItemsSkip(items: seq<Value>, z: Bytes) returns (es: Bytes)
    requires FitItems(items)
    ensures EncodesItems(items, es) && SkipsMany(|items|, es + z, z)
    decreases items, 0
  {
    if items == [] {
      es := [];
      assert es + z == z;
    } else {
      var more := ItemsSkip(items[1..], z);
      var e := ValueSkips(items[0], more + z);
      es := e + more;
      EncodesItemsCons(items, e, more);
      ManyCons(|items|, e + (more + z), more + z, z);
      assert es + z == e + (more + z);
    }
  }

  lemma {:induction false} MembersSkip(members: seq<Member>, z: Bytes) returns (es: Bytes)
    requires FitMembers(members)
    ensures EncodesMembers(members, es) && SkipsMany(2 * |members|, es + z, z)
    decreases members, 0
  {
    if members == [] {
      es := [];
      assert es + z == z;
    } else {
      var more := MembersSkip(members[1..], z);
      var e := ValueSkips(members[0].value, more + z);
      var key := EncodeString(members[0].key);
      es := key + e + more;
      EncodesMembersCons(members, e, more);
      var r := e + (more + z);
      MemberSkips(|members| - 1, members[0].key, r, more + z, z);
      assert es + z == key + r;
    }
  }

  // `skip_jsonb_value` steps over exactly one encoded value.
  lemma SkipOfEncode(v: Value, z: Bytes)
    requires Fits(v)
    ensures Skip(Encode(v) + z) == z
  {
    var e := ValueSkips(v, z);
    assert Unfold(0);
  }

  // ---- The keys of an encoded object ----

  function Keys(n: nat, r: Bytes): (ks: seq<Bytes>) {
    if n == 0 || |r| < 5 || r[0] != TAG_STRING then []
    else
      var len := FromLittle(r[1..5]);
      if 5 + len > |r| then []
      else
        var s := r[5..5 + len];
        (if ValidUtf8(s) then [s] else []) + Keys(n - 1, Skip(r[5 + len..]))
  }

  function Tokens(bytes: Bytes): (ks: seq<Bytes>) {
    if |bytes| < 5 || bytes[0] != TAG_OBJECT then [] else Keys(FromLittle(bytes[1..5]), bytes[5..])
  }

  function KeyList(members: seq<Member>): (ks: seq<Bytes>) {
    if members == [] then [] else [members[0].key] + KeyList(members[1..])
  }

  ghost predicate HasKeys(n: nat, r: Bytes, ks: seq<Bytes>) {
    forall k {:trigger Unfold(k)} :: Unfold(k) ==> Keys(n, r) == ks
  }

  lemma KeysCons(n: nat, key: Bytes, r: Bytes, r1: Bytes, ks: seq<Bytes>)
    requires FitsString(key) && Skips(r, r1) && HasKeys(n, r1, ks)
    ensures HasKeys(n + 1, EncodeString(key) + r, [key] + ks)
  {
    assert Unfold(0);
    var b := EncodeString(key) + r;
    CountBack(TAG_STRING, |key|, key + r);
    assert b == [TAG_STRING] + (Little(|key|, 4) + (key + r));
    assert b[5..5 + |key|] == key && b[5 + |key|..] == r;
  }

  lemma {:induction false} KeysOfMembers(members: seq<Member>, z: Bytes) returns (es: Bytes)
    requires FitMembers(members)
    ensures EncodesMembers(members, es) && HasKeys(|members|, es + z, KeyList(members))
  {
    if members == [] {
      es := [];
    } else {
      var more := KeysOfMembers(members[1..], z);
      var e := ValueSkips(members[0].value, more + z);
      var key := EncodeString(members[0].key);
      es := key + e + more;
      EncodesMembersCons(members, e, more);
      KeysCons(|members| - 1, members[0].key, e + (more + z), more + z, KeyList(members[1..]));
      assert es + z == key + (e + (more + z));
    }
  }

  lemma TokensFrom(n: nat, inner: Bytes, ks: seq<Bytes>)
    requires n < MAX_LEN && HasKeys(n, inner, ks)
    ensures Tokens([TAG_OBJECT] + (Little(n, 4) + inner)) == ks
  {
    CountBack(TAG_OBJECT, n, inner);
    assert Unfold(0);
  }

  ghost predicate ObjectBytes(members: seq<Member>, b: Bytes) {
    forall k {:trigger Unfold(k)} :: Unfold(k) ==> Encode(Object(members)) == b
  }

  lemma TokensOfObject(members: seq<Member>, z: Bytes) returns (b: Bytes)
    requires Fits(Object(members))
    ensures ObjectBytes(members, b) && Tokens(b + z) == KeyList(members)
  {
    var es := KeysOfMembers(members, z);
    b := [TAG_OBJECT] + Little(|members|, 4) + es;
    EncodesObject(members, es);
    TokensFrom(|members|, es + z, KeyList(members));
    assert b + z == [TAG_OBJECT] + (Little(|members|, 4) + (es + z));
  }

  // The tokens of an encoded value are the keys of an object, and none for
  // anything else.
  lemma TokensOfEncode(v: Value, z: Bytes)
    requires Fits(v)
    ensures Tokens(Encode(v) + z) == if v.Object? then KeyList(v.members) else []
  {
    if v.Object? {
      var b := TokensOfObject(v.members, z);
      assert Encode(v) == b by { assert Unfold(0); }
    } else {
      assert (Encode(v) + z)[0] == Encode(v)[0] != TAG_OBJECT;
    }
  }

  // `skip_jsonb_value`; the position may run past the end.
  method SkipValue(bytes: Bytes, start: nat) returns (pos: nat)
    ensures Drop(bytes, pos) == Skip(Drop(bytes, start))
    ensures start <= pos && (start < |bytes| ==> start < pos)
    decreases |Drop(bytes, start)|, 0
  {
    if start >= |bytes| {
      return start;
    }
    ghost var r := bytes[start..];
    var tag := bytes[start];
    pos := start + 1;
    if tag == TAG_INT || tag == TAG_FLOAT {
      pos := pos + 8;
    } else if tag == TAG_STRING || tag == TAG_ARRAY || tag == TAG_OBJECT {
      if pos + 4 > |bytes| {
        return;
      }
      assert r[1..5] == bytes[pos..pos + 4] && r[5..] == bytes[pos + 4..];
      var n := FromLittle(bytes[pos..pos + 4]);
      if tag == TAG_STRING {
        pos := pos + 4 + n;
      } else {
        pos := SkipValues(bytes, pos + 4, if tag == TAG_ARRAY then n else 2 * n);
      }
    }
  }

  method SkipValues(bytes: Bytes, start: nat, n: nat) returns (pos: nat)
    ensures Drop(bytes, pos) == SkipMany(n, Drop(bytes, start))
    ensures start <= pos
    decreases |Drop(bytes, start)|, 1
  {
    pos := start;
    for i := 0 to n
      invariant start <= pos
      invariant SkipMany(n - i, Drop(bytes, pos)) == SkipMany(n, Drop(bytes, start))
    {
      pos := SkipValue(bytes, pos);
    }
  }

  // With `keys` read, `n` more members to read at `pos` give `all`.
  ghost predicate Reading(keys: seq<Bytes>, n: nat, bytes: Bytes, pos: nat, all: seq<Bytes>) {
    forall k {:trigger Unfold(k)} :: Unfold(k) ==> keys + Keys(n, Drop(bytes, pos)) == all
  }

  // The key found at the front of `r`, if it is text.
  function KeyPart(r: Bytes, len: nat): seq<Bytes>
    requires 5 + len <= |r|
  {
    if ValidUtf8(r[5..5 + len]) then [r[5..5 + len]] else []
  }

  ghost predicate IsPart(r: Bytes, len: nat, part: seq<Bytes>) {
    forall k {:trigger Unfold(k)} :: Unfold(k) ==> 5 + len <= |r| && part == KeyPart(r, len)
  }

  lemma KeysStep(n: nat, r: Bytes, len: nat, part: seq<Bytes>, r1: Bytes, ks: seq<Bytes>)
    requires 5 + len <= |r| && r[0] == TAG_STRING && FromLittle(r[1..5]) == len
    requires IsPart(r, len, part) && Skips(r[5 + len..], r1) && HasKeys(n, r1, ks)
    ensures HasKeys(n + 1, r, part + ks)
  {
    assert Unfold(0);
  }

  lemma KeyRead(keys: seq<Bytes>, n: nat, bytes: Bytes, pos: nat, part: seq<Bytes>, pos': nat, all: seq<Bytes>)
    requires !NoKey(bytes, pos) && Reading(keys, n + 1, bytes, pos, all)
    requires IsPart(bytes[pos..], KeyEnd(bytes, pos) - pos - 5, part)
    requires Skips(Drop(bytes, KeyEnd(bytes, pos)), Drop(bytes, pos'))
    ensures Reading(keys + part, n, bytes, pos', all)
  {
    var r, len := bytes[pos..], KeyEnd(bytes, pos) - pos - 5;
    assert r[1..5] == bytes[pos + 1..pos + 5] && r[5 + len..] == bytes[pos + 5 + len..];
    var r1, ks := KeysLeft(n, bytes, pos');
    KeysStep(n, r, len, part, r1, ks);
    ReadingSplit(keys, n, bytes, pos, part, pos', ks, all);
  }

  lemma KeysLeft(n: nat, bytes: Bytes, pos: nat) returns (r: Bytes, ks: seq<Bytes>)
    ensures r == Drop(bytes, pos) && HasKeys(n, r, ks)
  {
    r := Drop(bytes, pos);
    ks := Keys(n, r);
  }

  lemma ReadingSplit(keys: seq<Bytes>, n: nat, bytes: Bytes, pos: nat, part: seq<Bytes>, pos': nat,
                     ks: seq<Bytes>, all: seq<Bytes>)
    requires Reading(keys, n + 1, bytes, pos, all)
    requires HasKeys(n + 1, Drop(bytes, pos), part + ks) && HasKeys(n, Drop(bytes, pos'), ks)
    ensures Reading(keys + part, n, bytes, pos', all)
  {
    assert Unfold(0);
    assert keys + (part + ks) == keys + part + ks;
  }

  function KeyEnd(bytes: Bytes, pos: nat): nat
    requires pos + 5 <= |bytes|
  {
    pos + 5 + FromLittle(bytes[pos + 1..pos + 5])
  }

  // What `bytes` hold from `pos` on is not a key of a known length.
  predicate NoKey(bytes: Bytes, pos: nat) {
    || pos + 5 > |bytes|
    || bytes[pos] != TAG_STRING
    || KeyEnd(bytes, pos) > |bytes|
  }

  lemma KeysEnd(keys: seq<Bytes>, n: nat, bytes: Bytes, pos: nat, all: seq<Bytes>)
    requires n == 0 || NoKey(bytes, pos)
    requires Reading(keys, n, bytes, pos, all)
    ensures keys == all
  {
    assert Unfold(0);
    if pos + 5 <= |bytes| {
      assert bytes[pos..][1..5] == bytes[pos + 1..pos + 5];
    }
  }

  // `jsonb_tokens`.
  method JsonbTokens(bytes: Bytes) returns (keys: seq<Bytes>)
    ensures keys == Tokens(bytes)
  {
    keys := [];
    if |bytes| < 5 || bytes[0] != TAG_OBJECT {
      return;
    }
    keys := ReadKeys(bytes, FromLittle(bytes[1..5]), Tokens(bytes));
  }

  method ReadKeys(bytes: Bytes, count: nat, ghost all: seq<Bytes>) returns (keys: seq<Bytes>)
    requires Reading([], count, bytes, 5, all)
    ensures keys == all
  {
    keys := [];
    var pos, left := 5, count;
    while left > 0
      invariant Reading(keys, left, bytes, pos, all)
    {
      var found;
      left := left - 1;
      found, keys, pos := TakeKey(keys, left, bytes, pos, all);
      if !found {
        return;
      }
    }
    KeysEnd(keys, 0, bytes, pos, all);
  }

  method TakeKey(keys: seq<Bytes>, ghost n: nat, bytes: Bytes, pos: nat, ghost all: seq<Bytes>)
    returns (found: bool, keys': seq<Bytes>, next: nat)
    requires Reading(keys, n + 1, bytes, pos, all)
    ensures if found then Reading(keys', n, bytes, next, all) else keys' == all
  {
    if NoKey(bytes, pos) {
      KeysEnd(keys, n + 1, bytes, pos, all);
      return false, keys, pos;
    }
    var end := KeyEnd(bytes, pos);
    assert bytes[pos..][5..end - pos] == bytes[pos + 5..end];
    var part := if ValidUtf8(bytes[pos + 5..end]) then [bytes[pos + 5..end]] else [];
    next := SkipValue(bytes, end);
    KeyRead(keys, n, bytes, pos, part, next, all);
    found, keys' := true, keys + part;
  }

  // ---- The words of a text, of ASCII characters ----

  predicate IsWordByte(c: Byte) { 48 <= c < 58 || 65 <= c < 91 || 97 <= c < 123 }

  function LowerByte(c: Byte): Byte { if 65 <= c < 91 then c + 32 else c }

  // With `current` read of a word.
  function WordsFrom(current: Bytes, s: Bytes): (words: seq<Bytes>)
    decreases |s|
  {
    if s == [] then Finished(current)
    else if IsWordByte(s[0]) then WordsFrom(current + [LowerByte(s[0])], s[1..])
    else Finished(current) + WordsFrom([], s[1..])
  }

  function Finished(current: Bytes): seq<Bytes> { if current == [] then [] else [current] }

  function Words(s: Bytes): seq<Bytes> { WordsFrom([], s) }

  // ---- What words are ----

  // A letter or a digit.
  predicate Alnum(c: Byte) { 48 <= c <= 57 || 65 <= c <= 90 || 97 <= c <= 122 }

  // Small letters and digits.
  predicate SmallWord(w: Bytes) { forall i | 0 <= i < |w| :: 48 <= w[i] <= 57 || 97 <= w[i] <= 122 }

  // `w` is `run` with its capitals made small.
  predicate InSmall(w: Bytes, run: Bytes) {
    |w| == |run| && forall i | 0 <= i < |w| :: w[i] == if 65 <= run[i] <= 90 then run[i] + 32 else run[i]
  }

  // From `lo` to `hi` the text is all letters and digits, and it cannot be made longer.
  predicate MaximalRun(s: Bytes, lo: nat, hi: nat) {
    && lo < hi <= |s| && (forall i | lo <= i < hi :: Alnum(s[i]))
    && (lo == 0 || !Alnum(s[lo - 1])) && (hi == |s| || !Alnum(s[hi]))
  }

  type Spans = seq<(nat, nat)>

  ghost predicate InSome(spans: Spans, i: nat) {
    exists k: nat :: InSpan(spans, k, i)
  }

  predicate InSpan(spans: Spans, k: nat, i: nat) {
    k < |spans| && spans[k].0 <= i < spans[k].1
  }

  // Word `k` is a maximal run, at or after `from`, in small letters.
  predicate IsRun(s: Bytes, from: nat, spans: Spans, words: seq<Bytes>, k: nat) {
    k < |spans| && k < |words| ==>
      from <= spans[k].0 && MaximalRun(s, spans[k].0, spans[k].1) && InSmall(words[k], s[spans[k].0..spans[k].1])
  }

  predicate Apart(spans: Spans) {
    forall k, l | 0 <= k < l < |spans| :: spans[k].1 < spans[l].0
  }

  ghost predicate Covers(s: Bytes, from: nat, spans: Spans, i: nat) {
    from <= i < |s| && Alnum(s[i]) ==> InSome(spans, i)
  }

  // The words of the text from `from` on are its maximal runs there, in order.
  ghost predicate AreRuns(s: Bytes, from: nat, spans: Spans, words: seq<Bytes>) {
    && |spans| == |words| && Apart(spans)
    && (forall k: nat :: IsRun(s, from, spans, words, k))
    && (forall i: nat :: Covers(s, from, spans, i))
  }

  lemma RunAndMore(s: Bytes, from: nat, hi: nat, word: Bytes, spans: Spans, words: seq<Bytes>)
    requires from < hi < |s| && !Alnum(s[hi]) && AreRuns(s, hi + 1, spans, words)
    requires MaximalRun(s, from, hi) && InSmall(word, s[from..hi])
    ensures AreRuns(s, from, [(from, hi)] + spans, [word] + words)
  {
    var all, both := [(from, hi)] + spans, [word] + words;
    forall k: nat ensures IsRun(s, from, all, both, k) {
      if k > 0 {
        assert IsRun(s, hi + 1, spans, words, k - 1);
      }
    }
    forall k, l | 0 <= k < l < |all| ensures all[k].1 < all[l].0 {
      assert IsRun(s, hi + 1, spans, words, l - 1);
    }
    forall i: nat ensures Covers(s, from, all, i) {
      assert InSpan(all, 0, i) <==> from <= i < hi;
      assert Covers(s, hi + 1, spans, i);
      if InSome(spans, i) {
        var j: nat :| InSpan(spans, j, i);
        assert InSpan(all, j + 1, i);
      }
    }
  }

  lemma GapAndMore(s: Bytes, hi: nat, spans: Spans, words: seq<Bytes>)
    requires hi < |s| && !Alnum(s[hi]) && AreRuns(s, hi + 1, spans, words)
    ensures AreRuns(s, hi, spans, words)
  {
    forall k: nat ensures IsRun(s, hi, spans, words, k) {
      assert IsRun(s, hi + 1, spans, words, k);
    }
    forall i: nat ensures Covers(s, hi, spans, i) {
      assert Covers(s, hi + 1, spans, i);
    }
  }

  lemma LastRun(s: Bytes, from: nat, word: Bytes)
    requires from <= |s| && (from < |s| ==> MaximalRun(s, from, |s|)) && InSmall(word, s[from..|s|])
    ensures if from < |s| then AreRuns(s, from, [(from, |s|)], [word]) else AreRuns(s, from, [], [])
  {
    forall i: nat ensures from < |s| ==> Covers(s, from, [(from, |s|)], i) {
      assert InSpan([(from, |s|)], 0, i) <==> from <= i < |s|;
    }
  }

  // With the run from `from` read up to `at`.
  lemma {:induction false} RunsFrom(s: Bytes, from: nat, at: nat, current: Bytes) returns (spans: Spans)
    requires from <= at <= |s| && (from == 0 || !Alnum(s[from - 1])) && forall i | from <= i < at :: Alnum(s[i])
    requires InSmall(current, s[from..at])
    ensures AreRuns(s, from, spans, WordsFrom(current, s[at..]))
    decreases |s| - at
  {
    if at == |s| {
      LastRun(s, from, current);
      spans := if from < at then [(from, at)] else [];
    } else {
      assert s[at..][0] == s[at] && s[at..][1..] == s[at + 1..];
      if Alnum(s[at]) {
        OneMore(s, from, at, current);
        spans := RunsFrom(s, from, at + 1, current + [LowerByte(s[at])]);
      } else {
        spans := RunsFrom(s, at + 1, at + 1, []);
        var words := WordsFrom([], s[at + 1..]);
        if from < at {
          RunAndMore(s, from, at, current, spans, words);
          spans := [(from, at)] + spans;
        } else {
          GapAndMore(s, at, spans, words);
          assert [] + words == words;
        }
      }
    }
  }

  lemma OneMore(s: Bytes, from: nat, at: nat, current: Bytes)
    requires from <= at < |s| && InSmall(current, s[from..at])
    ensures InSmall(current + [LowerByte(s[at])], s[from..at + 1])
  {
    assert s[from..at + 1] == s[from..at] + [s[at]];
  }

  // The words of a text are its maximal runs of letters and digits, in order, in small
  // letters; nothing else is left out.
  lemma WordsAreRuns(s: Bytes) returns (spans: Spans)
    ensures AreRuns(s, 0, spans, Words(s))
  {
    spans := RunsFrom(s, 0, 0, []);
    assert s[0..] == s;
  }

  lemma WordsAreSmall(s: Bytes)
    ensures forall k | 0 <= k < |Words(s)| :: Words(s)[k] != [] && SmallWord(Words(s)[k])
  {
    var spans := WordsAreRuns(s);
    forall k | 0 <= k < |Words(s)| ensures Words(s)[k] != [] && SmallWord(Words(s)[k]) {
      assert IsRun(s, 0, spans, Words(s), k);
      var w, run := Words(s)[k], s[spans[k].0..spans[k].1];
      forall i | 0 <= i < |w| ensures 48 <= w[i] <= 57 || 97 <= w[i] <= 122 {
        assert run[i] == s[spans[k].0 + i];
      }
    }
  }

  // `text_tokens`.
  method TextTokens(s: Bytes) returns (tokens: seq<Bytes>)
    requires forall i | 0 <= i < |s| :: s[i] < 128
    ensures tokens == Words(s)
  {
    tokens := [];
    var current: Bytes := [];
    for i := 0 to |s|
      invariant tokens + WordsFrom(current, s[i..]) == Words(s)
    {
      assert s[i..][0] == s[i] && s[i..][1..] == s[i + 1..];
      if IsWordByte(s[i]) {
        current := current + [LowerByte(s[i])];
      } else {
        if current != [] {
          tokens := tokens + [current];
        }
        current := [];
      }
    }
    if current != [] {
      tokens := tokens + [current];
    }
  }
}
