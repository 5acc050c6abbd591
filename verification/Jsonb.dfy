// The JSONB binary form of crates/storage/src/jsonb.rs: a tag byte, then the
// value; lengths and counts are 4 bytes, numbers 8, little-endian.
module Jsonb {
  import opened JsonValue

  // A floating-point number is kept by its 64 bits.
  type Value = Val<int>
  type Member = Pair<int>

  const TWO_64: int := 0x1_0000_0000_0000_0000

  const TAG_NULL: Byte := 1
  const TAG_FALSE: Byte := 2
  const TAG_TRUE: Byte := 3
  const TAG_INT: Byte := 4
  const TAG_FLOAT: Byte := 5
  const TAG_STRING: Byte := 6
  const TAG_ARRAY: Byte := 7
  const TAG_OBJECT: Byte := 8

  // ---- Little-endian numbers ----

  function Little(n: nat, k: nat): (b: Bytes)
    ensures |b| == k
  {
    if k == 0 then [] else [n % 256] + Little(n / 256, k - 1)
  }

  function FromLittle(b: Bytes): nat {
    if b == [] then 0 else b[0] + 256 * FromLittle(b[1..])
  }

  function Pow256(k: nat): nat { if k == 0 then 1 else 256 * Pow256(k - 1) }

  lemma {:induction false} LittleBack(n: nat, k: nat)
    requires n < Pow256(k)
    ensures FromLittle(Little(n, k)) == n
  {
    if k > 0 {
      LittleBack(n / 256, k - 1);
      assert Little(n, k)[1..] == Little(n / 256, k - 1);
    }
  }

  lemma Powers()
    ensures Pow256(4) == 0x1_0000_0000 && Pow256(8) == TWO_64
  {
    assert Pow256(2) == 65536;
    assert Pow256(4) == 256 * (256 * Pow256(2));
    assert Pow256(6) == 256 * (256 * Pow256(4));
    assert Pow256(8) == 256 * (256 * Pow256(6));
  }

  // The 64-bit integer whose two's complement is `u`.
  function FromU64(u: nat): int {
    if u <= MAX_I64 then u else u - TWO_64
  }

  // ---- UTF-8, section 4 of RFC 3629 ----

  predicate Tail(c: Byte) { 128 <= c < 192 }

  predicate ValidUtf8(s: Bytes) {
    if s == [] then true
    else if s[0] < 128 then ValidUtf8(s[1..])
    else if 194 <= s[0] < 224 then |s| >= 2 && Tail(s[1]) && ValidUtf8(s[2..])
    else if 224 <= s[0] < 240 then
      && |s| >= 3 && Tail(s[1]) && Tail(s[2])
      && (s[0] == 224 ==> s[1] >= 160) && (s[0] == 237 ==> s[1] < 160) && ValidUtf8(s[3..])
    else if 240 <= s[0] < 245 then
      && |s| >= 4 && Tail(s[1]) && Tail(s[2]) && Tail(s[3])
      && (s[0] == 240 ==> s[1] >= 144) && (s[0] == 244 ==> s[1] < 144) && ValidUtf8(s[4..])
    else false
  }

  // ---- Encoding ----

  const MAX_LEN: int := 0x1_0000_0000

  // What fits the format: strings are UTF-8, integers 64-bit, sizes 32-bit.
  predicate Fits(v: Value)
    decreases v, 1
  {
    match v
    case Int(n) => MIN_I64 <= n <= MAX_I64
    case Float(f) => 0 <= f < TWO_64
    case Str(s) => FitsString(s)
    case Array(items) => |items| < MAX_LEN && FitItems(items)
    case Object(members) => |members| < MAX_LEN && FitMembers(members)
    case _ => true
  }

  predicate FitsString(s: Bytes) { |s| < MAX_LEN && ValidUtf8(s) }

  predicate FitItems(items: seq<Value>)
    decreases items, 0
  {
    items == [] || (Fits(items[0]) && FitItems(items[1..]))
  }

  predicate FitMembers(members: seq<Member>)
    decreases members, 0
  {
    members == [] || (FitsString(members[0].key) && Fits(members[0].value) && FitMembers(members[1..]))
  }

  function EncodeString(s: Bytes): Bytes { [TAG_STRING] + Little(|s|, 4) + s }

  function Encode(v: Value): Bytes
    decreases v, 1
  {
    match v
    case Null => [TAG_NULL]
    case Bool(b) => if b then [TAG_TRUE] else [TAG_FALSE]
    case Int(n) => [TAG_INT] + Little(n % TWO_64, 8)
    case Float(f) => [TAG_FLOAT] + Little(f % TWO_64, 8)
    case Str(s) => EncodeString(s)
    case Array(items) => [TAG_ARRAY] + Little(|items|, 4) + EncodeItems(items)
    case Object(members) => [TAG_OBJECT] + Little(|members|, 4) + EncodeMembers(members)
  }

  function EncodeItems(items: seq<Value>): Bytes
    decreases items, 0
  {
    if items == [] then [] else Encode(items[0]) + EncodeItems(items[1..])
  }

  function EncodeMembers(members: seq<Member>): Bytes
    decreases members, 0
  {
    if members == [] then []
    else EncodeString(members[0].key) + Encode(members[0].value) + EncodeMembers(members[1..])
  }

  // ---- Decoding, on what is left ----

  datatype Decoded<+T> = Ok(value: T, rest: Bytes) | Fail

  function DecodeString(r: Bytes): (p: Decoded<Bytes>)
    ensures p.Ok? ==> |p.rest| <= |r|
  {
    if |r| < 4 then Fail
    else
      var len := FromLittle(r[..4]);
      if 4 + len > |r| || !ValidUtf8(r[4..4 + len]) then Fail
      else Ok(r[4..4 + len], r[4 + len..])
  }

  function Decode(r: Bytes): (p: Decoded<Value>)
    ensures p.Ok? ==> |p.rest| < |r|
    decreases |r|, 0
  {
    if r == [] then Fail
    else
      var tag, q := r[0], r[1..];
      if tag == TAG_NULL then Ok(Null, q)
      else if tag == TAG_FALSE then Ok(Bool(false), q)
      else if tag == TAG_TRUE then Ok(Bool(true), q)
      else if tag == TAG_INT then if |q| < 8 then Fail else Ok(Int(FromU64(FromLittle(q[..8]))), q[8..])
      else if tag == TAG_FLOAT then
        if |q| < 8 then Fail else Ok(Float(FromLittle(q[..8])), q[8..])
      else if tag == TAG_STRING then
        match DecodeString(q)
        case Ok(s, rest) => Ok(Str(s), rest)
        case Fail => Fail
      else if tag == TAG_ARRAY then
        if |q| < 4 then Fail
        else
          match DecodeItems(FromLittle(q[..4]), q[4..])
          case Ok(items, rest) => Ok(Array(items), rest)
          case Fail => Fail
      else if tag == TAG_OBJECT then
        if |q| < 4 then Fail
        else
          match DecodeMembers(FromLittle(q[..4]), q[4..])
          case Ok(members, rest) => Ok(Object(members), rest)
          case Fail => Fail
      else Fail
  }

  function DecodeItems(n: nat, r: Bytes): (p: Decoded<seq<Value>>)
    ensures p.Ok? ==> |p.rest| <= |r|
    decreases |r|, n + 1
  {
    if n == 0 then Ok([], r)
    else
      match Decode(r)
      case Fail => Fail
      case Ok(v, r1) =>
        match DecodeItems(n - 1, r1)
        case Fail => Fail
        case Ok(vs, rest) => Ok([v] + vs, rest)
  }

  function DecodeMembers(n: nat, r: Bytes): (p: Decoded<seq<Member>>)
    ensures p.Ok? ==> |p.rest| <= |r|
    decreases |r|, n + 1
  {
    if n == 0 then Ok([], r)
    else
      match DecodeMember(r)
      case Fail => Fail
      case Ok(m, r1) =>
        match DecodeMembers(n - 1, r1)
        case Fail => Fail
        case Ok(ms, rest) => Ok([m] + ms, rest)
  }

  function DecodeMember(r: Bytes): (p: Decoded<Member>)
    ensures p.Ok? ==> |p.rest| < |r|
    decreases |r|, 1
  {
    match Decode(r)
    case Ok(Str(key), r1) =>
      (match Decode(r1)
       case Fail => Fail
       case Ok(v, rest) => Ok(Member(key, v), rest))
    case _ => Fail
  }

  // ---- Round trip ----

  lemma NumberBack(n: nat, k: nat, z: Bytes)
    requires n < Pow256(k)
    ensures (Little(n, k) + z)[..k] == Little(n, k) && (Little(n, k) + z)[k..] == z
    ensures FromLittle((Little(n, k) + z)[..k]) == n
  {
    LittleBack(n, k);
    assert (Little(n, k) + z)[..k] == Little(n, k);
  }

  lemma StringBack(s: Bytes, z: Bytes)
    requires FitsString(s)
    ensures DecodeString(Little(|s|, 4) + s + z) == Ok(s, z)
    ensures Decode(EncodeString(s) + z) == Ok(Str(s), z)
  {
    Powers();
    var q := Little(|s|, 4) + s + z;
    assert q == Little(|s|, 4) + (s + z);
    NumberBack(|s|, 4, s + z);
    assert q[4..4 + |s|] == s && q[4 + |s|..] == z;
    assert (EncodeString(s) + z)[1..] == q;
  }

  // The facts of the induction. Each is under a quantifier that only `Unfold`
  // triggers, so that a lemma that merely passes it on does not expand the decoder.
  predicate Unfold(k: int) { true }

  ghost predicate Decodes(r: Bytes, v: Value, z: Bytes) {
    forall k {:trigger Unfold(k)} :: Unfold(k) ==> Decode(r) == Ok(v, z)
  }

  ghost predicate DecodesItems(n: nat, r: Bytes, vs: seq<Value>, z: Bytes) {
    forall k {:trigger Unfold(k)} :: Unfold(k) ==> DecodeItems(n, r) == Ok(vs, z)
  }

  ghost predicate DecodesMembers(n: nat, r: Bytes, ms: seq<Member>, z: Bytes) {
    forall k {:trigger Unfold(k)} :: Unfold(k) ==> DecodeMembers(n, r) == Ok(ms, z)
  }

  // A tag and eight bytes.
  lemma EightBack(tag: Byte, n: nat, z: Bytes)
    requires n < TWO_64
    ensures
      var r := [tag] + Little(n, 8) + z;
      r[0] == tag && |r[1..]| >= 8 && FromLittle(r[1..][..8]) == n && r[1..][8..] == z
  {
    Powers();
    NumberBack(n, 8, z);
    assert ([tag] + Little(n, 8) + z)[1..] == Little(n, 8) + z;
  }

  lemma ScalarBack(v: Value, z: Bytes)
    requires Fits(v) && !v.Array? && !v.Object?
    ensures Decodes(Encode(v) + z, v, z)
  {
    if v.Int? || v.Float? {
      NumberValueBack(v, z);
    } else if v.Str? {
      StringBack(v.s, z);
    } else {
      assert (Encode(v) + z)[1..] == z;
    }
  }

  lemma NumberValueBack(v: Value, z: Bytes)
    requires Fits(v) && (v.Int? || v.Float?)
    ensures Decodes(Encode(v) + z, v, z)
  {
    if v.Int? {
      EightBack(TAG_INT, v.n % TWO_64, z);
      assert v.n % TWO_64 == if v.n >= 0 then v.n else v.n + TWO_64;
    } else {
      EightBack(TAG_FLOAT, v.f, z);
      assert v.f % TWO_64 == v.f;
    }
  }

  lemma ArrayFrom(inner: Bytes, items: seq<Value>, z: Bytes)
    requires |items| < MAX_LEN && DecodesItems(|items|, inner, items, z)
    ensures Decodes([TAG_ARRAY] + (Little(|items|, 4) + inner), Array(items), z)
  {
    assert Unfold(0);
    Powers();
    NumberBack(|items|, 4, inner);
    assert ([TAG_ARRAY] + (Little(|items|, 4) + inner))[1..] == Little(|items|, 4) + inner;
  }

  lemma ObjectFrom(inner: Bytes, members: seq<Member>, z: Bytes)
    requires |members| < MAX_LEN && DecodesMembers(|members|, inner, members, z)
    ensures Decodes([TAG_OBJECT] + (Little(|members|, 4) + inner), Object(members), z)
  {
    assert Unfold(0);
    Powers();
    NumberBack(|members|, 4, inner);
    assert ([TAG_OBJECT] + (Little(|members|, 4) + inner))[1..] == Little(|members|, 4) + inner;
  }

  lemma ItemsCons(n: nat, r: Bytes, v: Value, r1: Bytes, vs: seq<Value>, z: Bytes)
    requires n > 0 && Decodes(r, v, r1) && DecodesItems(n - 1, r1, vs, z)
    ensures DecodesItems(n, r, [v] + vs, z)
  {
    assert Unfold(0);
  }

  lemma MembersCons(n: nat, r: Bytes, key: Bytes, r0: Bytes, v: Value, r1: Bytes, ms: seq<Member>, z: Bytes)
    requires n > 0 && Decodes(r, Str(key), r0) && Decodes(r0, v, r1) && DecodesMembers(n - 1, r1, ms, z)
    ensures DecodesMembers(n, r, [Member(key, v)] + ms, z)
  {
    assert Unfold(0);
    assert DecodeMember(r) == Ok(Member(key, v), r1);
  }

  ghost predicate Encodes(v: Value, b: Bytes) {
    forall k {:trigger Unfold(k)} :: Unfold(k) ==> Encode(v) == b
  }

  ghost predicate EncodesItems(items: seq<Value>, b: Bytes) {
    forall k {:trigger Unfold(k)} :: Unfold(k) ==> EncodeItems(items) == b
  }

  ghost predicate EncodesMembers(members: seq<Member>, b: Bytes) {
    forall k {:trigger Unfold(k)} :: Unfold(k) ==> EncodeMembers(members) == b
  }

  lemma EncodesItemsCons(items: seq<Value>, e: Bytes, es: Bytes)
    requires items != [] && Encodes(items[0], e) && EncodesItems(items[1..], es)
    ensures EncodesItems(items, e + es)
  {
    assert Unfold(0);
  }

  lemma EncodesMembersCons(members: seq<Member>, e: Bytes, es: Bytes)
    requires members != [] && Encodes(members[0].value, e) && EncodesMembers(members[1..], es)
    ensures EncodesMembers(members, EncodeString(members[0].key) + e + es)
  {
    assert Unfold(0);
  }

  lemma EncodesArray(items: seq<Value>, es: Bytes)
    requires EncodesItems(items, es)
    ensures Encodes(Array(items), [TAG_ARRAY] + Little(|items|, 4) + es)
  {
    assert Unfold(0);
  }

  lemma EncodesObject(members: seq<Member>, es: Bytes)
    requires EncodesMembers(members, es)
    ensures Encodes(Object(members), [TAG_OBJECT] + Little(|members|, 4) + es)
  {
    assert Unfold(0);
  }

  lemma {:induction false} ValueReturns(v: Value, z: Bytes) returns (e: Bytes)
    requires Fits(v)
    ensures Encodes(v, e) && Decodes(e + z, v, z)
    decreases v, 1
  {
    match v
    case Array(items) =>
      var es := ItemsReturn(items, z);
      e := [TAG_ARRAY] + Little(|items|, 4) + es;
      EncodesArray(items, es);
      ArrayFrom(es + z, items, z);
      assert e + z == [TAG_ARRAY] + (Little(|items|, 4) + (es + z));
    case Object(members) =>
      var es := MembersReturn(members, z);
      e := [TAG_OBJECT] + Little(|members|, 4) + es;
      EncodesObject(members, es);
      ObjectFrom(es + z, members, z);
      assert e + z == [TAG_OBJECT] + (Little(|members|, 4) + (es + z));
    case _ =>
      e := Encode(v);
      ScalarBack(v, z);
  }

  lemma {:induction false} ItemsReturn(items: seq<Value>, z: Bytes) returns (es: Bytes)
    requires FitItems(items)
    ensures EncodesItems(items, es) && DecodesItems(|items|, es + z, items, z)
    decreases items, 0
  {
    if items == [] {
      es := [];
      assert es + z == z;
    } else {
      var more := ItemsReturn(items[1..], z);
      var e := ValueReturns(items[0], more + z);
      es := e + more;
      EncodesItemsCons(items, e, more);
      ItemsCons(|items|, e + (more + z), items[0], more + z, items[1..], z);
      assert es + z == e + (more + z);
      assert items == [items[0]] + items[1..];
    }
  }

  lemma {:induction false} MembersReturn(members: seq<Member>, z: Bytes) returns (es: Bytes)
    requires FitMembers(members)
    ensures EncodesMembers(members, es) && DecodesMembers(|members|, es + z, members, z)
    decreases members, 0
  {
    if members == [] {
      es := [];
      assert es + z == z;
    } else {
      var m := members[0];
      var more := MembersReturn(members[1..], z);
      var e := ValueReturns(m.value, more + z);
      var key := EncodeString(m.key);
      es := key + e + more;
      EncodesMembersCons(members, e, more);
      KeyDecodes(m.key, key, e + (more + z));
      MembersCons(|members|, key + (e + (more + z)), m.key, e + (more + z), m.value, more + z, members[1..], z);
      assert es + z == key + (e + (more + z));
      assert members == [m] + members[1..];
    }
  }

  lemma KeyDecodes(s: Bytes, key: Bytes, z: Bytes)
    requires FitsString(s) && key == EncodeString(s)
    ensures Decodes(key + z, Str(s), z)
  {
    StringBack(s, z);
  }

  // Decoding an encoded value, whatever follows it, gives the value back and
  // consumes exactly its bytes.
  lemma DecodeOfEncode(v: Value, z: Bytes)
    requires Fits(v)
    ensures Decode(Encode(v) + z) == Ok(v, z)
  {
    var e := ValueReturns(v, z);
    assert Unfold(0);
  }

  // ---- The format in an example ----

  lemma FourBytes(n: nat)
    ensures Little(n, 4) == [n % 256, n / 256 % 256, n / 256 / 256 % 256, n / 256 / 256 / 256 % 256]
  {
    assert Little(n / 256 / 256, 2) == [n / 256 / 256 % 256, n / 256 / 256 / 256 % 256];
  }

  lemma EightBytes(n: nat)
    ensures
      var m := n / 256 / 256 / 256 / 256;
      Little(n, 8) == [n % 256, n / 256 % 256, n / 256 / 256 % 256, n / 256 / 256 / 256 % 256,
                       m % 256, m / 256 % 256, m / 256 / 256 % 256, m / 256 / 256 / 256 % 256]
  {
    FourBytes(n / 256 / 256 / 256 / 256);
    assert Little(n / 256 / 256, 6) == [n / 256 / 256 % 256] + ([n / 256 / 256 / 256 % 256] + Little(n / 256 / 256 / 256 / 256, 4));
  }

  lemma ItemsLayout()
    ensures EncodeItems([Null, Bool(true)]) == [1, 3]
  {
    var items: seq<Value> := [Null, Bool(true)];
    assert items[1..][1..] == [];
    assert EncodeItems(items[1..]) == [3] + EncodeItems(items[1..][1..]);
  }

  lemma MembersLayout()
    ensures EncodeMembers([Member([97], Bool(false))]) == [6, 1, 0, 0, 0, 97] + [2]
  {
    FourBytes(1);
    var members: seq<Member> := [Member([97], Bool(false))];
    assert members[1..] == [] && EncodeMembers(members[1..]) == [];
    assert EncodeString([97]) == [6, 1, 0, 0, 0, 97];
  }

  // `[null, true]` and `{"a": false}`.
  lemma LayoutExample()
    ensures Encode(Array([Null, Bool(true)])) == [7, 2, 0, 0, 0] + [1, 3]
    ensures Encode(Object([Member([97], Bool(false))])) == [8, 1, 0, 0, 0] + ([6, 1, 0, 0, 0, 97] + [2])
  {
    FourBytes(1);
    FourBytes(2);
    ItemsLayout();
    MembersLayout();
  }

  lemma IntLayout()
    ensures Encode(Int(-2)) == [4, 254, 255, 255, 255, 255, 255, 255, 255]
  {
    assert -2 % TWO_64 == 0xFFFF_FFFF_FFFF_FFFE;
    EightBytes(0xFFFF_FFFF_FFFF_FFFE);
  }

  // ---- What decodes was encoded ----

  lemma {:induction false} LittleOf(b: Bytes)
    ensures FromLittle(b) < Pow256(|b|) && Little(FromLittle(b), |b|) == b
  {
    if b != [] {
      LittleOf(b[1..]);
      assert FromLittle(b) % 256 == b[0] && FromLittle(b) / 256 == FromLittle(b[1..]);
    }
  }

  lemma CountOf(r: Bytes, k: nat)
    requires k <= |r| && (k == 4 || k == 8)
    ensures FromLittle(r[..k]) < (if k == 4 then MAX_LEN else TWO_64) && r == Little(FromLittle(r[..k]), k) + r[k..]
  {
    LittleOf(r[..k]);
    Powers();
    assert r == r[..k] + r[k..];
  }

  ghost predicate IsEncoded(r: Bytes, v: Value, z: Bytes) { Fits(v) && r == Encode(v) + z }

  ghost predicate AreEncoded(r: Bytes, vs: seq<Value>, z: Bytes) { FitItems(vs) && r == EncodeItems(vs) + z }

  ghost predicate PairsEncoded(r: Bytes, ms: seq<Member>, z: Bytes) { FitMembers(ms) && r == EncodeMembers(ms) + z }

  lemma StringOf(r: Bytes)
    requires r != [] && r[0] == TAG_STRING && DecodeString(r[1..]).Ok?
    ensures var p := DecodeString(r[1..]); FitsString(p.value) && r == EncodeString(p.value) + p.rest
  {
    var q := r[1..];
    CountOf(q, 4);
    var len := FromLittle(q[..4]);
    assert r == [TAG_STRING] + q && q == Little(len, 4) + q[4..4 + len] + q[4 + len..];
  }

  lemma NumberOf(r: Bytes)
    requires |r| >= 9 && (r[0] == TAG_INT || r[0] == TAG_FLOAT)
    ensures
      var u := FromLittle(r[1..][..8]);
      IsEncoded(r, if r[0] == TAG_INT then Int(FromU64(u)) else Float(u), r[1..][8..])
  {
    var q := r[1..];
    CountOf(q, 8);
    var u := FromLittle(q[..8]);
    WrapsBack(u);
    assert r == [r[0]] + Little(u, 8) + q[8..];
  }

  lemma WrapsBack(u: nat)
    requires u < TWO_64
    ensures FromU64(u) % TWO_64 == u && u % TWO_64 == u && MIN_I64 <= FromU64(u) <= MAX_I64
  {
  }

  lemma ArrayOf(r: Bytes, items: seq<Value>, z: Bytes)
    requires |r| >= 5 && r[0] == TAG_ARRAY && |items| == FromLittle(r[1..][..4]) && AreEncoded(r[1..][4..], items, z)
    ensures IsEncoded(r, Array(items), z)
  {
    CountOf(r[1..], 4);
    assert r == [TAG_ARRAY] + r[1..];
    Unwrapped(TAG_ARRAY, Little(|items|, 4), EncodeItems(items), z);
  }

  lemma Unwrapped(tag: Byte, count: Bytes, inner: Bytes, z: Bytes)
    ensures [tag] + (count + (inner + z)) == [tag] + count + inner + z
  {
  }

  lemma ObjectOf(r: Bytes, members: seq<Member>, z: Bytes)
    requires |r| >= 5 && r[0] == TAG_OBJECT && |members| == FromLittle(r[1..][..4]) && PairsEncoded(r[1..][4..], members, z)
    ensures IsEncoded(r, Object(members), z)
  {
    CountOf(r[1..], 4);
    assert r == [TAG_OBJECT] + r[1..];
    Unwrapped(TAG_OBJECT, Little(|members|, 4), EncodeMembers(members), z);
  }

  lemma {:induction false} ValueOf(r: Bytes)
    requires Decode(r).Ok?
    ensures IsEncoded(r, Decode(r).value, Decode(r).rest)
    decreases |r|, 0
  {
    var tag := r[0];
    if tag == TAG_INT || tag == TAG_FLOAT {
      NumberOf(r);
    } else if tag == TAG_STRING {
      StringOf(r);
    } else if tag == TAG_ARRAY {
      ItemsOf(FromLittle(r[1..][..4]), r[1..][4..]);
      ArrayOf(r, Decode(r).value.items, Decode(r).rest);
    } else if tag == TAG_OBJECT {
      MembersOf(FromLittle(r[1..][..4]), r[1..][4..]);
      ObjectOf(r, Decode(r).value.members, Decode(r).rest);
    } else {
      assert r == [tag] + r[1..];
    }
  }

  lemma {:induction false} ItemsOf(n: nat, r: Bytes)
    requires DecodeItems(n, r).Ok?
    ensures var p := DecodeItems(n, r); |p.value| == n && AreEncoded(r, p.value, p.rest)
    decreases |r|, n + 1
  {
    if n > 0 {
      ValueOf(r);
      var v, r1 := Decode(r).value, Decode(r).rest;
      ItemsOf(n - 1, r1);
      var p := DecodeItems(n - 1, r1);
      assert ([v] + p.value)[1..] == p.value;
      assert r == Encode(v) + (EncodeItems(p.value) + p.rest) == Encode(v) + EncodeItems(p.value) + p.rest;
    }
  }

  lemma {:induction false} MembersOf(n: nat, r: Bytes)
    requires DecodeMembers(n, r).Ok?
    ensures var p := DecodeMembers(n, r); |p.value| == n && PairsEncoded(r, p.value, p.rest)
    decreases |r|, n + 1
  {
    if n > 0 {
      ValueOf(r);
      var key, r1 := Decode(r).value.s, Decode(r).rest;
      ValueOf(r1);
      var v, r2 := Decode(r1).value, Decode(r1).rest;
      MembersOf(n - 1, r2);
      var p := DecodeMembers(n - 1, r2);
      MorePairs(r, key, r1, v, r2, p.value, p.rest);
    }
  }

  lemma MorePairs(r: Bytes, key: Bytes, r1: Bytes, v: Value, r2: Bytes, ms: seq<Member>, z: Bytes)
    requires IsEncoded(r, Str(key), r1) && IsEncoded(r1, v, r2) && PairsEncoded(r2, ms, z)
    ensures PairsEncoded(r, [Member(key, v)] + ms, z)
  {
    assert ([Member(key, v)] + ms)[1..] == ms;
    var a, b, c := EncodeString(key), Encode(v), EncodeMembers(ms);
    assert r == a + (b + (c + z)) == a + b + c + z;
  }

  // Decoding succeeds on exactly the encodings of values, and gives the value.
  lemma DecodeIff(r: Bytes, v: Value, z: Bytes)
    ensures Decode(r) == Ok(v, z) <==> Fits(v) && r == Encode(v) + z
  {
    if Decode(r) == Ok(v, z) {
      ValueOf(r);
    }
    if Fits(v) && r == Encode(v) + z {
      DecodeOfEncode(v, z);
    }
  }

  // ---- Containment ----

  // `json_contains_val`: an array also contains what one of its items contains.
  predicate Contains(outer: Value, inner: Value)
    decreases outer, inner, 1
  {
    match (outer, inner)
    case (Object(os), Object(ins)) => forall i | 0 <= i < |ins| :: HasMember(os, ins[i])
    case (Array(os), Array(ins)) => forall i | 0 <= i < |ins| :: HasItem(os, ins[i])
    case (Array(os), _) => HasItem(os, inner)
    case _ => outer == inner
  }

  predicate HasItem(os: seq<Value>, v: Value)
    decreases os, v, 0
  {
    exists j | 0 <= j < |os| :: Contains(os[j], v)
  }

  predicate HasMember(os: seq<Member>, m: Member)
    decreases os, m, 0
  {
    exists j | 0 <= j < |os| :: os[j].key == m.key && Contains(os[j].value, m.value)
  }

  lemma {:induction false} ContainsReflexive(v: Value)
    ensures Contains(v, v)
  {
    match v
    case Object(ms) =>
      forall i | 0 <= i < |ms| ensures HasMember(ms, ms[i]) {
        ContainsReflexive(ms[i].value);
      }
    case Array(vs) =>
      forall i | 0 <= i < |vs| ensures HasItem(vs, vs[i]) {
        ContainsReflexive(vs[i]);
      }
    case _ =>
  }

  lemma {:induction false} ItemTransitive(a: seq<Value>, b: Value, c: Value)
    requires HasItem(a, b) && Contains(b, c)
    ensures HasItem(a, c)
    decreases a, b, c, 0
  {
    var j :| 0 <= j < |a| && Contains(a[j], b);
    ContainsTransitive(a[j], b, c);
  }

  lemma {:induction false} MemberTransitive(a: seq<Member>, b: seq<Member>, c: Member)
    requires (forall i | 0 <= i < |b| :: HasMember(a, b[i])) && HasMember(b, c)
    ensures HasMember(a, c)
    decreases a, b, c, 0
  {
    var k :| 0 <= k < |b| && b[k].key == c.key && Contains(b[k].value, c.value);
    assert HasMember(a, b[k]);
    var j :| 0 <= j < |a| && a[j].key == b[k].key && Contains(a[j].value, b[k].value);
    ContainsTransitive(a[j].value, b[k].value, c.value);
  }

  // Containment composes, through nested arrays, the array-holds-scalar rule
  // and duplicate keys.
  lemma {:induction false} ContainsTransitive(a: Value, b: Value, c: Value)
    requires Contains(a, b) && Contains(b, c)
    ensures Contains(a, c)
    decreases a, b, c, 1
  {
    if a.Array? && !b.Array? {
      ItemTransitive(a.items, b, c);
    } else if a.Array? && c.Array? {
      forall i | 0 <= i < |c.items| ensures HasItem(a.items, c.items[i]) {
        assert HasItem(b.items, c.items[i]);
        var k :| 0 <= k < |b.items| && Contains(b.items[k], c.items[i]);
        assert HasItem(a.items, b.items[k]);
        ItemTransitive(a.items, b.items[k], c.items[i]);
      }
    } else if a.Array? {
      var k :| 0 <= k < |b.items| && Contains(b.items[k], c);
      assert HasItem(a.items, b.items[k]);
      ItemTransitive(a.items, b.items[k], c);
    } else if a.Object? && b.Object? && c.Object? {
      forall i | 0 <= i < |c.members| ensures HasMember(a.members, c.members[i]) {
        assert HasMember(b.members, c.members[i]);
        MemberTransitive(a.members, b.members, c.members[i]);
      }
    }
  }

  // ---- The loops ----

  // `encode_val` appends to a buffer.
  method EncodeVal(v: Value, buffer: Bytes) returns (out: Bytes)
    ensures out == buffer + Encode(v)
    decreases v, 1
  {
    match v
    case Null => out := buffer + [TAG_NULL];
    case Bool(b) => out := buffer + (if b then [TAG_TRUE] else [TAG_FALSE]);
    case Int(n) => out := buffer + ([TAG_INT] + Little(n % TWO_64, 8));
    case Float(f) => out := buffer + ([TAG_FLOAT] + Little(f % TWO_64, 8));
    case Str(s) => out := buffer + EncodeString(s);
    case Array(items) =>
      out := buffer + ([TAG_ARRAY] + Little(|items|, 4));
      out := EncodeAll(items, out);
    case Object(members) =>
      out := buffer + ([TAG_OBJECT] + Little(|members|, 4));
      out := EncodePairs(members, out);
  }

  method EncodeAll(items: seq<Value>, buffer: Bytes) returns (out: Bytes)
    ensures out == buffer + EncodeItems(items)
    decreases items, 0
  {
    out := buffer;
    for i := 0 to |items|
      invariant out + EncodeItems(items[i..]) == buffer + EncodeItems(items)
    {
      ghost var before := out;
      out := EncodeVal(items[i], out);
      assert items[i..][0] == items[i] && items[i..][1..] == items[i + 1..];
      assert before + (Encode(items[i]) + EncodeItems(items[i + 1..])) == before + Encode(items[i]) + EncodeItems(items[i + 1..]);
    }
    assert out + [] == out;
  }

  method EncodePairs(members: seq<Member>, buffer: Bytes) returns (out: Bytes)
    ensures out == buffer + EncodeMembers(members)
    decreases members, 0
  {
    out := buffer;
    for i := 0 to |members|
      invariant out + EncodeMembers(members[i..]) == buffer + EncodeMembers(members)
    {
      ghost var before, key, e, more := out, EncodeString(members[i].key), Encode(members[i].value), EncodeMembers(members[i + 1..]);
      out := out + EncodeString(members[i].key);
      out := EncodeVal(members[i].value, out);
      assert members[i..][0] == members[i] && members[i..][1..] == members[i + 1..];
      Regrouped(before, key, e, more);
    }
    assert out + [] == out;
  }

  lemma Regrouped(a: Bytes, b: Bytes, c: Bytes, d: Bytes)
    ensures a + (b + c + d) == a + b + c + d
  {
  }

  function ItemsSoFar(vs: seq<Value>, p: Decoded<seq<Value>>): Decoded<seq<Value>> {
    match p
    case Ok(more, rest) => Ok(vs + more, rest)
    case Fail => Fail
  }

  function MembersSoFar(ms: seq<Member>, p: Decoded<seq<Member>>): Decoded<seq<Member>> {
    match p
    case Ok(more, rest) => Ok(ms + more, rest)
    case Fail => Fail
  }

  lemma ItemsTwice(vs: seq<Value>, v: Value, p: Decoded<seq<Value>>)
    ensures ItemsSoFar([], p) == p && ItemsSoFar(vs, ItemsSoFar([v], p)) == ItemsSoFar(vs + [v], p)
  {
    assert p.Ok? ==> [] + p.value == p.value && vs + ([v] + p.value) == vs + [v] + p.value;
  }

  lemma MembersTwice(ms: seq<Member>, m: Member, p: Decoded<seq<Member>>)
    ensures MembersSoFar([], p) == p && MembersSoFar(ms, MembersSoFar([m], p)) == MembersSoFar(ms + [m], p)
  {
    assert p.Ok? ==> [] + p.value == p.value && ms + ([m] + p.value) == ms + [m] + p.value;
  }

  // `decode_val` advances a position.
  method DecodeVal(bytes: Bytes, start: nat) returns (r: Option<Value>, pos: nat)
    requires start <= |bytes|
    ensures match Decode(bytes[start..])
            case Ok(v, rest) => r == Some(v) && start < pos <= |bytes| && bytes[pos..] == rest
            case Fail => r.None?
    decreases |bytes| - start, 0
  {
    r, pos := None, start;
    if pos >= |bytes| {
      return;
    }
    var tag := bytes[pos];
    pos := pos + 1;
    ghost var q := bytes[pos..];
    assert bytes[start..][1..] == q;
    if tag == TAG_NULL {
      r := Some(Null);
    } else if tag == TAG_FALSE {
      r := Some(Bool(false));
    } else if tag == TAG_TRUE {
      r := Some(Bool(true));
    } else if tag == TAG_INT || tag == TAG_FLOAT {
      if pos + 8 > |bytes| {
        return;
      }
      assert q[..8] == bytes[pos..pos + 8] && q[8..] == bytes[pos + 8..];
      var n := FromLittle(bytes[pos..pos + 8]);
      pos := pos + 8;
      r := Some(if tag == TAG_INT then Int(FromU64(n)) else Float(n));
    } else if tag == TAG_STRING {
      var s, p := DecodeText(bytes, pos);
      r, pos := if s.None? then None else Some(Str(s.value)), p;
    } else if tag == TAG_ARRAY || tag == TAG_OBJECT {
      if pos + 4 > |bytes| {
        return;
      }
      assert q[..4] == bytes[pos..pos + 4] && q[4..] == bytes[pos + 4..];
      var count := FromLittle(bytes[pos..pos + 4]);
      if tag == TAG_ARRAY {
        var items, p := DecodeAll(bytes, pos + 4, count);
        r, pos := if items.None? then None else Some(Array(items.value)), p;
      } else {
        var members, p := DecodePairs(bytes, pos + 4, count);
        r, pos := if members.None? then None else Some(Object(members.value)), p;
      }
    }
  }

  method DecodeText(bytes: Bytes, start: nat) returns (r: Option<Bytes>, pos: nat)
    requires start <= |bytes|
    ensures match DecodeString(bytes[start..])
            case Ok(s, rest) => r == Some(s) && start <= pos <= |bytes| && bytes[pos..] == rest
            case Fail => r.None?
  {
    r, pos := None, start;
    if pos + 4 > |bytes| {
      return;
    }
    ghost var q := bytes[start..];
    assert q[..4] == bytes[pos..pos + 4];
    var len := FromLittle(bytes[pos..pos + 4]);
    pos := pos + 4;
    if pos + len > |bytes| {
      return;
    }
    assert q[4..4 + len] == bytes[pos..pos + len] && q[4 + len..] == bytes[pos + len..];
    if ValidUtf8(bytes[pos..pos + len]) {
      r, pos := Some(bytes[pos..pos + len]), pos + len;
    }
  }

  method DecodeAll(bytes: Bytes, start: nat, count: nat) returns (r: Option<seq<Value>>, pos: nat)
    requires start <= |bytes|
    ensures match DecodeItems(count, bytes[start..])
            case Ok(vs, rest) => r == Some(vs) && start <= pos <= |bytes| && bytes[pos..] == rest
            case Fail => r.None?
    decreases |bytes| - start, count + 1
  {
    var items: seq<Value> := [];
    pos := start;
    ItemsTwice([], Null, DecodeItems(count, bytes[start..]));
    for i := 0 to count
      invariant start <= pos <= |bytes|
      invariant ItemsSoFar(items, DecodeItems(count - i, bytes[pos..])) == DecodeItems(count, bytes[start..])
    {
      var v, p := DecodeVal(bytes, pos);
      if v.None? {
        return None, p;
      }
      ItemsTwice(items, v.value, DecodeItems(count - i - 1, bytes[p..]));
      items, pos := items + [v.value], p;
    }
    assert items + [] == items;
    r := Some(items);
  }

  method DecodePairs(bytes: Bytes, start: nat, count: nat) returns (r: Option<seq<Member>>, pos: nat)
    requires start <= |bytes|
    ensures match DecodeMembers(count, bytes[start..])
            case Ok(ms, rest) => r == Some(ms) && start <= pos <= |bytes| && bytes[pos..] == rest
            case Fail => r.None?
    decreases |bytes| - start, count + 1
  {
    var members: seq<Member> := [];
    pos := start;
    MembersTwice([], Member([], Null), DecodeMembers(count, bytes[start..]));
    for i := 0 to count
      invariant start <= pos <= |bytes|
      invariant MembersSoFar(members, DecodeMembers(count - i, bytes[pos..])) == DecodeMembers(count, bytes[start..])
    {
      var key, p := DecodeVal(bytes, pos);
      if key.None? || !key.value.Str? {
        return None, p;
      }
      var v, p' := DecodeVal(bytes, p);
      if v.None? {
        return None, p';
      }
      var m := Member(key.value.s, v.value);
      assert DecodeMember(bytes[pos..]) == Ok(m, bytes[p'..]);
      MembersTwice(members, m, DecodeMembers(count - i - 1, bytes[p'..]));
      members, pos := members + [m], p';
    }
    assert members + [] == members;
    r := Some(members);
  }
}
