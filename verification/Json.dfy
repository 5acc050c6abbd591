// The JSON printer and parser of crates/storage/src/jsonb.rs. Strings are their
// UTF-8 bytes. The printer copies bytes; the parser reads one byte at a time
// and pushes each as a character of its own, so a byte of 128 or more comes
// back as two bytes. RFC 8259, sections 4 to 7, gives the grammar.
module Json {

  import opened JsonValue

  // A number with fraction or exponent is kept by its text.
  type Json = Val<Bytes>
  type Member = Pair<Bytes>

  const QUOTE: Byte := 34
  const BACKSLASH: Byte := 92
  const COMMA: Byte := 44
  const COLON: Byte := 58
  const LBRACKET: Byte := 91
  const RBRACKET: Byte := 93
  const LBRACE: Byte := 123
  const RBRACE: Byte := 125
  const MINUS: Byte := 45
  const PLUS: Byte := 43
  const DOT: Byte := 46
  const NULL: Bytes := [110, 117, 108, 108]
  const TRUE: Bytes := [116, 114, 117, 101]
  const FALSE: Bytes := [102, 97, 108, 115, 101]

  predicate IsDigit(c: Byte) { 48 <= c <= 57 }
  predicate IsSpace(c: Byte) { c == 32 || c == 9 || c == 10 || c == 12 || c == 13 }

  // ---- Printing ----

  function Digits(n: nat): Bytes {
    if n < 10 then [48 + n] else Digits(n / 10) + [48 + n % 10]
  }

  function Decimal(n: int): Bytes {
    if n < 0 then [MINUS] + Digits(-n) else Digits(n)
  }

  function EscapeByte(c: Byte): Bytes {
    if c == QUOTE then [BACKSLASH, QUOTE]
    else if c == BACKSLASH then [BACKSLASH, BACKSLASH]
    else if c == 10 then [BACKSLASH, 110]
    else if c == 13 then [BACKSLASH, 114]
    else if c == 9 then [BACKSLASH, 116]
    else [c]
  }

  function Escape(s: Bytes): Bytes {
    if s == [] then [] else EscapeByte(s[0]) + Escape(s[1..])
  }

  function Quoted(s: Bytes): Bytes { [QUOTE] + Escape(s) + [QUOTE] }

  function Format(v: Json): Bytes
    decreases v, 1
  {
    match v
    case Null => NULL
    case Bool(b) => if b then TRUE else FALSE
    case Int(n) => Decimal(n)
    case Float(text) => text
    case Str(s) => Quoted(s)
    case Array(items) => [LBRACKET] + FormatItems(items) + [RBRACKET]
    case Object(members) => [LBRACE] + FormatMembers(members) + [RBRACE]
  }

  function FormatItems(items: seq<Json>): Bytes
    decreases items, 0
  {
    if items == [] then []
    else if |items| == 1 then Format(items[0])
    else Format(items[0]) + [COMMA] + FormatItems(items[1..])
  }

  function FormatMember(m: Member): Bytes
    decreases m, 2
  {
    Quoted(m.key) + [COLON] + Format(m.value)
  }

  function FormatMembers(members: seq<Member>): Bytes
    decreases members, 0
  {
    if members == [] then []
    else if |members| == 1 then FormatMember(members[0])
    else FormatMember(members[0]) + [COMMA] + FormatMembers(members[1..])
  }

  // ---- Parsing, on what is left of the input ----

  datatype Parsed<+T> = Ok(value: T, rest: Bytes) | Fail

  function SkipSpace(r: Bytes): (q: Bytes)
    ensures |q| <= |r|
  {
    if r != [] && IsSpace(r[0]) then SkipSpace(r[1..]) else r
  }

  function Prepend(s: Bytes, p: Parsed<Bytes>): Parsed<Bytes> {
    match p
    case Ok(t, rest) => Ok(s + t, rest)
    case Fail => Fail
  }

  // A byte pushed as a character: the UTF-8 encoding of that code point.
  function Pushed(c: Byte): Bytes {
    if c < 128 then [c] else [192 + c / 64, 128 + c % 64]
  }

  function Utf8(code: int): Bytes
    requires 0 <= code < 0x1_0000
  {
    if code < 0x80 then [code]
    else if code < 0x800 then [192 + code / 64, 128 + code % 64]
    else [224 + code / 4096, 128 + code / 64 % 64, 128 + code % 64]
  }

  function HexDigit(c: Byte): (d: Option<int>)
    ensures d.Some? ==> 0 <= d.value < 16
  {
    if 48 <= c <= 57 then Some((c as int) - 48)
    else if 65 <= c <= 70 then Some((c as int) - 55)
    else if 97 <= c <= 102 then Some((c as int) - 87)
    else None
  }

  // Radix-16 parsing of four characters, which allows a leading plus; no surrogates.
  function Hex4(h: Bytes): (code: Option<int>)
    requires |h| == 4
    ensures code.Some? ==> 0 <= code.value < 0x1_0000
  {
    var d0, d1, d2, d3 := if h[0] == PLUS then Some(0) else HexDigit(h[0]), HexDigit(h[1]), HexDigit(h[2]), HexDigit(h[3]);
    if d0.None? || d1.None? || d2.None? || d3.None? then None
    else
      var code := d0.value * 4096 + d1.value * 256 + d2.value * 16 + d3.value;
      if 0xD800 <= code <= 0xDFFF then None else Some(code)
  }

  function Unescaped(c: Byte): Option<Byte> {
    if c == QUOTE || c == BACKSLASH || c == 47 then Some(c)
    else if c == 110 then Some(10)
    else if c == 114 then Some(13)
    else if c == 116 then Some(9)
    else if c == 98 then Some(8)
    else if c == 102 then Some(12)
    else None
  }

  // The rest of a string after its opening quote.
  function ParseChars(r: Bytes): (p: Parsed<Bytes>)
    ensures p.Ok? ==> |p.rest| < |r|
    decreases |r|
  {
    if r == [] then Fail
    else if r[0] == QUOTE then Ok([], r[1..])
    else if r[0] == BACKSLASH then
      if |r| < 2 then Fail
      else if r[1] == 117 then
        if |r| < 6 || Hex4(r[2..6]).None? then Fail
        else Prepend(Utf8(Hex4(r[2..6]).value), ParseChars(r[6..]))
      else if Unescaped(r[1]).None? then Fail
      else Prepend([Unescaped(r[1]).value], ParseChars(r[2..]))
    else Prepend(Pushed(r[0]), ParseChars(r[1..]))
  }

  // The first character is skipped unread.
  function ParseString(r: Bytes): (p: Parsed<Bytes>)
    ensures p.Ok? ==> |p.rest| < |r|
  {
    if r == [] then Fail else ParseChars(r[1..])
  }

  function DigitRun(r: Bytes): (n: nat)
    ensures n <= |r|
  {
    if r != [] && IsDigit(r[0]) then 1 + DigitRun(r[1..]) else 0
  }

  function Value(digits: Bytes): int {
    if digits == [] then 0 else 10 * Value(digits[..|digits| - 1]) + (digits[|digits| - 1] as int) - 48
  }

  function ParseInt(negative: bool, digits: Bytes): Option<int> {
    if digits == [] then None
    else
      var n := if negative then -Value(digits) else Value(digits);
      if MIN_I64 <= n <= MAX_I64 then Some(n) else None
  }

  // Maximal munch: sign, digits, fraction, exponent.
  function ParseNumber(r: Bytes): (p: Parsed<Json>)
    requires r != [] && (r[0] == MINUS || IsDigit(r[0]))
    ensures p.Ok? ==> |p.rest| < |r|
  {
    assert IsDigit(r[0]) ==> DigitRun(r) >= 1 && r[0..] == r;
    var sign := if r[0] == MINUS then 1 else 0;
    var i := sign + DigitRun(r[sign..]);
    Finish(r[..i], sign, r[sign..i], r[i..])
  }

  // The number after its sign and digits: a float at a dot or an exponent.
  function Finish(head: Bytes, sign: nat, digits: Bytes, rest: Bytes): (p: Parsed<Json>)
    requires sign <= |head|
    ensures p.Ok? ==> |p.rest| <= |rest|
  {
    if rest != [] && (rest[0] == DOT || IsExponent(rest[0])) then ParseFloat(head, |head| - sign, rest)
    else
      match ParseInt(sign == 1, digits)
      case Some(n) => Ok(Int(n), rest)
      case None => Fail
  }

  predicate IsExponent(c: Byte) { c == 101 || c == 69 }

  // An exponent at the start of `q`: its length, 0 for none, and its digits.
  function Exponent(q: Bytes): (e: (nat, nat))
    ensures e.0 <= |q|
  {
    if q == [] || !IsExponent(q[0]) then (0, 0)
    else
      var k := if 1 < |q| && (q[1] == PLUS || q[1] == MINUS) then 2 else 1;
      (k + DigitRun(q[k..]), DigitRun(q[k..]))
  }

  // A fraction at the start of `q`: its length, 0 for none, and its digits.
  function Fraction(q: Bytes): (f: (nat, nat))
    ensures f.0 <= |q|
  {
    if q == [] || q[0] != DOT then (0, 0) else (1 + DigitRun(q[1..]), DigitRun(q[1..]))
  }

  // A number that after `head`, with `whole` digits, goes on with a fraction or
  // an exponent; it needs a digit in the mantissa and one in the exponent.
  function ParseFloat(head: Bytes, whole: nat, r: Bytes): (p: Parsed<Json>)
    ensures p.Ok? ==> |p.rest| <= |r|
  {
    var (flen, fdigits) := Fraction(r);
    var (elen, edigits) := Exponent(r[flen..]);
    if whole + fdigits == 0 || (elen > 0 && edigits == 0) then Fail
    else Ok(Float(head + r[..flen + elen]), r[flen + elen..])
  }

  function ParseLiteral(r: Bytes, lit: Bytes, v: Json): (p: Parsed<Json>)
    requires lit != []
    ensures p.Ok? ==> |p.rest| < |r|
  {
    if lit <= r then Ok(v, r[|lit|..]) else Fail
  }

  function ParseValue(r0: Bytes): (p: Parsed<Json>)
    ensures p.Ok? ==> |p.rest| < |r0|
    decreases |r0|, 2
  {
    var r := SkipSpace(r0);
    if r == [] then Fail
    else if r[0] == QUOTE then
      match ParseString(r)
      case Ok(s, rest) => Ok(Str(s), rest)
      case Fail => Fail
    else if r[0] == LBRACE then ParseObject(r)
    else if r[0] == LBRACKET then ParseArray(r)
    else if r[0] == 116 then ParseLiteral(r, TRUE, Bool(true))
    else if r[0] == 102 then ParseLiteral(r, FALSE, Bool(false))
    else if r[0] == 110 then ParseLiteral(r, NULL, Null)
    else if r[0] == MINUS || IsDigit(r[0]) then ParseNumber(r)
    else Fail
  }

  function ParseArray(r: Bytes): (p: Parsed<Json>)
    requires r != []
    ensures p.Ok? ==> |p.rest| < |r|
    decreases |r|, 1
  {
    var q := SkipSpace(r[1..]);
    if q != [] && q[0] == RBRACKET then Ok(Array([]), q[1..])
    else
      match ParseItems(q)
      case Ok(items, rest) => Ok(Array(items), rest)
      case Fail => Fail
  }

  function ParseItems(r0: Bytes): (p: Parsed<seq<Json>>)
    ensures p.Ok? ==> |p.rest| < |r0|
    decreases |r0|, 3
  {
    match ParseValue(SkipSpace(r0))
    case Fail => Fail
    case Ok(v, r1) =>
      var r := SkipSpace(r1);
      if r == [] then Fail
      else if r[0] == COMMA then
        match ParseItems(r[1..])
        case Ok(vs, rest) => Ok([v] + vs, rest)
        case Fail => Fail
      else if r[0] == RBRACKET then Ok([v], r[1..])
      else Fail
  }

  function ParseObject(r: Bytes): (p: Parsed<Json>)
    requires r != []
    ensures p.Ok? ==> |p.rest| < |r|
    decreases |r|, 1
  {
    var q := SkipSpace(r[1..]);
    if q != [] && q[0] == RBRACE then Ok(Object([]), q[1..])
    else
      match ParseMembers(q)
      case Ok(members, rest) => Ok(Object(members), rest)
      case Fail => Fail
  }

  function ParseMember(r0: Bytes): (p: Parsed<Member>)
    ensures p.Ok? ==> |p.rest| < |r0|
    decreases |r0|, 3
  {
    match ParseString(SkipSpace(r0))
    case Fail => Fail
    case Ok(key, r1) =>
      var r := SkipSpace(r1);
      if r == [] || r[0] != COLON then Fail
      else
        match ParseValue(SkipSpace(r[1..]))
        case Ok(v, rest) => Ok(Member(key, v), rest)
        case Fail => Fail
  }

  function ParseMembers(r0: Bytes): (p: Parsed<seq<Member>>)
    ensures p.Ok? ==> |p.rest| < |r0|
    decreases |r0|, 4
  {
    match ParseMember(r0)
    case Fail => Fail
    case Ok(m, r1) =>
      var r := SkipSpace(r1);
      if r == [] then Fail
      else if r[0] == COMMA then
        match ParseMembers(r[1..])
        case Ok(ms, rest) => Ok([m] + ms, rest)
        case Fail => Fail
      else if r[0] == RBRACE then Ok([m], r[1..])
      else Fail
  }

  function ParseJson(s: Bytes): Option<Json> {
    match ParseValue(s)
    case Ok(v, rest) => if SkipSpace(rest) == [] then Some(v) else None
    case Fail => None
  }

  // A fact kept under a quantifier that only `Unfold` triggers is not expanded by a
  // lemma that merely passes it on.
  predicate Unfold(k: int) { true }

  // ---- Numbers ----

  predicate UnfoldPart(k: int) { true }

  ghost predicate IsFraction(q: Bytes, len: nat, digits: nat) {
    len <= |q| && forall k {:trigger UnfoldPart(k)} :: UnfoldPart(k) ==> (len, digits) == Fraction(q)
  }

  ghost predicate IsExponentPart(q: Bytes, len: nat, digits: nat) {
    len <= |q| && forall k {:trigger UnfoldPart(k)} :: UnfoldPart(k) ==> (len, digits) == Exponent(q)
  }

  ghost predicate IsFloat(p: Parsed<Json>, head: Bytes, whole: nat, q: Bytes) {
    forall k {:trigger Unfold(k)} :: Unfold(k) ==> p == ParseFloat(head, whole, q)
  }

  predicate UnfoldNumber(k: int) { true }

  ghost predicate IsNumber(p: Parsed<Json>, q: Bytes)
    requires q != [] && (q[0] == MINUS || IsDigit(q[0]))
  {
    forall k {:trigger UnfoldNumber(k)} :: UnfoldNumber(k) ==> p == ParseNumber(q)
  }

  ghost predicate IsInteger(p: Parsed<Json>, negative: bool, digits: Bytes, rest: Bytes) {
    forall k {:trigger Unfold(k)} :: Unfold(k) ==>
      p == match ParseInt(negative, digits)
           case Some(n) => Ok(Int(n), rest)
           case None => Fail
  }

  // A number after its sign and digits.
  ghost predicate IsSplit(p: Parsed<Json>, head: Bytes, sign: nat, digits: Bytes, rest: Bytes)
    requires sign <= |head|
  {
    forall k {:trigger UnfoldNumber(k)} :: UnfoldNumber(k) ==> p == Finish(head, sign, digits, rest)
  }

  lemma SplitCases(p: Parsed<Json>, head: Bytes, sign: nat, digits: Bytes, rest: Bytes)
    requires sign <= |head| && IsSplit(p, head, sign, digits, rest)
    ensures if rest != [] && (rest[0] == DOT || IsExponent(rest[0])) then IsFloat(p, head, |head| - sign, rest)
            else IsInteger(p, sign == 1, digits, rest)
  {
    assert UnfoldNumber(0);
  }

  // The number `input[start..]` with its sign and digits up to `end`.
  lemma NumberFrom(p: Parsed<Json>, input: Bytes, start: nat, sign: nat, end: nat)
    requires start < |input| && (input[start] == MINUS || IsDigit(input[start])) && IsNumber(p, input[start..])
    requires sign == (if input[start] == MINUS then 1 else 0)
    requires end == start + sign + DigitRun(input[start + sign..]) && end <= |input|
    ensures IsSplit(p, input[start..end], sign, input[start + sign..end], input[end..])
  {
    NumberSlices(input, start, sign, end);
    var q, i := input[start..], end - start;
    NumberSplit(p, q, sign, i);
    SameSplit(p, q[..i], input[start..end], sign, q[sign..i], input[start + sign..end], q[i..], input[end..]);
  }

  lemma SameSplit(p: Parsed<Json>, head: Bytes, head': Bytes, sign: nat, digits: Bytes, digits': Bytes, rest: Bytes, rest': Bytes)
    requires sign <= |head| && IsSplit(p, head, sign, digits, rest) && head == head' && digits == digits' && rest == rest'
    ensures IsSplit(p, head', sign, digits', rest')
  {
  }

  lemma NumberSlices(input: Bytes, start: nat, sign: nat, end: nat)
    requires start + sign <= end <= |input|
    ensures input[start..][sign..] == input[start + sign..] && input[start..][end - start..] == input[end..]
    ensures input[start..][sign..end - start] == input[start + sign..end] && input[start..][..end - start] == input[start..end]
  {
    Slices(input, start, start, sign);
    Slices(input, start, start, end - start);
  }

  lemma NumberSplit(p: Parsed<Json>, q: Bytes, sign: nat, i: nat)
    requires q != [] && (q[0] == MINUS || IsDigit(q[0])) && IsNumber(p, q)
    requires sign == (if q[0] == MINUS then 1 else 0) && i == sign + DigitRun(q[sign..]) <= |q|
    ensures IsSplit(p, q[..i], sign, q[sign..i], q[i..])
  {
    assert UnfoldNumber(0);
  }

  // The number `input[start..]` with its fraction at `from`.
  lemma FloatFrom(p: Parsed<Json>, input: Bytes, start: nat, from: nat, whole: nat, flen: nat, fdigits: nat, elen: nat, edigits: nat)
    requires start <= from <= |input| && IsFloat(p, input[start..from], whole, input[from..])
    requires IsFraction(input[from..], flen, fdigits) && IsExponentPart(input[from + flen..], elen, edigits)
    ensures p ==
      if whole + fdigits == 0 || (elen > 0 && edigits == 0) then Fail
      else Ok(Float(input[start..from + flen + elen]), input[from + flen + elen..])
  {
    Slices(input, start, from, flen);
    Slices(input, start, from, flen + elen);
    FloatSplit(p, input[start..from], whole, input[from..], flen, fdigits, elen, edigits);
  }

  lemma FloatSplit(p: Parsed<Json>, head: Bytes, whole: nat, q: Bytes, flen: nat, fdigits: nat, elen: nat, edigits: nat)
    requires IsFloat(p, head, whole, q) && IsFraction(q, flen, fdigits) && IsExponentPart(q[flen..], elen, edigits)
    ensures flen + elen <= |q|
    ensures p ==
      if whole + fdigits == 0 || (elen > 0 && edigits == 0) then Fail else Ok(Float(head + q[..flen + elen]), q[flen + elen..])
  {
    assert Unfold(0) && UnfoldPart(0);
  }

  lemma Slices(input: Bytes, start: nat, from: nat, n: nat)
    requires start <= from && from + n <= |input|
    ensures input[from..][n..] == input[from + n..]
    ensures input[start..from] + input[from..][..n] == input[start..from + n]
  {
  }
  // ---- The parser object ----

  class JsonParser {
    const input: Bytes
    var pos: nat

    constructor (input: Bytes)
      ensures this.input == input && pos == 0
    {
      this.input, pos := input, 0;
    }

    // What is left; a read past the end leaves nothing.
    ghost function Rest(): Bytes
      reads this
    {
      if pos <= |input| then input[pos..] else []
    }

    method SkipWs()
      modifies this
      requires pos <= |input|
      ensures old(pos) <= pos <= |input| && Rest() == SkipSpace(old(Rest()))
    {
      while pos < |input| && IsSpace(input[pos])
        invariant old(pos) <= pos <= |input|
        invariant SkipSpace(Rest()) == SkipSpace(old(Rest()))
      {
        assert Rest()[0] == input[pos] && Rest()[1..] == input[pos + 1..];
        pos := pos + 1;
      }
      assert pos < |input| ==> Rest()[0] == input[pos];
    }

    method Peek() returns (c: Option<Byte>)
      requires pos <= |input|
      ensures c == if Rest() == [] then None else Some(Rest()[0])
    {
      c := if pos < |input| then Some(input[pos]) else None;
    }

    method Advance() returns (c: Option<Byte>)
      modifies this
      requires pos <= |input|
      ensures pos == old(pos) + 1
      ensures c == if old(Rest()) == [] then None else Some(old(Rest())[0])
      ensures c.Some? ==> pos <= |input| && Rest() == old(Rest())[1..]
    {
      c := if pos < |input| then Some(input[pos]) else None;
      pos := pos + 1;
    }

    // The outcome and the position match the function on the rest of the input.
    ghost predicate Agrees<T>(spec: Parsed<T>, r: Option<T>)
      reads this
    {
      match spec
      case Ok(v, rest) => r == Some(v) && pos <= |input| && Rest() == rest
      case Fail => r.None?
    }

    method ExpectLiteral(lit: Bytes) returns (ok: bool)
      modifies this
      requires pos <= |input|
      ensures old(pos) <= pos && (ok <==> lit <= old(Rest()))
      ensures ok ==> pos <= |input| && Rest() == old(Rest())[|lit|..]
    {
      for i := 0 to |lit|
        invariant pos == old(pos) + i <= |input| && lit[..i] == old(Rest())[..i]
        invariant Rest() == old(Rest())[i..]
      {
        var c := Advance();
        if c != Some(lit[i]) {
          return false;
        }
      }
      ok := true;
    }

    method ParseEscape() returns (r: Option<Bytes>)
      modifies this
      requires pos <= |input|
      ensures old(pos) < pos
      ensures
        var q := old(Rest());
        if q == [] then r.None?
        else if q[0] == 117 then
          if |q| < 5 || Hex4(q[1..5]).None? then r.None?
          else r == Some(Utf8(Hex4(q[1..5]).value)) && pos <= |input| && Rest() == q[5..]
        else if Unescaped(q[0]).None? then r.None?
        else r == Some([Unescaped(q[0]).value]) && pos <= |input| && Rest() == q[1..]
    {
      ghost var q := Rest();
      var c := Advance();
      if c.None? {
        return None;
      }
      if c.value == 117 {
        var hex: Bytes := [];
        for i := 0 to 4
          invariant |hex| == i && pos == old(pos) + 1 + i <= |input| && 1 + i <= |q|
          invariant hex == q[1..1 + i] && Rest() == q[1 + i..]
        {
          var h := Advance();
          if h.None? {
            return None;
          }
          hex := hex + [h.value];
        }
        var code := Hex4(hex);
        return if code.None? then None else Some(Utf8(code.value));
      }
      var e := Unescaped(c.value);
      r := if e.None? then None else Some([e.value]);
    }

    // Digits from the current position on.
    method SkipDigits()
      modifies this
      requires pos <= |input|
      ensures pos == old(pos) + DigitRun(old(Rest())) && pos <= |input|
    {
      ghost var start := Rest();
      while pos < |input| && IsDigit(input[pos])
        invariant old(pos) <= pos <= |input|
        invariant pos + DigitRun(Rest()) == old(pos) + DigitRun(start)
      {
        assert Rest()[0] == input[pos] && Rest()[1..] == input[pos + 1..];
        pos := pos + 1;
      }
      assert pos < |input| ==> Rest()[0] == input[pos];
    }

    method SkipExponent() returns (len: nat, digits: nat)
      modifies this
      requires pos <= |input|
      ensures IsExponentPart(old(Rest()), len, digits) && pos == old(pos) + len
    {
      ghost var q := Rest();
      var start := pos;
      len, digits := 0, 0;
      if pos < |input| && IsExponent(input[pos]) {
        pos := pos + 1;
        assert pos < |input| ==> input[pos] == q[1];
        if pos < |input| && (input[pos] == PLUS || input[pos] == MINUS) {
          pos := pos + 1;
        }
        var k := pos;
        SkipDigits();
        len, digits := pos - start, pos - k;
      }
    }

    method SkipFraction() returns (len: nat, digits: nat)
      modifies this
      requires pos <= |input|
      ensures IsFraction(old(Rest()), len, digits) && pos == old(pos) + len
    {
      len, digits := 0, 0;
      if pos < |input| && input[pos] == DOT {
        pos := pos + 1;
        var k := pos;
        SkipDigits();
        len, digits := 1 + pos - k, pos - k;
      }
    }

    method ParseFraction(start: nat, whole: nat, ghost p: Parsed<Json>) returns (r: Option<Json>)
      modifies this
      requires start <= pos <= |input| && IsFloat(p, input[start..pos], whole, Rest())
      ensures old(pos) <= pos <= |input| && Agrees(p, r)
    {
      ghost var from := pos;
      var flen, fdigits := SkipFraction();
      var elen, edigits := SkipExponent();
      FloatFrom(p, input, start, from, whole, flen, fdigits, elen, edigits);
      r := if whole + fdigits == 0 || (elen > 0 && edigits == 0) then None else Some(Float(input[start..pos]));
    }

    method ParseNum() returns (r: Option<Json>)
      modifies this
      requires pos < |input| && (input[pos] == MINUS || IsDigit(input[pos]))
      ensures old(pos) <= pos <= |input| && Agrees(ParseNumber(old(Rest())), r)
    {
      r := ScanNumber(ParseNumber(Rest()));
    }

    method ScanNumber(ghost p: Parsed<Json>) returns (r: Option<Json>)
      modifies this
      requires pos < |input| && (input[pos] == MINUS || IsDigit(input[pos])) && IsNumber(p, Rest())
      ensures old(pos) <= pos <= |input| && Agrees(p, r)
    {
      var start := pos;
      if input[pos] == MINUS {
        pos := pos + 1;
      }
      var sign := pos - start;
      SkipDigits();
      NumberFrom(p, input, start, sign, pos);
      SplitCases(p, input[start..pos], sign, input[start + sign..pos], Rest());
      if pos < |input| && (input[pos] == DOT || IsExponent(input[pos])) {
        r := ParseFraction(start, pos - start - sign, p);
        return;
      }
      r := Integer(sign == 1, input[start + sign..pos], p);
    }

    method Integer(negative: bool, digits: Bytes, ghost p: Parsed<Json>) returns (r: Option<Json>)
      requires pos <= |input| && IsInteger(p, negative, digits, Rest())
      ensures Agrees(p, r)
    {
      assert Unfold(0);
      var n := ParseInt(negative, digits);
      r := if n.None? then None else Some(Int(n.value));
    }

    method ParseStr() returns (r: Option<Bytes>)
      modifies this
      requires pos <= |input|
      ensures old(pos) < pos && Agrees(ParseString(old(Rest())), r)
    {
      var first := Advance();
      if first.None? {
        return None;
      }
      ghost var start := Rest();
      var s: Bytes := [];
      PrependNothing(ParseChars(start));
      while true
        invariant old(pos) < pos <= |input|
        invariant ParseChars(start) == Prepend(s, ParseChars(Rest()))
        decreases |input| - pos
      {
        ghost var here := Rest();
        var c := Advance();
        if c.None? {
          return None;
        }
        if c.value == QUOTE {
          assert s + [] == s;
          return Some(s);
        }
        if c.value == BACKSLASH {
          EscapeSlices(here);
          var e := ParseEscape();
          if e.None? {
            return None;
          }
          PrependTwice(s, e.value, ParseChars(Rest()));
          s := s + e.value;
        } else {
          PrependTwice(s, Pushed(c.value), ParseChars(Rest()));
          s := s + Pushed(c.value);
        }
      }
    }

    method ParseVal() returns (r: Option<Json>)
      modifies this
      requires pos <= |input|
      ensures old(pos) <= pos && Agrees(ParseValue(old(Rest())), r)
      decreases |input| - pos, 2
    {
      SkipWs();
      var c := Peek();
      if c.None? {
        return None;
      }
      if c.value == QUOTE {
        var s := ParseStr();
        return if s.None? then None else Some(Str(s.value));
      } else if c.value == LBRACE {
        r := ParseObj();
      } else if c.value == LBRACKET {
        r := ParseArr();
      } else if c.value == 116 {
        var ok := ExpectLiteral(TRUE);
        return if ok then Some(Bool(true)) else None;
      } else if c.value == 102 {
        var ok := ExpectLiteral(FALSE);
        return if ok then Some(Bool(false)) else None;
      } else if c.value == 110 {
        var ok := ExpectLiteral(NULL);
        return if ok then Some(Null) else None;
      } else if c.value == MINUS || IsDigit(c.value) {
        r := ParseNum();
      } else {
        r := None;
      }
    }

    method ParseArr() returns (r: Option<Json>)
      modifies this
      requires pos < |input|
      ensures old(pos) < pos && Agrees(ParseArray(old(Rest())), r)
      decreases |input| - pos, 1
    {
      var _ := Advance();
      SkipWs();
      var c := Peek();
      if c == Some(RBRACKET) {
        var _ := Advance();
        return Some(Array([]));
      }
      var items := ParseItemList();
      r := if items.None? then None else Some(Array(items.value));
    }

    method ParseItemList() returns (r: Option<seq<Json>>)
      modifies this
      requires pos <= |input|
      ensures old(pos) <= pos && Agrees(ParseItems(old(Rest())), r)
      decreases |input| - pos, 4
    {
      ghost var start := ParseItems(Rest());
      var items: seq<Json> := [];
      ItemsNothing(start);
      while true
        invariant old(pos) <= pos <= |input|
        invariant ItemsSoFar(items, ParseItems(Rest())) == start
        decreases |input| - pos
      {
        var v, more := ParseItem();
        if v.None? {
          return None;
        }
        if !more {
          return Some(items + [v.value]);
        }
        ItemsTwice(items, v.value, ParseItems(Rest()));
        items := items + [v.value];
      }
    }

    // One item and what follows it: a comma, or the closing bracket.
    method ParseItem() returns (v: Option<Json>, more: bool)
      modifies this
      requires pos <= |input|
      ensures old(pos) <= pos
      ensures v.None? ==> ParseItems(old(Rest())).Fail?
      ensures v.Some? ==> old(pos) < pos <= |input|
      ensures v.Some? ==>
        ParseItems(old(Rest())) == if more then ItemsSoFar([v.value], ParseItems(Rest())) else Ok([v.value], Rest())
      decreases |input| - pos, 3
    {
      more := false;
      SkipWs();
      v := ParseVal();
      if v.None? {
        return;
      }
      SkipWs();
      var d := Peek();
      if d == Some(COMMA) {
        more := true;
      } else if d != Some(RBRACKET) {
        v := None;
        return;
      }
      var _ := Advance();
    }

    method ParseObj() returns (r: Option<Json>)
      modifies this
      requires pos < |input|
      ensures old(pos) < pos && Agrees(ParseObject(old(Rest())), r)
      decreases |input| - pos, 1
    {
      var _ := Advance();
      SkipWs();
      var c := Peek();
      if c == Some(RBRACE) {
        var _ := Advance();
        return Some(Object([]));
      }
      var members := ParseMemberList();
      r := if members.None? then None else Some(Object(members.value));
    }

    method ParseMemberList() returns (r: Option<seq<Member>>)
      modifies this
      requires pos <= |input|
      ensures old(pos) <= pos && Agrees(ParseMembers(old(Rest())), r)
      decreases |input| - pos, 5
    {
      ghost var start := ParseMembers(Rest());
      var members: seq<Member> := [];
      MembersNothing(start);
      while true
        invariant old(pos) <= pos <= |input|
        invariant MembersSoFar(members, ParseMembers(Rest())) == start
        decreases |input| - pos
      {
        var m, more := ParsePair();
        if m.None? {
          return None;
        }
        if !more {
          return Some(members + [m.value]);
        }
        MembersTwice(members, m.value, ParseMembers(Rest()));
        members := members + [m.value];
      }
    }

    // One member and what follows it: a comma, or the closing brace.
    method ParsePair() returns (m: Option<Member>, more: bool)
      modifies this
      requires pos <= |input|
      ensures old(pos) <= pos
      ensures m.None? ==> ParseMembers(old(Rest())).Fail?
      ensures m.Some? ==> old(pos) < pos <= |input|
      ensures m.Some? ==>
        ParseMembers(old(Rest())) == if more then MembersSoFar([m.value], ParseMembers(Rest())) else Ok([m.value], Rest())
      decreases |input| - pos, 4
    {
      more := false;
      m := ParseMem();
      if m.None? {
        return;
      }
      SkipWs();
      var d := Peek();
      if d == Some(COMMA) {
        more := true;
      } else if d != Some(RBRACE) {
        m := None;
        return;
      }
      var _ := Advance();
    }

    // A key, a colon, a value.
    method ParseMem() returns (r: Option<Member>)
      modifies this
      requires pos <= |input|
      ensures old(pos) <= pos && Agrees(ParseMember(old(Rest())), r)
      decreases |input| - pos, 3
    {
      SkipWs();
      var key := ParseStr();
      if key.None? {
        return None;
      }
      SkipWs();
      var colon := Advance();
      if colon != Some(COLON) {
        return None;
      }
      SkipWs();
      var v := ParseVal();
      r := if v.None? then None else Some(Member(key.value, v.value));
    }
  }

  // `parse_json`.
  method Parse(text: Bytes) returns (r: Option<Json>)
    ensures r == ParseJson(text)
  {
    var p := new JsonParser(text);
    var v := p.ParseVal();
    if v.None? {
      return None;
    }
    p.SkipWs();
    r := if p.pos != |text| then None else v;
  }

  function ItemsSoFar(vs: seq<Json>, p: Parsed<seq<Json>>): Parsed<seq<Json>> {
    match p
    case Ok(more, rest) => Ok(vs + more, rest)
    case Fail => Fail
  }

  lemma ItemsNothing(p: Parsed<seq<Json>>)
    ensures ItemsSoFar([], p) == p
  {
    assert p.Ok? ==> [] + p.value == p.value;
  }

  lemma ItemsTwice(vs: seq<Json>, v: Json, p: Parsed<seq<Json>>)
    ensures ItemsSoFar(vs, ItemsSoFar([v], p)) == ItemsSoFar(vs + [v], p)
  {
    assert p.Ok? ==> vs + ([v] + p.value) == vs + [v] + p.value;
  }

  function MembersSoFar(ms: seq<Member>, p: Parsed<seq<Member>>): Parsed<seq<Member>> {
    match p
    case Ok(more, rest) => Ok(ms + more, rest)
    case Fail => Fail
  }

  lemma MembersNothing(p: Parsed<seq<Member>>)
    ensures MembersSoFar([], p) == p
  {
    assert p.Ok? ==> [] + p.value == p.value;
  }

  lemma MembersTwice(ms: seq<Member>, m: Member, p: Parsed<seq<Member>>)
    ensures MembersSoFar(ms, MembersSoFar([m], p)) == MembersSoFar(ms + [m], p)
  {
    assert p.Ok? ==> ms + ([m] + p.value) == ms + [m] + p.value;
  }

  lemma PrependNothing(p: Parsed<Bytes>)
    ensures Prepend([], p) == p
  {
    assert p.Ok? ==> [] + p.value == p.value;
  }

  lemma PrependTwice(s: Bytes, t: Bytes, p: Parsed<Bytes>)
    ensures Prepend(s, Prepend(t, p)) == Prepend(s + t, p)
  {
    assert p.Ok? ==> s + (t + p.value) == s + t + p.value;
  }

  lemma EscapeSlices(r: Bytes)
    requires r != []
    ensures |r| >= 6 ==> r[1..][1..5] == r[2..6] && r[1..][5..] == r[6..]
    ensures |r| >= 2 ==> r[1..][1..] == r[2..]
  {
    if |r| >= 2 {
      assert r[1..][1..] == r[2..];
    }
    if |r| >= 6 {
      assert r[1..][1..5] == r[2..6];
      assert r[1..][5..] == r[6..];
    }
  }
}
