// The parser of `Json` accepts exactly the texts that spell a value in `JsonGrammar`,
// and reads them as that value.
module JsonReading {
  import opened JsonValue
  import opened Json
  import G = JsonGrammar

  // ---- Blanks ----

  lemma {:induction false} SkipBlank(b: Bytes, r: Bytes)
    requires G.Blank(b) && (r == [] || !G.BlankByte(r[0]))
    ensures SkipSpace(b + r) == r
  {
    if b == [] {
      assert b + r == r;
    } else {
      assert (b + r)[1..] == b[1..] + r;
      SkipBlank(b[1..], r);
    }
  }

  lemma {:induction false} BlankOf(r: Bytes) returns (b: Bytes)
    ensures G.Blank(b) && r == b + SkipSpace(r) && (SkipSpace(r) == [] || !G.BlankByte(SkipSpace(r)[0]))
  {
    b := [];
    if r != [] && IsSpace(r[0]) {
      b := BlankOf(r[1..]);
      b := [r[0]] + b;
    }
  }

  // ---- Strings ----

  lemma EncodesOnly(bytes: Bytes, code: int)
    requires 0 <= code < 0x1_0000
    ensures G.Encodes(bytes, code) <==> bytes == Utf8(code)
  {
    if code >= 0x800 {
      ThreeBytes(bytes, code);
    }
  }

  lemma ThreeBytes(bytes: Bytes, code: int)
    requires 0x800 <= code < 0x1_0000
    ensures G.Encodes(bytes, code) <==> bytes == [224 + code / 4096, 128 + code / 64 % 64, 128 + code % 64]
  {
    if G.Encodes(bytes, code) {
      var x, y, w := bytes[0] as int - 0xE0, bytes[1] as int - 0x80, bytes[2] as int - 0x80;
      assert code == (x * 64 + y) * 64 + w;
      assert code / 64 == x * 64 + y;
    }
  }

  lemma HexIff(c: Byte, d: int)
    ensures HexDigit(c) == Some(d) <==> G.Hex(c, d)
  {
  }

  lemma EscapeIff(letter: Byte, c: Byte)
    ensures Unescaped(letter) == Some(c) <==> (letter, c) in G.ESCAPES
  {
    assert G.ESCAPES[0] == (34, 34) && G.ESCAPES[1] == (92, 92) && G.ESCAPES[2] == (47, 47) && G.ESCAPES[3] == (98, 8);
    assert G.ESCAPES[4] == (102, 12) && G.ESCAPES[5] == (110, 10) && G.ESCAPES[6] == (114, 13) && G.ESCAPES[7] == (116, 9);
  }

  lemma CodeReads(p: G.Piece)
    requires p.Code? && G.GoodPiece(p)
    ensures var h := Hex4([p.a, p.b, p.c, p.d]); h.Some? && Utf8(h.value) == p.bytes
  {
    var i, j, k, l :| G.GoodCode(p, i, j, k, l);
    HexIff(p.a, i);
    HexIff(p.b, j);
    HexIff(p.c, k);
    HexIff(p.d, l);
    EncodesOnly(p.bytes, i * 0x1000 + j * 0x100 + k * 0x10 + l);
  }

  lemma PieceReads(p: G.Piece, more: Bytes)
    requires G.GoodPiece(p)
    ensures ParseChars(G.SpellPiece(p) + more) == Prepend(G.PieceBytes(p), ParseChars(more))
  {
    var r := G.SpellPiece(p) + more;
    match p
    case Plain(c, bytes) =>
      EncodesOnly(bytes, c);
      assert r[1..] == more;
    case Short(letter, c) =>
      EscapeIff(letter, c);
      assert r[2..] == more;
    case Code(_, _, _, _, _) =>
      CodeReads(p);
      assert r[2..6] == [p.a, p.b, p.c, p.d] && r[6..] == more;
  }

  ghost predicate ReadsChars(r: Bytes, s: Bytes, z: Bytes) {
    forall k {:trigger Unfold(k)} :: Unfold(k) ==> ParseChars(r) == Ok(s, z)
  }

  ghost predicate CharsRead(ps: seq<G.Piece>, z: Bytes) {
    ReadsChars(G.SpellPieces(ps) + ([QUOTE] + z), G.PiecesBytes(ps), z)
  }

  lemma PieceReadsOn(p: G.Piece, more: Bytes, s: Bytes, z: Bytes)
    requires G.GoodPiece(p) && ReadsChars(more, s, z)
    ensures ReadsChars(G.SpellPiece(p) + more, G.PieceBytes(p) + s, z)
  {
    assert Unfold(0);
    PieceReads(p, more);
  }

  lemma MoreChars(p: G.Piece, ps: seq<G.Piece>, z: Bytes)
    requires G.GoodPiece(p) && CharsRead(ps, z)
    ensures CharsRead([p] + ps, z)
  {
    var more := G.SpellPieces(ps) + ([QUOTE] + z);
    PieceReadsOn(p, more, G.PiecesBytes(ps), z);
    assert ([p] + ps)[1..] == ps;
    assert G.SpellPieces([p] + ps) + ([QUOTE] + z) == G.SpellPiece(p) + more;
  }

  lemma {:induction false} PiecesRead(ps: seq<G.Piece>, z: Bytes)
    requires G.GoodPieces(ps)
    ensures CharsRead(ps, z)
  {
    if ps == [] {
      assert [] + ([QUOTE] + z) == [QUOTE] + z && ([QUOTE] + z)[1..] == z;
    } else {
      PiecesRead(ps[1..], z);
      MoreChars(ps[0], ps[1..], z);
      assert [ps[0]] + ps[1..] == ps;
    }
  }

  lemma CodeOf(a: Byte, b: Byte, c: Byte, d: Byte)
    requires Hex4([a, b, c, d]).Some?
    ensures G.GoodPiece(G.Code(a, b, c, d, Utf8(Hex4([a, b, c, d]).value)))
  {
    var i, j, k, l := HexParts(a, b, c, d);
    var code := i * 4096 + j * 256 + k * 16 + l;
    EncodesOnly(Utf8(code), code);
    assert G.GoodCode(G.Code(a, b, c, d, Utf8(code)), i, j, k, l);
  }

  lemma HexParts(a: Byte, b: Byte, c: Byte, d: Byte) returns (i: int, j: int, k: int, l: int)
    requires Hex4([a, b, c, d]).Some?
    ensures G.FirstHex(a, i) && G.Hex(b, j) && G.Hex(c, k) && G.Hex(d, l)
    ensures
      var code := i * 4096 + j * 256 + k * 16 + l;
      Hex4([a, b, c, d]).value == code && 0 <= code < 0x1_0000 && !(0xD800 <= code < 0xE000)
  {
    i, j, k, l := if a == PLUS then 0 else HexDigit(a).value, HexDigit(b).value, HexDigit(c).value, HexDigit(d).value;
  }

  // The first character of a string that goes on.
  lemma PieceOf(r: Bytes) returns (p: G.Piece, more: Bytes)
    requires ParseChars(r).Ok? && r[0] != QUOTE
    ensures G.GoodPiece(p) && r == G.SpellPiece(p) + more && |more| < |r| && ParseChars(r) == Prepend(G.PieceBytes(p), ParseChars(more))
  {
    if r[0] == BACKSLASH {
      if r[1] == 117 {
        assert r[2..6] == [r[2], r[3], r[4], r[5]];
        CodeOf(r[2], r[3], r[4], r[5]);
        p, more := G.Code(r[2], r[3], r[4], r[5], Utf8(Hex4(r[2..6]).value)), r[6..];
      } else {
        EscapeIff(r[1], Unescaped(r[1]).value);
        p, more := G.Short(r[1], Unescaped(r[1]).value), r[2..];
      }
    } else {
      EncodesOnly(Pushed(r[0]), r[0]);
      p, more := G.Plain(r[0], Pushed(r[0])), r[1..];
    }
  }

  ghost predicate CharsSpelt(r: Bytes, ps: seq<G.Piece>, s: Bytes, z: Bytes) {
    G.GoodPieces(ps) && r == G.SpellPieces(ps) + ([QUOTE] + z) && s == G.PiecesBytes(ps)
  }

  lemma PieceAndMore(p: G.Piece, more: Bytes, ps: seq<G.Piece>, s: Bytes, z: Bytes)
    requires G.GoodPiece(p) && CharsSpelt(more, ps, s, z)
    ensures CharsSpelt(G.SpellPiece(p) + more, [p] + ps, G.PieceBytes(p) + s, z)
  {
    assert ([p] + ps)[1..] == ps;
    var a, b, c := G.SpellPiece(p), G.SpellPieces(ps), [QUOTE] + z;
    assert a + (b + c) == a + b + c;
  }

  lemma {:induction false} PiecesOf(r: Bytes) returns (ps: seq<G.Piece>)
    requires ParseChars(r).Ok?
    ensures CharsSpelt(r, ps, ParseChars(r).value, ParseChars(r).rest)
    decreases |r|
  {
    ps := [];
    if r[0] == QUOTE {
      assert r == [] + ([QUOTE] + r[1..]);
    } else {
      var p, more := PieceOf(r);
      ps := PiecesOf(more);
      PieceAndMore(p, more, ps, ParseChars(more).value, ParseChars(more).rest);
      ps := [p] + ps;
    }
  }

  // ---- Numbers ----

  // No number goes on with `z`.
  predicate Stops(z: Bytes) { z == [] || !(IsDigit(z[0]) || z[0] == DOT || IsExponent(z[0])) }

  lemma {:induction false} DigitsRun(d: Bytes, z: Bytes)
    requires G.Digits(d) && (z == [] || !IsDigit(z[0]))
    ensures DigitRun(d + z) == |d|
  {
    if d == [] {
      assert d + z == z;
    } else {
      assert (d + z)[1..] == d[1..] + z;
      DigitsRun(d[1..], z);
    }
  }

  lemma {:induction false} RunOfDigits(r: Bytes)
    ensures G.Digits(r[..DigitRun(r)]) && (DigitRun(r) < |r| ==> !IsDigit(r[DigitRun(r)]))
  {
    if r != [] && IsDigit(r[0]) {
      RunOfDigits(r[1..]);
      assert r[..DigitRun(r)] == [r[0]] + r[1..][..DigitRun(r[1..])];
    }
  }

  lemma {:induction false} ValueCons(c: Byte, d: Bytes)
    ensures Value([c] + d) == (c as int - 48) * G.Pow10(|d|) + Value(d)
  {
    if d == [] {
      assert [c] + d == [c] && [c][..0] == [];
      assert Value([c]) == c as int - 48;
    } else {
      var init, last := d[..|d| - 1], d[|d| - 1];
      ValueCons(c, init);
      assert ([c] + d)[..|d|] == [c] + init && ([c] + d)[|d|] == last;
      Tenfold(c as int - 48, |init|, Value(init), last as int - 48);
    }
  }

  lemma Tenfold(c: int, n: nat, v: int, last: int)
    ensures 10 * (c * G.Pow10(n) + v) + last == c * G.Pow10(n + 1) + (10 * v + last)
  {
  }

  lemma {:induction false} ValueIsDenoted(d: Bytes)
    ensures Value(d) == G.Denoted(d)
  {
    if d != [] {
      ValueIsDenoted(d[1..]);
      ValueCons(d[0], d[1..]);
      assert [d[0]] + d[1..] == d;
    }
  }

  predicate GoodExponent(x: G.Exponent) {
    (x.letter == 69 || x.letter == 101) && (x.sign == [] || x.sign == [43] || x.sign == [45]) && G.Digits(x.digits) && x.digits != []
  }

  lemma ExponentSlices(x: G.Exponent, z: Bytes)
    requires GoodExponent(x)
    ensures
      var q, k := [x.letter] + x.sign + x.digits + z, 1 + |x.sign|;
      && |q| > 1 && q[0] == x.letter && q[k..] == x.digits + z
      && (if x.sign == [] then IsDigit(q[1]) else q[1] == x.sign[0])
  {
    var q := [x.letter] + x.sign + x.digits + z;
    assert q[1] == if x.sign == [] then x.digits[0] else x.sign[0];
  }

  lemma ExponentReads(e: Option<G.Exponent>, z: Bytes)
    requires Stops(z) && (e.Some? ==> GoodExponent(e.value))
    ensures Exponent(G.SpellExponent(e) + z) == (|G.SpellExponent(e)|, if e.None? then 0 else |e.value.digits|)
  {
    if e.None? {
      assert [] + z == z;
    } else {
      ExponentSlices(e.value, z);
      DigitsRun(e.value.digits, z);
    }
  }

  lemma FractionReads(f: Option<Bytes>, more: Bytes)
    requires f.Some? ==> G.Digits(f.value)
    requires more == [] || !(IsDigit(more[0]) || more[0] == DOT)
    ensures Fraction(G.SpellFraction(f) + more) == (|G.SpellFraction(f)|, if f.None? then 0 else |f.value|)
  {
    var q := G.SpellFraction(f) + more;
    if f.None? {
      assert q == more;
    } else {
      DigitsRun(f.value, more);
      assert q[1..] == f.value + more;
    }
  }

  ghost predicate ReadsFloat(head: Bytes, whole: nat, r: Bytes, text: Bytes, z: Bytes) {
    forall k {:trigger Unfold(k)} :: Unfold(k) ==> ParseFloat(head, whole, r) == Ok(Float(text), z)
  }

  ghost predicate ReadsParts(f: Bytes, fdigits: nat, e: Bytes, edigits: nat, z: Bytes) {
    forall k {:trigger Unfold(k)} :: Unfold(k) ==> Fraction(f + (e + z)) == (|f|, fdigits) && Exponent(e + z) == (|e|, edigits)
  }

  lemma ParsedFloat(head: Bytes, whole: nat, f: Bytes, fdigits: nat, e: Bytes, edigits: nat, z: Bytes)
    requires ReadsParts(f, fdigits, e, edigits, z) && whole + fdigits > 0 && (e == [] || edigits > 0)
    ensures ReadsFloat(head, whole, f + (e + z), head + (f + e), z)
  {
    assert Unfold(0);
    var r := f + (e + z);
    assert r[|f|..] == e + z && r[..|f| + |e|] == f + e && r[|f| + |e|..] == z;
  }

  lemma FloatStarts(n: G.Numeral, z: Bytes)
    requires G.GoodNumeral(n) && Stops(z)
    ensures
      var r := G.SpellFraction(n.fraction) + (G.SpellExponent(n.exponent) + z);
      && (G.Whole(n) ==> r == z)
      && (!G.Whole(n) ==> r != [] && (r[0] == DOT || IsExponent(r[0])))
      && (r == [] || !IsDigit(r[0]))
  {
    if G.Whole(n) {
      assert [] + ([] + z) == z;
    }
  }

  lemma PartsRead(n: G.Numeral, z: Bytes)
    requires G.GoodNumeral(n) && Stops(z)
    ensures ReadsParts(G.SpellFraction(n.fraction), if n.fraction.None? then 0 else |n.fraction.value|,
                       G.SpellExponent(n.exponent), if n.exponent.None? then 0 else |n.exponent.value.digits|, z)
  {
    assert n.exponent.Some? ==> GoodExponent(n.exponent.value);
    FractionReads(n.fraction, G.SpellExponent(n.exponent) + z);
    ExponentReads(n.exponent, z);
  }

  lemma FloatReads(n: G.Numeral, z: Bytes)
    requires G.GoodNumeral(n) && Stops(z) && !G.Whole(n)
    ensures ReadsFloat(G.SpellHead(n), |n.whole|, G.SpellFraction(n.fraction) + (G.SpellExponent(n.exponent) + z), G.SpellNumeral(n), z)
  {
    var f, e := G.SpellFraction(n.fraction), G.SpellExponent(n.exponent);
    PartsRead(n, z);
    ParsedFloat(G.SpellHead(n), |n.whole|, f, if n.fraction.None? then 0 else |n.fraction.value|,
                e, if n.exponent.None? then 0 else |n.exponent.value.digits|, z);
    assert G.SpellNumeral(n) == G.SpellHead(n) + (f + e);
  }

  lemma HeadReads(n: G.Numeral, tail: Bytes)
    requires G.Digits(n.whole) && (n.minus || n.whole != []) && (tail == [] || !IsDigit(tail[0]))
    ensures
      var r := G.SpellHead(n) + tail;
      && r != [] && (r[0] == MINUS || IsDigit(r[0]))
      && ParseNumber(r) == Finish(G.SpellHead(n), if n.minus then 1 else 0, n.whole, tail)
  {
    var r, sign := G.SpellHead(n) + tail, if n.minus then 1 else 0;
    DigitsRun(n.whole, tail);
    assert r[sign..] == n.whole + tail;
    var i := sign + |n.whole|;
    assert r[..i] == G.SpellHead(n) && r[sign..i] == n.whole && r[i..] == tail;
  }

  lemma NumeralReads(n: G.Numeral, z: Bytes)
    requires G.GoodNumeral(n) && Stops(z)
    ensures
      var r := G.SpellNumeral(n) + z;
      && r != [] && (r[0] == MINUS || IsDigit(r[0]))
      && ParseNumber(r) == Ok(G.Meaning(G.Number(n)), z)
  {
    var tail := G.SpellFraction(n.fraction) + (G.SpellExponent(n.exponent) + z);
    assert G.SpellNumeral(n) + z == G.SpellHead(n) + tail;
    FloatStarts(n, z);
    HeadReads(n, tail);
    FinishReads(n, tail, z);
  }

  lemma FinishReads(n: G.Numeral, tail: Bytes, z: Bytes)
    requires G.GoodNumeral(n) && Stops(z) && tail == G.SpellFraction(n.fraction) + (G.SpellExponent(n.exponent) + z)
    requires if G.Whole(n) then tail == z else tail != [] && (tail[0] == DOT || IsExponent(tail[0]))
    ensures Finish(G.SpellHead(n), if n.minus then 1 else 0, n.whole, tail) == Ok(G.Meaning(G.Number(n)), z)
  {
    if G.Whole(n) {
      ValueIsDenoted(n.whole);
    } else {
      FloatReads(n, z);
      assert Unfold(0);
    }
  }

  lemma ExponentOf(q: Bytes) returns (e: Option<G.Exponent>)
    requires Exponent(q).0 > 0 ==> Exponent(q).1 > 0
    ensures q == G.SpellExponent(e) + q[Exponent(q).0..] && |G.SpellExponent(e)| == Exponent(q).0
    ensures e.None? <==> q == [] || !IsExponent(q[0])
    ensures e.Some? ==> GoodExponent(e.value)
  {
    e := None;
    if q != [] && IsExponent(q[0]) {
      var k := if 1 < |q| && (q[1] == PLUS || q[1] == MINUS) then 2 else 1;
      var n := DigitRun(q[k..]);
      RunOfDigits(q[k..]);
      e := Some(G.Exponent(q[0], q[1..k], q[k..][..n]));
      assert q == [q[0]] + q[1..k] + q[k..][..n] + q[k + n..];
    }
  }

  lemma FractionOf(q: Bytes) returns (f: Option<Bytes>)
    ensures q == G.SpellFraction(f) + q[Fraction(q).0..] && |G.SpellFraction(f)| == Fraction(q).0
    ensures (f.None? <==> q == [] || q[0] != DOT) && (f.Some? ==> G.Digits(f.value) && |f.value| == Fraction(q).1)
  {
    f := None;
    if q != [] && q[0] == DOT {
      RunOfDigits(q[1..]);
      f := Some(q[1..][..DigitRun(q[1..])]);
      assert q == [DOT] + q[1..][..DigitRun(q[1..])] + q[1 + DigitRun(q[1..])..];
    }
  }

  lemma NumeralOf(r: Bytes) returns (n: G.Numeral)
    requires r != [] && (r[0] == MINUS || IsDigit(r[0])) && ParseNumber(r).Ok?
    ensures G.GoodNumeral(n) && r == G.SpellNumeral(n) + ParseNumber(r).rest && ParseNumber(r).value == G.Meaning(G.Number(n))
  {
    var sign, i := HeadOf(r);
    n := TailOf(sign == 1, r[sign..i], r[i..]);
    HeadIs(r, sign, i, n);
  }

  lemma HeadOf(r: Bytes) returns (sign: nat, i: nat)
    requires r != [] && (r[0] == MINUS || IsDigit(r[0]))
    ensures sign <= 1 && sign <= i <= |r| && G.Digits(r[sign..i]) && (sign == 1 || r[sign..i] != [])
    ensures r == (if sign == 1 then [MINUS] else []) + r[sign..i] + r[i..]
    ensures ParseNumber(r) == Finish((if sign == 1 then [MINUS] else []) + r[sign..i], sign, r[sign..i], r[i..])
  {
    sign := if r[0] == MINUS then 1 else 0;
    i := sign + DigitRun(r[sign..]);
    RunOfDigits(r[sign..]);
    assert r[sign..i] == r[sign..][..DigitRun(r[sign..])];
    assert r[..i] == (if sign == 1 then [MINUS] else []) + r[sign..i];
  }

  lemma HeadIs(r: Bytes, sign: nat, i: nat, n: G.Numeral)
    requires sign <= i <= |r| && r == (if sign == 1 then [MINUS] else []) + r[sign..i] + r[i..] && sign <= 1
    requires n.minus == (sign == 1) && n.whole == r[sign..i]
    ensures G.SpellHead(n) == r[..i]
  {
  }

  // The numeral with its fraction and exponent, if any, in `tail`.
  lemma TailOf(minus: bool, whole: Bytes, tail: Bytes) returns (n: G.Numeral)
    requires G.Digits(whole) && (minus || whole != [])
    requires Finish((if minus then [MINUS] else []) + whole, if minus then 1 else 0, whole, tail).Ok?
    ensures n.minus == minus && n.whole == whole && G.GoodNumeral(n)
    ensures
      var p := Finish((if minus then [MINUS] else []) + whole, if minus then 1 else 0, whole, tail);
      G.SpellHead(n) + tail == G.SpellNumeral(n) + p.rest && p.value == G.Meaning(G.Number(n))
  {
    if tail != [] && (tail[0] == DOT || IsExponent(tail[0])) {
      n := FloatOf(minus, whole, tail);
    } else {
      n := G.Numeral(minus, whole, None, None);
      ValueIsDenoted(whole);
      assert G.SpellNumeral(n) == G.SpellHead(n);
    }
  }

  lemma FloatOf(minus: bool, whole: Bytes, tail: Bytes) returns (n: G.Numeral)
    requires G.Digits(whole) && (minus || whole != []) && tail != [] && (tail[0] == DOT || IsExponent(tail[0]))
    requires ParseFloat((if minus then [MINUS] else []) + whole, |whole|, tail).Ok?
    ensures n.minus == minus && n.whole == whole && G.GoodNumeral(n) && !G.Whole(n)
    ensures
      var p := ParseFloat((if minus then [MINUS] else []) + whole, |whole|, tail);
      G.SpellHead(n) + tail == G.SpellNumeral(n) + p.rest && p.value == Float(G.SpellNumeral(n))
  {
    FloatParsed((if minus then [MINUS] else []) + whole, |whole|, tail);
    var f := FractionOf(tail);
    var e := ExponentOf(tail[Fraction(tail).0..]);
    n := G.Numeral(minus, whole, f, e);
    FloatIs(n, tail);
  }

  lemma FloatParsed(head: Bytes, whole: nat, tail: Bytes)
    requires ParseFloat(head, whole, tail).Ok?
    ensures
      var (flen, fdigits) := Fraction(tail);
      var (elen, edigits) := Exponent(tail[flen..]);
      && ParseFloat(head, whole, tail) == Ok(Float(head + tail[..flen + elen]), tail[flen + elen..])
      && whole + fdigits > 0 && (elen > 0 ==> edigits > 0)
  {
  }

  lemma FloatIs(n: G.Numeral, tail: Bytes)
    requires
      var (flen, _) := Fraction(tail);
      var (elen, _) := Exponent(tail[flen..]);
      && tail == G.SpellFraction(n.fraction) + tail[flen..] && |G.SpellFraction(n.fraction)| == flen
      && tail[flen..] == G.SpellExponent(n.exponent) + tail[flen..][elen..] && |G.SpellExponent(n.exponent)| == elen
    ensures
      var flen := Fraction(tail).0;
      var len := flen + Exponent(tail[flen..]).0;
      G.SpellHead(n) + tail[..len] == G.SpellNumeral(n) && G.SpellHead(n) + tail == G.SpellNumeral(n) + tail[len..]
  {
    var flen := Fraction(tail).0;
    var elen := Exponent(tail[flen..]).0;
    Halves(G.SpellHead(n), tail, G.SpellFraction(n.fraction), G.SpellExponent(n.exponent), tail[flen..][elen..]);
  }

  lemma Halves(head: Bytes, tail: Bytes, f: Bytes, e: Bytes, z: Bytes)
    requires tail == f + (e + z)
    ensures head + tail[..|f| + |e|] == head + f + e && tail[|f| + |e|..] == z && head + tail == head + f + e + z
  {
    assert tail[..|f| + |e|] == f + e;
  }

  // ---- Values: what is spelt is read ----

  lemma {:induction false} SkipTwice(r: Bytes)
    ensures SkipSpace(SkipSpace(r)) == SkipSpace(r)
  {
    if r != [] && IsSpace(r[0]) {
      SkipTwice(r[1..]);
    }
  }

  lemma BlanksAway(r: Bytes)
    ensures ParseValue(SkipSpace(r)) == ParseValue(r)
  {
    SkipTwice(r);
  }

  lemma ItemsAway(r: Bytes)
    ensures ParseItems(SkipSpace(r)) == ParseItems(r)
  {
    SkipTwice(r);
  }

  lemma MembersAway(r: Bytes)
    ensures ParseMembers(SkipSpace(r)) == ParseMembers(r)
  {
    SkipTwice(r);
  }

  lemma TreeStarts(t: G.Tree)
    requires G.Good(t)
    ensures G.Spell(t) != [] && !G.BlankByte(G.Spell(t)[0]) && G.Spell(t)[0] != RBRACKET
  {
    if t.Number? {
      assert G.SpellNumeral(t.numeral)[0] == if t.numeral.minus then 45 else t.numeral.whole[0];
    }
  }

  // After a value's blanks: the end, a comma or a bracket.
  predicate Closes(z: Bytes) { z == [] || z[0] == COMMA || z[0] == RBRACKET || z[0] == RBRACE }

  lemma BlankStops(b: Bytes, z: Bytes)
    requires G.Blank(b) && Closes(z)
    ensures Stops(b + z) && SkipSpace(b + z) == z
  {
    SkipBlank(b, z);
    assert b != [] ==> (b + z)[0] == b[0];
    assert b == [] ==> b + z == z;
  }

  // The facts of the induction, each under an `Unfold` trigger.

  ghost predicate ReadsValue(r: Bytes, v: Json, z: Bytes) {
    forall k {:trigger Unfold(k)} :: Unfold(k) ==> ParseValue(r) == Ok(v, z)
  }

  ghost predicate ReadsItems(r: Bytes, vs: seq<Json>, z: Bytes) {
    forall k {:trigger Unfold(k)} :: Unfold(k) ==> ParseItems(r) == Ok(vs, z)
  }

  ghost predicate ReadsMember(r: Bytes, m: Member, z: Bytes) {
    forall k {:trigger Unfold(k)} :: Unfold(k) ==> ParseMember(r) == Ok(m, z)
  }

  ghost predicate ReadsMembers(r: Bytes, ms: seq<Member>, z: Bytes) {
    forall k {:trigger Unfold(k)} :: Unfold(k) ==> ParseMembers(r) == Ok(ms, z)
  }

  ghost predicate TreeReads(t: G.Tree, z: Bytes) { ReadsValue(G.Spell(t) + z, G.Meaning(t), z) }

  ghost predicate ItemsRead(items: seq<G.Item>, z: Bytes) {
    ReadsItems(G.SpellItems(items) + ([RBRACKET] + z), G.ItemMeanings(items), z)
  }

  ghost predicate EntryReads(e: G.Entry, z: Bytes) {
    ReadsMember(G.SpellEntry(e) + z, Member(G.PiecesBytes(e.key), G.Meaning(e.item.tree)), e.item.after + z)
  }

  ghost predicate EntriesRead(es: seq<G.Entry>, z: Bytes) {
    ReadsMembers(G.SpellEntries(es) + ([RBRACE] + z), G.EntryMeanings(es), z)
  }

  lemma WordReads(t: G.Tree, z: Bytes)
    requires t.NullWord? || t.TrueWord? || t.FalseWord?
    ensures TreeReads(t, z)
  {
    var r := G.Spell(t) + z;
    assert SkipSpace(r) == r;
    assert r[|G.Spell(t)|..] == z;
  }

  lemma TextReads(ps: seq<G.Piece>, z: Bytes)
    requires G.GoodPieces(ps)
    ensures TreeReads(G.Text(ps), z)
  {
    var chars := G.SpellPieces(ps) + ([QUOTE] + z);
    PiecesRead(ps, z);
    QuotedReads(chars, G.PiecesBytes(ps), z);
    TextSplits(ps, z);
  }

  lemma TextSplits(ps: seq<G.Piece>, z: Bytes)
    ensures G.Spell(G.Text(ps)) + z == [QUOTE] + (G.SpellPieces(ps) + ([QUOTE] + z))
  {
    var a := G.SpellPieces(ps);
    assert [QUOTE] + a + [QUOTE] + z == [QUOTE] + (a + ([QUOTE] + z));
  }

  lemma QuotedReads(chars: Bytes, s: Bytes, z: Bytes)
    requires ReadsChars(chars, s, z)
    ensures ReadsValue([QUOTE] + chars, Str(s), z)
  {
    assert Unfold(0);
    assert ([QUOTE] + chars)[1..] == chars;
  }

  lemma NumberReads(n: G.Numeral, z: Bytes)
    requires G.GoodNumeral(n) && Stops(z)
    ensures TreeReads(G.Number(n), z)
  {
    NumeralReads(n, z);
    var r := G.SpellNumeral(n) + z;
    assert SkipSpace(r) == r;
  }

  lemma ArrayReads(inner: Bytes, vs: seq<Json>, z: Bytes)
    requires if vs == [] then SkipSpace(inner) == [RBRACKET] + z
             else SkipSpace(inner) != [] && SkipSpace(inner)[0] != RBRACKET && ReadsItems(inner, vs, z)
    ensures ReadsValue([LBRACKET] + inner, Array(vs), z)
  {
    assert Unfold(0);
    ItemsAway(inner);
    assert ([LBRACKET] + inner)[1..] == inner;
    assert ([RBRACKET] + z)[1..] == z;
  }

  lemma ListReads(blank: Bytes, items: seq<G.Item>, z: Bytes)
    requires G.Good(G.List(blank, items)) && (items != [] ==> ItemsRead(items, z))
    ensures TreeReads(G.List(blank, items), z)
  {
    var inner := blank + (G.SpellItems(items) + ([RBRACKET] + z));
    ListSplits(blank, items, z);
    if items == [] {
      assert inner == blank + ([RBRACKET] + z);
      SkipBlank(blank, [RBRACKET] + z);
    } else {
      ItemsStart(items, [RBRACKET] + z);
      assert inner == G.SpellItems(items) + ([RBRACKET] + z);
    }
    ArrayReads(inner, G.ItemMeanings(items), z);
  }

  lemma ItemsStart(items: seq<G.Item>, z: Bytes)
    requires items != [] && G.GoodItem(items[0])
    ensures var q := SkipSpace(G.SpellItems(items) + z); q != [] && q[0] != RBRACKET
  {
    var i := items[0];
    TreeStarts(i.tree);
    var more := (if |items| == 1 then [] else [COMMA] + G.SpellItems(items[1..])) + z;
    assert G.SpellItems(items) + z == G.SpellItem(i) + more;
    ItemSplits(i, more);
    SkipBlank(i.before, G.Spell(i.tree) + (i.after + more));
  }

  // The first item, up to the comma or bracket after it.
  lemma ItemStep(i: G.Item, rest: Bytes)
    requires G.GoodItem(i) && TreeReads(i.tree, i.after + rest) && Closes(rest)
    ensures ParseValue(SkipSpace(G.SpellItem(i) + rest)) == Ok(G.Meaning(i.tree), i.after + rest)
    ensures SkipSpace(i.after + rest) == rest
  {
    assert Unfold(0);
    TreeStarts(i.tree);
    ItemSplits(i, rest);
    SkipBlank(i.before, G.Spell(i.tree) + (i.after + rest));
    BlankStops(i.after, rest);
  }

  lemma {:induction false} LastItem(i: G.Item, z: Bytes)
    requires G.GoodItem(i) && TreeReads(i.tree, i.after + ([RBRACKET] + z))
    ensures ItemsRead([i], z)
  {
    ItemStep(i, [RBRACKET] + z);
    ItemsEnd(G.SpellItem(i) + ([RBRACKET] + z), G.Meaning(i.tree), i.after + ([RBRACKET] + z), z);
    OneItem(i);
  }

  lemma {:induction false} ItemsEnd(r: Bytes, v: Json, q: Bytes, z: Bytes)
    requires ParseValue(SkipSpace(r)) == Ok(v, q) && SkipSpace(q) == [RBRACKET] + z
    ensures ReadsItems(r, [v], z)
  {
    assert ([RBRACKET] + z)[1..] == z;
  }

  lemma {:induction false} ItemsGoOn(r: Bytes, v: Json, q: Bytes, tail: Bytes, vs: seq<Json>, z: Bytes)
    requires ParseValue(SkipSpace(r)) == Ok(v, q) && SkipSpace(q) == [COMMA] + tail && ReadsItems(tail, vs, z)
    ensures ReadsItems(r, [v] + vs, z)
  {
    assert Unfold(0);
    assert ([COMMA] + tail)[1..] == tail;
  }

  lemma {:induction false} MoreItems(i: G.Item, more: seq<G.Item>, z: Bytes)
    requires G.GoodItem(i) && more != [] && ItemsRead(more, z)
    requires TreeReads(i.tree, i.after + ([COMMA] + (G.SpellItems(more) + ([RBRACKET] + z))))
    ensures ItemsRead([i] + more, z)
  {
    var tail := G.SpellItems(more) + ([RBRACKET] + z);
    ItemStep(i, [COMMA] + tail);
    ItemsGoOn(G.SpellItem(i) + ([COMMA] + tail), G.Meaning(i.tree), i.after + ([COMMA] + tail), tail, G.ItemMeanings(more), z);
    assert ([i] + more)[1..] == more;
    assert G.SpellItems([i] + more) + ([RBRACKET] + z) == G.SpellItem(i) + ([COMMA] + tail);
  }

  // ---- Members ----

  lemma MemberReads(r: Bytes, chars: Bytes, open: Byte, key: Bytes, tail: Bytes, inner: Bytes, v: Json, z: Bytes)
    requires SkipSpace(r) == [open] + chars && ReadsChars(chars, key, tail) && SkipSpace(tail) == [COLON] + inner
    requires ParseValue(SkipSpace(inner)) == Ok(v, z)
    ensures ReadsMember(r, Member(key, v), z)
  {
    assert Unfold(0);
    assert ([open] + chars)[1..] == chars && ([COLON] + inner)[1..] == inner;
  }

  lemma EntryStep(e: G.Entry, z: Bytes)
    requires G.GoodEntry(e) && TreeReads(e.item.tree, e.item.after + z) && Closes(z)
    ensures EntryReads(e, z)
  {
    var inner := G.SpellItem(e.item) + z;
    var tail := e.mid + ([COLON] + inner);
    var chars := G.SpellPieces(e.key) + ([QUOTE] + tail);
    EntrySplits(e, z);
    SkipBlank(e.before, [e.open] + chars);
    PiecesRead(e.key, tail);
    SkipBlank(e.mid, [COLON] + inner);
    ItemStep(e.item, z);
    MemberReads(G.SpellEntry(e) + z, chars, e.open, G.PiecesBytes(e.key), tail, inner, G.Meaning(e.item.tree), e.item.after + z);
  }

  lemma EntrySplits(e: G.Entry, z: Bytes)
    ensures G.SpellEntry(e) + z
      == e.before + ([e.open] + (G.SpellPieces(e.key) + ([QUOTE] + (e.mid + ([COLON] + (G.SpellItem(e.item) + z))))))
  {
  }

  lemma {:induction false} MembersEnd(r: Bytes, m: Member, q: Bytes, z: Bytes)
    requires ReadsMember(r, m, q) && SkipSpace(q) == [RBRACE] + z
    ensures ReadsMembers(r, [m], z)
  {
    assert Unfold(0);
    assert ([RBRACE] + z)[1..] == z;
  }

  lemma {:induction false} MembersGoOn(r: Bytes, m: Member, q: Bytes, tail: Bytes, ms: seq<Member>, z: Bytes)
    requires ReadsMember(r, m, q) && SkipSpace(q) == [COMMA] + tail && ReadsMembers(tail, ms, z)
    ensures ReadsMembers(r, [m] + ms, z)
  {
    assert Unfold(0);
    assert ([COMMA] + tail)[1..] == tail;
  }

  lemma {:induction false} LastEntry(e: G.Entry, z: Bytes)
    requires G.GoodEntry(e) && EntryReads(e, [RBRACE] + z)
    ensures EntriesRead([e], z)
  {
    BlankStops(e.item.after, [RBRACE] + z);
    MembersEnd(G.SpellEntry(e) + ([RBRACE] + z), Member(G.PiecesBytes(e.key), G.Meaning(e.item.tree)), e.item.after + ([RBRACE] + z), z);
    assert [e][1..] == [] && G.SpellEntries([e]) == G.SpellEntry(e);
    assert G.EntryMeanings([e]) == [Member(G.PiecesBytes(e.key), G.Meaning(e.item.tree))];
  }

  lemma {:induction false} MoreEntries(e: G.Entry, more: seq<G.Entry>, z: Bytes)
    requires G.GoodEntry(e) && more != [] && EntriesRead(more, z)
    requires EntryReads(e, [COMMA] + (G.SpellEntries(more) + ([RBRACE] + z)))
    ensures EntriesRead([e] + more, z)
  {
    var tail := G.SpellEntries(more) + ([RBRACE] + z);
    BlankStops(e.item.after, [COMMA] + tail);
    MembersGoOn(G.SpellEntry(e) + ([COMMA] + tail), Member(G.PiecesBytes(e.key), G.Meaning(e.item.tree)),
                e.item.after + ([COMMA] + tail), tail, G.EntryMeanings(more), z);
    assert ([e] + more)[1..] == more;
    assert G.SpellEntries([e] + more) + ([RBRACE] + z) == G.SpellEntry(e) + ([COMMA] + tail);
  }

  lemma ObjectReads(inner: Bytes, ms: seq<Member>, z: Bytes)
    requires if ms == [] then SkipSpace(inner) == [RBRACE] + z
             else SkipSpace(inner) != [] && SkipSpace(inner)[0] != RBRACE && ReadsMembers(inner, ms, z)
    ensures ReadsValue([LBRACE] + inner, Object(ms), z)
  {
    assert Unfold(0);
    MembersAway(inner);
    assert ([LBRACE] + inner)[1..] == inner;
    assert ([RBRACE] + z)[1..] == z;
  }

  lemma DictReads(blank: Bytes, es: seq<G.Entry>, z: Bytes)
    requires G.Good(G.Dict(blank, es)) && (es != [] ==> EntriesRead(es, z))
    ensures TreeReads(G.Dict(blank, es), z)
  {
    var inner := blank + (G.SpellEntries(es) + ([RBRACE] + z));
    DictSplits(blank, es, z);
    if es == [] {
      assert inner == blank + ([RBRACE] + z);
      SkipBlank(blank, [RBRACE] + z);
    } else {
      EntriesStart(es, [RBRACE] + z);
      assert inner == G.SpellEntries(es) + ([RBRACE] + z);
    }
    ObjectReads(inner, G.EntryMeanings(es), z);
  }

  lemma EntriesStart(es: seq<G.Entry>, z: Bytes)
    requires es != [] && G.GoodEntry(es[0])
    ensures var q := SkipSpace(G.SpellEntries(es) + z); q != [] && q[0] == es[0].open
  {
    var e := es[0];
    var more := (if |es| == 1 then [] else [COMMA] + G.SpellEntries(es[1..])) + z;
    assert G.SpellEntries(es) + z == G.SpellEntry(e) + more;
    EntrySplits(e, more);
    SkipBlank(e.before, [e.open] + (G.SpellPieces(e.key) + ([QUOTE] + (e.mid + ([COLON] + (G.SpellItem(e.item) + more))))));
  }

  // ---- The induction ----

  lemma {:induction false} ReadTree(t: G.Tree, z: Bytes)
    requires G.Good(t) && Stops(z)
    ensures TreeReads(t, z)
    decreases t, 0
  {
    match t
    case Number(n) => NumberReads(n, z);
    case Text(ps) => TextReads(ps, z);
    case List(blank, items) =>
      if items != [] {
        ReadItems(items, z);
      }
      ListReads(blank, items, z);
    case Dict(blank, es) =>
      if es != [] {
        ReadEntries(es, z);
      }
      DictReads(blank, es, z);
    case _ => WordReads(t, z);
  }

  lemma {:induction false} ReadItems(items: seq<G.Item>, z: Bytes)
    requires items != [] && forall k | 0 <= k < |items| :: G.GoodItem(items[k])
    ensures ItemsRead(items, z)
    decreases items, 0
  {
    var i, more := items[0], items[1..];
    assert items == [i] + more;
    if more == [] {
      BlankStops(i.after, [RBRACKET] + z);
      ReadTree(i.tree, i.after + ([RBRACKET] + z));
      LastItem(i, z);
      assert items == [i];
    } else {
      ReadItems(more, z);
      var tail := G.SpellItems(more) + ([RBRACKET] + z);
      BlankStops(i.after, [COMMA] + tail);
      ReadTree(i.tree, i.after + ([COMMA] + tail));
      MoreItems(i, more, z);
    }
  }

  lemma {:induction false} ReadEntries(es: seq<G.Entry>, z: Bytes)
    requires es != [] && forall i | 0 <= i < |es| :: G.GoodEntry(es[i])
    ensures EntriesRead(es, z)
    decreases es, 0
  {
    var e, more := es[0], es[1..];
    assert es == [e] + more && G.GoodEntry(es[0]) && G.GoodItem(e.item);
    var rest := if more == [] then [RBRACE] + z else [COMMA] + (G.SpellEntries(more) + ([RBRACE] + z));
    BlankStops(e.item.after, rest);
    ReadTree(e.item.tree, e.item.after + rest);
    EntryStep(e, rest);
    if more == [] {
      LastEntry(e, z);
      assert es == [e];
    } else {
      ReadEntries(more, z);
      MoreEntries(e, more, z);
    }
  }

  lemma SpeltIsRead(i: G.Item)
    requires G.GoodItem(i)
    ensures ParseJson(G.SpellItem(i)) == Some(G.Meaning(i.tree))
  {
    BlankStops(i.after, []);
    ReadTree(i.tree, i.after + []);
    ItemStep(i, []);
    BlanksAway(G.SpellItem(i) + []);
    assert G.SpellItem(i) + [] == G.SpellItem(i);
  }

  // ---- Values: what is read was spelt ----

  // A value read, as a tree after blanks.
  ghost predicate SpeltBy(r: Bytes, b: Bytes, t: G.Tree, v: Json, z: Bytes) {
    G.Blank(b) && G.Good(t) && r == b + (G.Spell(t) + z) && G.Meaning(t) == v
  }

  ghost predicate ItemsSpelt(r: Bytes, items: seq<G.Item>, vs: seq<Json>, z: Bytes) {
    && items != [] && (forall k | 0 <= k < |items| :: G.GoodItem(items[k]))
    && r == G.SpellItems(items) + ([RBRACKET] + z) && G.ItemMeanings(items) == vs
  }

  ghost predicate EntriesSpelt(r: Bytes, es: seq<G.Entry>, ms: seq<Member>, z: Bytes) {
    && es != [] && (forall k | 0 <= k < |es| :: G.GoodEntry(es[k]))
    && r == G.SpellEntries(es) + ([RBRACE] + z) && G.EntryMeanings(es) == ms
  }

  lemma WordOf(r: Bytes, t: G.Tree, v: Json)
    requires t.NullWord? || t.TrueWord? || t.FalseWord?
    requires G.Meaning(t) == v && ParseLiteral(r, G.Spell(t), v).Ok?
    ensures SpeltBy(r, [], t, v, ParseLiteral(r, G.Spell(t), v).rest)
  {
    assert r == G.Spell(t) + r[|G.Spell(t)|..];
    assert [] + r == r;
  }

  lemma TextOf(r: Bytes) returns (t: G.Tree)
    requires r != [] && r[0] == QUOTE && ParseChars(r[1..]).Ok?
    ensures var p := ParseChars(r[1..]); SpeltBy(r, [], t, Str(p.value), p.rest)
  {
    var ps := PiecesOf(r[1..]);
    t := G.Text(ps);
    var z := ParseChars(r[1..]).rest;
    TextSplits(ps, z);
    assert r == [QUOTE] + r[1..] && [] + r == r;
  }

  lemma NumberOf(r: Bytes) returns (t: G.Tree)
    requires r != [] && (r[0] == MINUS || IsDigit(r[0])) && ParseNumber(r).Ok?
    ensures var p := ParseNumber(r); SpeltBy(r, [], t, p.value, p.rest)
  {
    var n := NumeralOf(r);
    t := G.Number(n);
    assert [] + r == r;
  }

  lemma ListSplits(blank: Bytes, items: seq<G.Item>, z: Bytes)
    ensures G.Spell(G.List(blank, items)) + z == [LBRACKET] + (blank + (G.SpellItems(items) + ([RBRACKET] + z)))
  {
    var a, b := blank, G.SpellItems(items);
    assert [LBRACKET] + (a + b) + [RBRACKET] + z == [LBRACKET] + (a + (b + ([RBRACKET] + z)));
  }

  lemma DictSplits(blank: Bytes, es: seq<G.Entry>, z: Bytes)
    ensures G.Spell(G.Dict(blank, es)) + z == [LBRACE] + (blank + (G.SpellEntries(es) + ([RBRACE] + z)))
  {
    var a, b := blank, G.SpellEntries(es);
    assert [LBRACE] + (a + b) + [RBRACE] + z == [LBRACE] + (a + (b + ([RBRACE] + z)));
  }

  lemma ListOf(r: Bytes, blank: Bytes, items: seq<G.Item>, vs: seq<Json>, z: Bytes) returns (t: G.Tree)
    requires r != [] && r[0] == LBRACKET
    requires if items == [] then vs == [] && G.Blank(blank) && r[1..] == blank + ([RBRACKET] + z)
             else blank == [] && ItemsSpelt(r[1..], items, vs, z)
    ensures SpeltBy(r, [], t, Array(vs), z)
  {
    t := G.List(blank, items);
    ListSplits(blank, items, z);
    assert r == [LBRACKET] + r[1..];
    assert [] + r == r && [] + r[1..] == r[1..] && [] + ([RBRACKET] + z) == [RBRACKET] + z;
  }

  lemma DictOf(r: Bytes, blank: Bytes, es: seq<G.Entry>, ms: seq<Member>, z: Bytes) returns (t: G.Tree)
    requires r != [] && r[0] == LBRACE
    requires if es == [] then ms == [] && G.Blank(blank) && r[1..] == blank + ([RBRACE] + z)
             else blank == [] && EntriesSpelt(r[1..], es, ms, z) && es[0].open != RBRACE
    ensures SpeltBy(r, [], t, Object(ms), z)
  {
    t := G.Dict(blank, es);
    DictSplits(blank, es, z);
    assert r == [LBRACE] + r[1..];
    assert [] + r == r && [] + r[1..] == r[1..] && [] + ([RBRACE] + z) == [RBRACE] + z;
  }

  lemma BlankBefore(r0: Bytes, b: Bytes, r: Bytes, t: G.Tree, v: Json, z: Bytes)
    requires G.Blank(b) && r0 == b + r && SpeltBy(r, [], t, v, z)
    ensures SpeltBy(r0, b, t, v, z)
  {
    assert [] + (G.Spell(t) + z) == G.Spell(t) + z;
  }

  lemma {:induction false} TreeOf(r0: Bytes) returns (b: Bytes, t: G.Tree)
    requires ParseValue(r0).Ok?
    ensures SpeltBy(r0, b, t, ParseValue(r0).value, ParseValue(r0).rest)
    decreases |r0|, 2
  {
    b := BlankOf(r0);
    var r := SkipSpace(r0);
    if r[0] == QUOTE {
      t := TextOf(r);
    } else if r[0] == LBRACE {
      t := ObjectOf(r);
    } else if r[0] == LBRACKET {
      t := ArrayOf(r);
    } else if r[0] == 116 {
      t := G.TrueWord;
      WordOf(r, t, Bool(true));
    } else if r[0] == 102 {
      t := G.FalseWord;
      WordOf(r, t, Bool(false));
    } else if r[0] == 110 {
      t := G.NullWord;
      WordOf(r, t, Null);
    } else {
      t := NumberOf(r);
    }
    BlankBefore(r0, b, r, t, ParseValue(r0).value, ParseValue(r0).rest);
  }

  lemma {:induction false} ArrayOf(r: Bytes) returns (t: G.Tree)
    requires r != [] && r[0] == LBRACKET && ParseArray(r).Ok?
    ensures SpeltBy(r, [], t, ParseArray(r).value, ParseArray(r).rest)
    decreases |r|, 1
  {
    var b := BlankOf(r[1..]);
    var q := SkipSpace(r[1..]);
    if q != [] && q[0] == RBRACKET {
      assert q == [RBRACKET] + q[1..];
      t := ListOf(r, b, [], [], q[1..]);
    } else {
      ItemsAway(r[1..]);
      var items := ItemsOf(r[1..]);
      t := ListOf(r, [], items, ParseItems(q).value, ParseItems(q).rest);
    }
  }

  lemma {:induction false} ItemsOf(r0: Bytes) returns (items: seq<G.Item>)
    requires ParseItems(r0).Ok?
    ensures ItemsSpelt(r0, items, ParseItems(r0).value, ParseItems(r0).rest)
    decreases |r0|, 3
  {
    BlanksAway(r0);
    var b, t := TreeOf(r0);
    var v, r1 := ParseValue(r0).value, ParseValue(r0).rest;
    var after := BlankOf(r1);
    var r, i := SkipSpace(r1), G.Item(b, t, after);
    assert r == [r[0]] + r[1..];
    if r[0] == COMMA {
      items := ItemsOf(r[1..]);
      ItemAndMore(r0, i, v, r1, r[1..], items, ParseItems(r[1..]).value, ParseItems(r[1..]).rest);
      items := [i] + items;
    } else {
      items := [i];
      OnlyItem(r0, i, v, r1, r[1..]);
    }
  }

  lemma ItemSplits(i: G.Item, z: Bytes)
    ensures G.SpellItem(i) + z == i.before + (G.Spell(i.tree) + (i.after + z))
  {
    var a, b, c := i.before, G.Spell(i.tree), i.after;
    assert a + b + c + z == a + (b + (c + z));
  }

  lemma OnlyItem(r0: Bytes, i: G.Item, v: Json, r1: Bytes, z: Bytes)
    requires SpeltBy(r0, i.before, i.tree, v, r1) && G.Blank(i.after) && r1 == i.after + ([RBRACKET] + z)
    ensures ItemsSpelt(r0, [i], [v], z)
  {
    ItemSplits(i, [RBRACKET] + z);
    OneItem(i);
  }

  lemma {:induction false} OneItem(i: G.Item)
    ensures G.SpellItems([i]) == G.SpellItem(i) && G.ItemMeanings([i]) == [G.Meaning(i.tree)]
  {
    assert [i][1..] == [];
  }

  lemma ItemAndMore(r0: Bytes, i: G.Item, v: Json, r1: Bytes, tail: Bytes, items: seq<G.Item>, vs: seq<Json>, z: Bytes)
    requires SpeltBy(r0, i.before, i.tree, v, r1) && G.Blank(i.after) && r1 == i.after + ([COMMA] + tail)
    requires ItemsSpelt(tail, items, vs, z)
    ensures ItemsSpelt(r0, [i] + items, [v] + vs, z)
  {
    assert ([i] + items)[1..] == items && ([i] + items)[0] == i;
    ItemSplits(i, [COMMA] + tail);
    assert r0 == G.SpellItem(i) + [COMMA] + G.SpellItems(items) + ([RBRACKET] + z);
  }

  lemma {:induction false} ObjectOf(r: Bytes) returns (t: G.Tree)
    requires r != [] && r[0] == LBRACE && ParseObject(r).Ok?
    ensures SpeltBy(r, [], t, ParseObject(r).value, ParseObject(r).rest)
    decreases |r|, 1
  {
    var b := BlankOf(r[1..]);
    var q := SkipSpace(r[1..]);
    if q != [] && q[0] == RBRACE {
      assert q == [RBRACE] + q[1..];
      t := DictOf(r, b, [], [], q[1..]);
    } else {
      MembersAway(r[1..]);
      var es := EntriesOf(r[1..]);
      EntriesStart(es, [RBRACE] + ParseMembers(q).rest);
      t := DictOf(r, [], es, ParseMembers(q).value, ParseMembers(q).rest);
    }
  }

  lemma {:induction false} EntryOf(r0: Bytes) returns (e: G.Entry, z: Bytes)
    requires ParseMember(r0).Ok?
    ensures
      var p := ParseMember(r0);
      && G.GoodEntry(e) && p.value == Member(G.PiecesBytes(e.key), G.Meaning(e.item.tree))
      && r0 == G.SpellEntry(e) + z && z == SkipSpace(p.rest)
    decreases |r0|, 3
  {
    var before := BlankOf(r0);
    var q := SkipSpace(r0);
    var key := PiecesOf(q[1..]);
    var r1 := ParseChars(q[1..]).rest;
    var mid := BlankOf(r1);
    var r := SkipSpace(r1);
    BlanksAway(r[1..]);
    var b, t := TreeOf(r[1..]);
    var r2 := ParseValue(r[1..]).rest;
    var after := BlankOf(r2);
    z := SkipSpace(r2);
    e := G.Entry(before, q[0], key, mid, G.Item(b, t, after));
    EntryIs(r0, q, r1, r, r2, e, z);
  }

  lemma EntryIs(r0: Bytes, q: Bytes, r1: Bytes, r: Bytes, r2: Bytes, e: G.Entry, z: Bytes)
    requires r0 == e.before + q && q != [] && q[0] == e.open && q[1..] == G.SpellPieces(e.key) + ([QUOTE] + r1)
    requires r1 == e.mid + r && r != [] && r[0] == COLON
    requires r[1..] == e.item.before + (G.Spell(e.item.tree) + r2) && r2 == e.item.after + z
    ensures r0 == G.SpellEntry(e) + z
  {
    EntrySplits(e, z);
    ItemSplits(e.item, z);
    assert r == [COLON] + r[1..];
    assert q == [e.open] + q[1..];
  }

  lemma {:induction false} EntriesOf(r0: Bytes) returns (es: seq<G.Entry>)
    requires ParseMembers(r0).Ok?
    ensures EntriesSpelt(r0, es, ParseMembers(r0).value, ParseMembers(r0).rest)
    decreases |r0|, 4
  {
    var e, r := EntryOf(r0);
    var m := ParseMember(r0).value;
    assert r == [r[0]] + r[1..];
    if r[0] == COMMA {
      es := EntriesOf(r[1..]);
      EntryAndMore(r0, e, m, r[1..], es, ParseMembers(r[1..]).value, ParseMembers(r[1..]).rest);
      es := [e] + es;
    } else {
      es := [e];
      OnlyEntry(r0, e, m, r[1..]);
    }
  }

  lemma {:induction false} OnlyEntry(r0: Bytes, e: G.Entry, m: Member, z: Bytes)
    requires G.GoodEntry(e) && m == Member(G.PiecesBytes(e.key), G.Meaning(e.item.tree)) && r0 == G.SpellEntry(e) + ([RBRACE] + z)
    ensures EntriesSpelt(r0, [e], [m], z)
  {
    assert [e][1..] == [] && G.SpellEntries([e]) == G.SpellEntry(e) && G.EntryMeanings([e]) == [m];
  }

  lemma {:induction false} EntryAndMore(r0: Bytes, e: G.Entry, m: Member, tail: Bytes, es: seq<G.Entry>, ms: seq<Member>, z: Bytes)
    requires G.GoodEntry(e) && m == Member(G.PiecesBytes(e.key), G.Meaning(e.item.tree)) && r0 == G.SpellEntry(e) + ([COMMA] + tail)
    requires EntriesSpelt(tail, es, ms, z)
    ensures EntriesSpelt(r0, [e] + es, [m] + ms, z)
  {
    assert ([e] + es)[1..] == es && ([e] + es)[0] == e;
    assert r0 == G.SpellEntry(e) + [COMMA] + G.SpellEntries(es) + ([RBRACE] + z);
  }

  // ---- The parser decides the grammar ----

  lemma ReadWasSpelt(text: Bytes) returns (i: G.Item)
    requires ParseJson(text).Some?
    ensures G.GoodItem(i) && G.SpellItem(i) == text && Some(G.Meaning(i.tree)) == ParseJson(text)
  {
    var b, t := TreeOf(text);
    var r := ParseValue(text).rest;
    var after := BlankOf(r);
    i := G.Item(b, t, after);
    assert after == r;
  }

  lemma ParseIff(text: Bytes, v: Json)
    ensures ParseJson(text) == Some(v) <==> G.Spells(text, v)
  {
    if ParseJson(text) == Some(v) {
      var i := ReadWasSpelt(text);
      assert G.GoodItem(i) && G.SpellItem(i) == text && G.Meaning(i.tree) == v;
    }
    if G.Spells(text, v) {
      var i: G.Item :| G.GoodItem(i) && G.SpellItem(i) == text && G.Meaning(i.tree) == v;
      SpeltIsRead(i);
    }
  }
}
