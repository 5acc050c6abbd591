// The texts that spell a JSON value, as syntax trees, apart from any parser. RFC 8259,
// sections 2 to 7, with the liberties of crates/storage/src/jsonb.rs: a form feed is a
// blank; strings may hold control characters; a number may have leading zeros, no digits
// after its point, or none before it; the first digit after `\u` may be a plus; any
// byte that is no blank may open a key. A byte of 128 or more in a string stands for the
// character of that number.
module JsonGrammar {
  import opened JsonValue

  // A number with fraction or exponent is kept by its text.
  type Json = Val<Bytes>
  type Member = Pair<Bytes>

  predicate BlankByte(c: Byte) { c == 9 || c == 10 || c == 12 || c == 13 || c == 32 }

  predicate Blank(b: Bytes) { forall i | 0 <= i < |b| :: BlankByte(b[i]) }

  // ---- Strings ----

  // `bytes` encode the character `code`, RFC 3629, section 3, up to three bytes.
  predicate Encodes(bytes: Bytes, code: int) {
    || (|bytes| == 1 && code == bytes[0] < 0x80)
    || (&& |bytes| == 2 && 0x80 <= code < 0x800 && 0xC0 <= bytes[0] < 0xE0 && 0x80 <= bytes[1] < 0xC0
        && code == (bytes[0] as int - 0xC0) * 0x40 + (bytes[1] as int - 0x80))
    || (&& |bytes| == 3 && 0x800 <= code < 0x1_0000 && 0xE0 <= bytes[0] < 0xF0
        && 0x80 <= bytes[1] < 0xC0 && 0x80 <= bytes[2] < 0xC0
        && code == (bytes[0] as int - 0xE0) * 0x1000 + (bytes[1] as int - 0x80) * 0x40 + (bytes[2] as int - 0x80))
  }

  // `c` is the hexadecimal digit `d`.
  predicate Hex(c: Byte, d: int) {
    (0 <= d < 10 && c == 48 + d) || (10 <= d < 16 && (c == 55 + d || c == 87 + d))
  }

  predicate FirstHex(c: Byte, d: int) { Hex(c, d) || (c == 43 && d == 0) }

  // The two-character escapes: the letter, and what it stands for.
  const ESCAPES: seq<(Byte, Byte)> :=
    [(34, 34), (92, 92), (47, 47), (98, 8), (102, 12), (110, 10), (114, 13), (116, 9)]

  // A character of a string: how it is spelt, and its bytes.
  datatype Piece =
    | Plain(c: Byte, bytes: Bytes)
    | Short(letter: Byte, c: Byte)
    | Code(a: Byte, b: Byte, c: Byte, d: Byte, bytes: Bytes)

  ghost predicate GoodPiece(p: Piece) {
    match p
    case Plain(c, bytes) => c != 34 && c != 92 && Encodes(bytes, c)
    case Short(letter, c) => (letter, c) in ESCAPES
    case Code(a, b, c, d, bytes) => exists i, j, k, l :: GoodCode(p, i, j, k, l)
  }

  predicate GoodCode(p: Piece, i: int, j: int, k: int, l: int)
    requires p.Code?
  {
    var code := i * 0x1000 + j * 0x100 + k * 0x10 + l;
    && FirstHex(p.a, i) && Hex(p.b, j) && Hex(p.c, k) && Hex(p.d, l)
    && !(0xD800 <= code < 0xE000) && Encodes(p.bytes, code)
  }

  function SpellPiece(p: Piece): Bytes {
    match p
    case Plain(c, _) => [c]
    case Short(letter, _) => [92, letter]
    case Code(a, b, c, d, _) => [92, 117, a, b, c, d]
  }

  function PieceBytes(p: Piece): Bytes {
    match p
    case Short(_, c) => [c]
    case _ => p.bytes
  }

  ghost predicate GoodPieces(ps: seq<Piece>) { forall i | 0 <= i < |ps| :: GoodPiece(ps[i]) }

  function SpellPieces(ps: seq<Piece>): Bytes {
    if ps == [] then [] else SpellPiece(ps[0]) + SpellPieces(ps[1..])
  }

  function PiecesBytes(ps: seq<Piece>): Bytes {
    if ps == [] then [] else PieceBytes(ps[0]) + PiecesBytes(ps[1..])
  }

  // ---- Numbers ----

  predicate Digits(d: Bytes) { forall i | 0 <= i < |d| :: 48 <= d[i] <= 57 }

  function Pow10(n: nat): nat { if n == 0 then 1 else 10 * Pow10(n - 1) }

  // The number a row of digits denotes.
  function Denoted(d: Bytes): int {
    if d == [] then 0 else (d[0] as int - 48) * Pow10(|d| - 1) + Denoted(d[1..])
  }

  datatype Exponent = Exponent(letter: Byte, sign: Bytes, digits: Bytes)

  datatype Numeral = Numeral(minus: bool, whole: Bytes, fraction: Option<Bytes>, exponent: Option<Exponent>)

  predicate Whole(n: Numeral) { n.fraction.None? && n.exponent.None? }

  predicate GoodNumeral(n: Numeral) {
    && Digits(n.whole) && (n.minus || n.whole != [])
    && (n.fraction.Some? ==> Digits(n.fraction.value))
    && (n.exponent.Some? ==>
          var e := n.exponent.value;
          (e.letter == 69 || e.letter == 101) && (e.sign == [] || e.sign == [43] || e.sign == [45]) && Digits(e.digits) && e.digits != [])
    && (if Whole(n) then n.whole != [] && MIN_I64 <= IntOf(n) <= MAX_I64
        else n.whole != [] || (n.fraction.Some? && n.fraction.value != []))
  }

  function IntOf(n: Numeral): int { if n.minus then -Denoted(n.whole) else Denoted(n.whole) }

  function SpellHead(n: Numeral): Bytes { (if n.minus then [45] else []) + n.whole }

  function SpellFraction(f: Option<Bytes>): Bytes { if f.None? then [] else [46] + f.value }

  function SpellExponent(e: Option<Exponent>): Bytes {
    if e.None? then [] else [e.value.letter] + e.value.sign + e.value.digits
  }

  function SpellNumeral(n: Numeral): Bytes { SpellHead(n) + SpellFraction(n.fraction) + SpellExponent(n.exponent) }

  // ---- Values ----

  datatype Tree =
    | NullWord | TrueWord | FalseWord
    | Number(numeral: Numeral)
    | Text(pieces: seq<Piece>)
    | List(blank: Bytes, items: seq<Item>)
    | Dict(blank: Bytes, entries: seq<Entry>)

  // A value between blanks.
  datatype Item = Item(before: Bytes, tree: Tree, after: Bytes)

  datatype Entry = Entry(before: Bytes, open: Byte, key: seq<Piece>, mid: Bytes, item: Item)

  // The blank of a list or dictionary is for the empty one.
  ghost predicate Good(t: Tree)
    decreases t, 0
  {
    match t
    case Number(n) => GoodNumeral(n)
    case Text(ps) => GoodPieces(ps)
    case List(blank, items) => Blank(blank) && (items != [] ==> blank == []) && forall i | 0 <= i < |items| :: GoodItem(items[i])
    case Dict(blank, entries) =>
      && Blank(blank) && (entries != [] ==> blank == [] && entries[0].open != 125)
      && forall i | 0 <= i < |entries| :: GoodEntry(entries[i])
    case _ => true
  }

  ghost predicate GoodItem(i: Item)
    decreases i, 1
  {
    Blank(i.before) && Blank(i.after) && Good(i.tree)
  }

  ghost predicate GoodEntry(e: Entry)
    decreases e, 2
  {
    Blank(e.before) && !BlankByte(e.open) && GoodPieces(e.key) && Blank(e.mid) && GoodItem(e.item)
  }

  function Spell(t: Tree): Bytes
    decreases t, 1
  {
    match t
    case NullWord => [110, 117, 108, 108]
    case TrueWord => [116, 114, 117, 101]
    case FalseWord => [102, 97, 108, 115, 101]
    case Number(n) => SpellNumeral(n)
    case Text(ps) => [34] + SpellPieces(ps) + [34]
    case List(blank, items) => [91] + (blank + SpellItems(items)) + [93]
    case Dict(blank, entries) => [123] + (blank + SpellEntries(entries)) + [125]
  }

  function SpellItem(i: Item): Bytes
    decreases i, 2
  {
    i.before + Spell(i.tree) + i.after
  }

  function SpellItems(items: seq<Item>): Bytes
    decreases items, 0
  {
    if items == [] then []
    else if |items| == 1 then SpellItem(items[0])
    else SpellItem(items[0]) + [44] + SpellItems(items[1..])
  }

  function SpellEntry(e: Entry): Bytes
    decreases e, 3
  {
    e.before + ([e.open] + SpellPieces(e.key) + [34]) + e.mid + [58] + SpellItem(e.item)
  }

  function SpellEntries(entries: seq<Entry>): Bytes
    decreases entries, 0
  {
    if entries == [] then []
    else if |entries| == 1 then SpellEntry(entries[0])
    else SpellEntry(entries[0]) + [44] + SpellEntries(entries[1..])
  }

  function Meaning(t: Tree): Json
    decreases t, 1
  {
    match t
    case NullWord => Null
    case TrueWord => Bool(true)
    case FalseWord => Bool(false)
    case Number(n) => if Whole(n) then Int(IntOf(n)) else Float(SpellNumeral(n))
    case Text(ps) => Str(PiecesBytes(ps))
    case List(_, items) => Array(ItemMeanings(items))
    case Dict(_, entries) => Object(EntryMeanings(entries))
  }

  function ItemMeanings(items: seq<Item>): seq<Json>
    decreases items, 0
  {
    if items == [] then [] else [Meaning(items[0].tree)] + ItemMeanings(items[1..])
  }

  function EntryMeanings(entries: seq<Entry>): seq<Member>
    decreases entries, 0
  {
    if entries == [] then []
    else [Member(PiecesBytes(entries[0].key), Meaning(entries[0].item.tree))] + EntryMeanings(entries[1..])
  }

  // A text spells a value: a value between blanks.
  ghost predicate Spells(text: Bytes, v: Json) {
    exists i: Item :: GoodItem(i) && SpellItem(i) == text && Meaning(i.tree) == v
  }
}
