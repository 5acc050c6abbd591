// Printing a value and parsing it back. What is printed is a text of `JsonGrammar`,
// without blanks; so the parser reads it as what the grammar says.
module JsonRoundTrip {
  import opened JsonValue
  import opened Json
  import opened JsonReading
  import G = JsonGrammar

  // ---- What comes back ----

  // A string read one byte at a time.
  function Rebyted(s: Bytes): Bytes {
    if s == [] then [] else Pushed(s[0]) + Rebyted(s[1..])
  }

  // A number whose text has no point and no exponent comes back an integer.
  ghost function Returned(v: Json): Json
    requires Plain(v)
    decreases v, 1
  {
    match v
    case Float(text) => G.Meaning(G.Number(NumeralFor(text)))
    case Str(s) => Str(Rebyted(s))
    case Array(items) => Array(ReturnedItems(items))
    case Object(members) => Object(ReturnedMembers(members))
    case _ => v
  }

  ghost function ReturnedItems(items: seq<Json>): seq<Json>
    requires PlainItems(items)
    decreases items, 0
  {
    if items == [] then [] else [Returned(items[0])] + ReturnedItems(items[1..])
  }

  ghost function ReturnedMembers(members: seq<Member>): seq<Member>
    requires PlainMembers(members)
    decreases members, 0
  {
    if members == [] then []
    else [Member(Rebyted(members[0].key), Returned(members[0].value))] + ReturnedMembers(members[1..])
  }

  // Integers of 64 bits, and floats by the numerals they are printed as; one without a
  // point is in the range of integers.
  ghost predicate Plain(v: Json)
    decreases v, 1
  {
    match v
    case Float(text) => IsNumeral(text)
    case Int(n) => MIN_I64 <= n <= MAX_I64
    case Array(items) => PlainItems(items)
    case Object(members) => PlainMembers(members)
    case _ => true
  }

  ghost predicate PlainItems(items: seq<Json>)
    decreases items, 0
  {
    items == [] || (Plain(items[0]) && PlainItems(items[1..]))
  }

  ghost predicate PlainMembers(members: seq<Member>)
    decreases members, 0
  {
    members == [] || (Plain(members[0].value) && PlainMembers(members[1..]))
  }

  ghost predicate IsNumeral(text: Bytes) {
    exists n :: G.GoodNumeral(n) && G.SpellNumeral(n) == text
  }

  ghost function NumeralFor(text: Bytes): (n: G.Numeral)
    requires IsNumeral(text)
    ensures G.GoodNumeral(n) && G.SpellNumeral(n) == text
  {
    var n :| G.GoodNumeral(n) && G.SpellNumeral(n) == text; n
  }

  // ---- The tree of a printed value ----

  function PieceFor(c: Byte): G.Piece {
    if |EscapeByte(c)| == 1 then G.Plain(c, Pushed(c)) else G.Short(EscapeByte(c)[1], c)
  }

  function PiecesFor(s: Bytes): seq<G.Piece> {
    if s == [] then [] else [PieceFor(s[0])] + PiecesFor(s[1..])
  }

  ghost function TreeFor(v: Json): G.Tree
    requires Plain(v)
    decreases v, 1
  {
    match v
    case Null => G.NullWord
    case Bool(b) => if b then G.TrueWord else G.FalseWord
    case Int(n) => G.Number(G.Numeral(n < 0, Digits(if n < 0 then -n else n), None, None))
    case Float(text) => G.Number(NumeralFor(text))
    case Str(s) => G.Text(PiecesFor(s))
    case Array(items) => G.List([], ItemsFor(items))
    case Object(members) => G.Dict([], EntriesFor(members))
  }

  ghost function ItemsFor(items: seq<Json>): seq<G.Item>
    requires PlainItems(items)
    decreases items, 0
  {
    if items == [] then [] else [G.Item([], TreeFor(items[0]), [])] + ItemsFor(items[1..])
  }

  ghost function EntriesFor(members: seq<Member>): seq<G.Entry>
    requires PlainMembers(members)
    decreases members, 0
  {
    if members == [] then []
    else [G.Entry([], QUOTE, PiecesFor(members[0].key), [], G.Item([], TreeFor(members[0].value), []))] + EntriesFor(members[1..])
  }

  lemma PieceForOk(c: Byte)
    ensures G.GoodPiece(PieceFor(c)) && G.SpellPiece(PieceFor(c)) == EscapeByte(c) && G.PieceBytes(PieceFor(c)) == Pushed(c)
  {
    if |EscapeByte(c)| == 1 {
      EncodesOnly(Pushed(c), c);
    } else {
      EscapeIff(EscapeByte(c)[1], c);
    }
  }

  lemma {:induction false} PiecesForOk(s: Bytes)
    ensures G.GoodPieces(PiecesFor(s)) && G.SpellPieces(PiecesFor(s)) == Escape(s) && G.PiecesBytes(PiecesFor(s)) == Rebyted(s)
  {
    if s != [] {
      PieceForOk(s[0]);
      PiecesForOk(s[1..]);
      assert PiecesFor(s)[1..] == PiecesFor(s[1..]);
    }
  }

  lemma LastDigit(init: Bytes, q: int, r: nat)
    requires Value(init) == q && r < 10
    ensures Value(init + [48 + r]) == 10 * q + r
  {
    assert (init + [48 + r])[..|init|] == init;
  }

  lemma {:induction false} DigitsOk(n: nat)
    ensures Digits(n) != [] && G.Digits(Digits(n)) && Value(Digits(n)) == n
  {
    if n < 10 {
      LastDigit([], 0, n);
      assert [] + [48 + n] == [48 + n];
    } else {
      DigitsOk(n / 10);
      LastDigit(Digits(n / 10), n / 10, n % 10);
    }
  }

  // A tree is good, is spelt as the value is printed, and means what comes back.
  ghost predicate Stands(t: G.Tree, text: Bytes, v: Json) {
    G.Good(t) && G.Spell(t) == text && G.Meaning(t) == v
  }

  lemma NumberStands(v: Json)
    requires Plain(v) && (v.Int? || v.Float?)
    ensures Stands(TreeFor(v), Format(v), Returned(v))
  {
    if v.Int? {
      var n := if v.n < 0 then -v.n else v.n;
      DigitsOk(n);
      ValueIsDenoted(Digits(n));
      assert G.SpellNumeral(TreeFor(v).numeral) == Decimal(v.n);
    }
  }

  lemma {:induction false} ListStands(items: seq<G.Item>, text: Bytes, vs: seq<Json>)
    requires (forall k | 0 <= k < |items| :: G.GoodItem(items[k])) && G.SpellItems(items) == text && G.ItemMeanings(items) == vs
    ensures Stands(G.List([], items), [LBRACKET] + text + [RBRACKET], Array(vs))
  {
    assert [] + text == text;
  }

  lemma {:induction false} DictStands(es: seq<G.Entry>, text: Bytes, ms: seq<Member>)
    requires (forall k | 0 <= k < |es| :: G.GoodEntry(es[k])) && G.SpellEntries(es) == text && G.EntryMeanings(es) == ms
    requires es != [] ==> es[0].open == QUOTE
    ensures Stands(G.Dict([], es), [LBRACE] + text + [RBRACE], Object(ms))
  {
    assert [] + text == text;
  }

  lemma {:induction false} TreeStands(v: Json)
    requires Plain(v)
    ensures Stands(TreeFor(v), Format(v), Returned(v))
    decreases v, 1
  {
    match v
    case Str(s) => PiecesForOk(s);
    case Array(items) =>
      ItemsStand(items);
      ListStands(ItemsFor(items), FormatItems(items), ReturnedItems(items));
    case Object(members) =>
      MembersStand(members);
      DictStands(EntriesFor(members), FormatMembers(members), ReturnedMembers(members));
    case Int(_) => NumberStands(v);
    case Float(_) => NumberStands(v);
    case _ =>
  }

  lemma BareItem(t: G.Tree)
    ensures G.SpellItem(G.Item([], t, [])) == G.Spell(t)
  {
  }

  lemma {:induction false} ItemsStand(items: seq<Json>)
    requires PlainItems(items)
    ensures |ItemsFor(items)| == |items| && forall k | 0 <= k < |items| :: G.GoodItem(ItemsFor(items)[k])
    ensures G.SpellItems(ItemsFor(items)) == FormatItems(items) && G.ItemMeanings(ItemsFor(items)) == ReturnedItems(items)
    decreases items, 0
  {
    if items != [] {
      TreeStands(items[0]);
      BareItem(TreeFor(items[0]));
      ItemsStand(items[1..]);
      assert ItemsFor(items)[1..] == ItemsFor(items[1..]);
    }
  }

  lemma BareEntry(key: seq<G.Piece>, t: G.Tree)
    ensures G.SpellEntry(G.Entry([], QUOTE, key, [], G.Item([], t, []))) == [QUOTE] + G.SpellPieces(key) + [QUOTE] + [COLON] + G.Spell(t)
  {
    BareItem(t);
  }

  lemma MemberStands(m: Member)
    requires Plain(m.value) && Stands(TreeFor(m.value), Format(m.value), Returned(m.value))
    ensures
      var e := G.Entry([], QUOTE, PiecesFor(m.key), [], G.Item([], TreeFor(m.value), []));
      G.GoodEntry(e) && G.SpellEntry(e) == FormatMember(m) && G.PiecesBytes(e.key) == Rebyted(m.key)
  {
    PiecesForOk(m.key);
    BareEntry(PiecesFor(m.key), TreeFor(m.value));
  }

  lemma {:induction false} MembersStand(members: seq<Member>)
    requires PlainMembers(members)
    ensures |EntriesFor(members)| == |members| && (members != [] ==> EntriesFor(members)[0].open == QUOTE)
    ensures forall k | 0 <= k < |members| :: G.GoodEntry(EntriesFor(members)[k])
    ensures G.SpellEntries(EntriesFor(members)) == FormatMembers(members) && G.EntryMeanings(EntriesFor(members)) == ReturnedMembers(members)
    decreases members, 0
  {
    if members != [] {
      TreeStands(members[0].value);
      MemberStands(members[0]);
      MembersStand(members[1..]);
      assert EntriesFor(members)[1..] == EntriesFor(members[1..]);
    }
  }

  // Printing and parsing back, at any depth.
  lemma ParseOfFormat(v: Json)
    requires Plain(v)
    ensures ParseJson(Format(v)) == Some(Returned(v))
  {
    TreeStands(v);
    BareItem(TreeFor(v));
    SpeltIsRead(G.Item([], TreeFor(v), []));
  }

  // ---- One line ----

  // No line break and no tab.
  predicate OneLine(text: Bytes) { forall i | 0 <= i < |text| :: text[i] != 9 && text[i] != 10 && text[i] != 13 }

  lemma {:induction false} EscapeOneLine(s: Bytes)
    ensures OneLine(Escape(s))
  {
    if s != [] {
      EscapeOneLine(s[1..]);
      assert OneLine(EscapeByte(s[0]));
    }
  }

  lemma NumberOneLine(v: Json)
    requires Plain(v) && (v.Int? || v.Float?)
    ensures OneLine(Format(v))
  {
    if v.Int? {
      DigitsOk(if v.n < 0 then -v.n else v.n);
    } else {
      NumeralOneLine(NumeralFor(v.f));
    }
  }

  lemma NumeralOneLine(n: G.Numeral)
    requires G.GoodNumeral(n)
    ensures OneLine(G.SpellNumeral(n))
  {
    assert OneLine(G.SpellHead(n)) && OneLine(G.SpellFraction(n.fraction)) && OneLine(G.SpellExponent(n.exponent));
  }

  // A value is printed on one line, whatever its strings hold.
  lemma {:induction false} FormatOneLine(v: Json)
    requires Plain(v)
    ensures OneLine(Format(v))
    decreases v, 1
  {
    match v
    case Str(s) => EscapeOneLine(s);
    case Array(items) => ItemsOneLine(items);
    case Object(members) => MembersOneLine(members);
    case Int(_) => NumberOneLine(v);
    case Float(_) => NumberOneLine(v);
    case _ =>
  }

  lemma {:induction false} ItemsOneLine(items: seq<Json>)
    requires PlainItems(items)
    ensures OneLine(FormatItems(items))
    decreases items, 0
  {
    if items != [] {
      FormatOneLine(items[0]);
      ItemsOneLine(items[1..]);
    }
  }

  lemma {:induction false} MembersOneLine(members: seq<Member>)
    requires PlainMembers(members)
    ensures OneLine(FormatMembers(members))
    decreases members, 0
  {
    if members != [] {
      EscapeOneLine(members[0].key);
      FormatOneLine(members[0].value);
      MembersOneLine(members[1..]);
      assert OneLine(FormatMember(members[0]));
    }
  }

  // ---- Exactly which values survive ----

  predicate AsciiBytes(s: Bytes) { forall i | 0 <= i < |s| :: s[i] < 128 }

  // The text of a number shows that it is no integer.
  predicate Pointed(text: Bytes) { exists i | 0 <= i < |text| :: text[i] == DOT || IsExponent(text[i]) }

  // All strings and keys are ASCII, all floats printed with a point or an exponent.
  predicate Faithful(v: Json)
    decreases v, 1
  {
    match v
    case Float(text) => Pointed(text)
    case Str(s) => AsciiBytes(s)
    case Array(items) => FaithfulItems(items)
    case Object(members) => FaithfulMembers(members)
    case _ => true
  }

  predicate FaithfulItems(items: seq<Json>)
    decreases items, 0
  {
    items == [] || (Faithful(items[0]) && FaithfulItems(items[1..]))
  }

  predicate FaithfulMembers(members: seq<Member>)
    decreases members, 0
  {
    members == [] || (AsciiBytes(members[0].key) && Faithful(members[0].value) && FaithfulMembers(members[1..]))
  }

  lemma {:induction false} RebytedIff(s: Bytes)
    ensures |Rebyted(s)| >= |s|
    ensures |Rebyted(s)| == |s| <==> AsciiBytes(s)
    ensures Rebyted(s) == s <==> AsciiBytes(s)
  {
    if s != [] {
      RebytedIff(s[1..]);
      assert AsciiBytes(s) <==> s[0] < 128 && AsciiBytes(s[1..]);
      assert s == [s[0]] + s[1..];
    }
  }

  lemma PointedIff(n: G.Numeral)
    requires G.GoodNumeral(n)
    ensures Pointed(G.SpellNumeral(n)) <==> !G.Whole(n)
  {
    var text, head := G.SpellNumeral(n), G.SpellHead(n);
    if G.Whole(n) {
      assert text == head;
    } else {
      assert text[|head|] == if n.fraction.Some? then DOT else n.exponent.value.letter;
    }
  }

  lemma {:induction false} ReturnedIff(v: Json)
    requires Plain(v)
    ensures Returned(v) == v <==> Faithful(v)
    decreases v, 1
  {
    match v
    case Float(text) => PointedIff(NumeralFor(text));
    case Str(s) => RebytedIff(s);
    case Array(items) => ReturnedItemsIff(items);
    case Object(members) => ReturnedMembersIff(members);
    case _ =>
  }

  lemma {:induction false} ReturnedItemsIff(items: seq<Json>)
    requires PlainItems(items)
    ensures ReturnedItems(items) == items <==> FaithfulItems(items)
    decreases items, 0
  {
    if items != [] {
      ReturnedIff(items[0]);
      ReturnedItemsIff(items[1..]);
      assert items == [items[0]] + items[1..];
      assert ReturnedItems(items)[0] == Returned(items[0]) && ReturnedItems(items)[1..] == ReturnedItems(items[1..]);
    }
  }

  lemma {:induction false} ReturnedMembersIff(members: seq<Member>)
    requires PlainMembers(members)
    ensures ReturnedMembers(members) == members <==> FaithfulMembers(members)
    decreases members, 0
  {
    if members != [] {
      var m := members[0];
      RebytedIff(m.key);
      ReturnedIff(m.value);
      ReturnedMembersIff(members[1..]);
      assert members == [m] + members[1..];
      assert ReturnedMembers(members)[0] == Member(Rebyted(m.key), Returned(m.value));
      assert ReturnedMembers(members)[1..] == ReturnedMembers(members[1..]);
    }
  }

  // The round trip restores a value if and only if all its strings and keys are ASCII
  // and all its floats are printed with a point or an exponent.
  lemma RoundTripIff(v: Json)
    requires Plain(v)
    ensures ParseJson(Format(v)) == Some(v) <==> Faithful(v)
  {
    ParseOfFormat(v);
    ReturnedIff(v);
  }

  // For one, the string of U+00E9, two bytes in UTF-8, comes back different.
  lemma NonAsciiIsChanged()
    ensures ParseJson(Format(Str([0xC3, 0xA9]))) != Some(Str([0xC3, 0xA9]))
  {
    var s: Bytes := [0xC3, 0xA9];
    RoundTripIff(Str(s));
    assert s[0] >= 128;
  }

  // A whole float of 1e15 or more is printed without a point. If 64 bits do not hold it
  // the document cannot be read back at all.
  lemma HugeFloatIsLost(digits: Bytes)
    requires G.Digits(digits) && digits != [] && Value(digits) > MAX_I64
    ensures ParseJson(Format(Float(digits))) == None
  {
    if ParseJson(digits).Some? {
      var i := ReadWasSpelt(digits);
      HugeIsUnspelt(digits, i);
    }
  }

  lemma NoDigits(b: Bytes, rest: Bytes)
    requires b != [] && !IsDigit(b[0])
    ensures !G.Digits(b + rest) && !G.Digits(rest + b)
  {
    assert (b + rest)[0] == b[0] && (rest + b)[|rest|] == b[0];
  }

  lemma MinusFirst(n: G.Numeral)
    ensures n.minus ==> !G.Digits(G.SpellNumeral(n))
  {
    assert n.minus ==> G.SpellNumeral(n)[0] == MINUS;
  }

  lemma {:induction false} HugeIsUnspelt(digits: Bytes, i: G.Item)
    requires G.Digits(digits) && digits != [] && G.GoodItem(i) && G.SpellItem(i) == digits
    ensures Value(digits) <= MAX_I64
  {
    var t := i.tree;
    assert digits == i.before + (G.Spell(t) + i.after);
    if i.before != [] {
      NoDigits(i.before, G.Spell(t) + i.after);
    }
    if i.after != [] {
      NoDigits(i.after, i.before + G.Spell(t));
    }
    BareItem(t);
    assert t.Number? by {
      TreeStarts(t);
      assert IsDigit(G.Spell(t)[0]);
    }
    var n := t.numeral;
    PointedIff(n);
    MinusFirst(n);
    assert G.Whole(n) && G.SpellNumeral(n) == n.whole;
    ValueIsDenoted(digits);
  }
}
