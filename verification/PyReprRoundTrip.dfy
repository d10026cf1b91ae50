/** Parsing undoes `repr` on every JSON-shaped Python value. */
module PyReprRoundTrip {
  import opened Wrappers
  import opened Utf8
  import opened Decimal
  import opened PyRepr
  import opened PythonRepr

  // ----- Positions -----

  lemma AtSplit(s: seq<Byte>, i: nat, a: seq<Byte>, b: seq<Byte>)
    requires At(s, i, a + b)
    ensures At(s, i, a) && At(s, i + |a|, b)
  {
    var j := i + |a + b|;
    assert s[i..i + |a|] == s[i..j][..|a|] == (a + b)[..|a|] == a;
    assert s[i + |a|..j] == s[i..j][|a|..] == (a + b)[|a|..] == b;
  }

  lemma AtSplit3(s: seq<Byte>, i: nat, a: seq<Byte>, b: seq<Byte>, c: seq<Byte>)
    requires At(s, i, a + b + c)
    ensures At(s, i, a) && At(s, i + |a|, b) && At(s, i + |a| + |b|, c)
  {
    AtSplit(s, i, a + b, c);
    AtSplit(s, i, a, b);
  }

  lemma AtByte(s: seq<Byte>, i: nat, t: seq<Byte>, k: nat)
    requires At(s, i, t) && k < |t|
    ensures i + k < |s| && s[i + k] == t[k]
  {
    assert s[i..i + |t|][k] == t[k];
  }

  lemma AtNothing(s: seq<Byte>, i: nat)
    requires i <= |s|
    ensures At(s, i, [])
  {
  }

  /** Nothing at `j` could prolong a number or a keyword. */
  predicate Stops(s: seq<Byte>, j: nat) {
    j >= |s| || (!IsNumberByte(s[j]) && !IsWordByte(s[j]))
  }

  lemma SkipNothing(s: seq<Byte>, i: nat)
    requires i <= |s| && (i < |s| ==> !IsWs(s[i]))
    ensures SkipWs(s, i) == i
  {
  }

  // ----- Strings -----

  ghost function Pow16(n: nat): nat {
    if n == 0 then 1 else 16 * Pow16(n - 1)
  }

  lemma {:induction false} HexTextValue(n: nat, width: nat)
    requires n < Pow16(width)
    ensures HexValue(HexText(n, width)) == Some(n)
  {
    if width > 0 {
      HexTextValue(n / 16, width - 1);
      assert HexText(n, width)[..width - 1] == HexText(n / 16, width - 1);
    }
  }

  lemma {:induction false} HexTextHasNoSign(n: nat, width: nat)
    ensures forall k :: 0 <= k < width ==> HexText(n, width)[k] != PLUS
  {
    if width > 0 {
      HexTextHasNoSign(n / 16, width - 1);
    }
  }

  lemma HexEscapeParses(s: seq<Byte>, i: nat, letter: Byte, c: Scalar)
    requires HexWidth(letter) > 0 && c < Pow16(HexWidth(letter))
    requires At(s, i, HexEscape(letter, c))
    ensures s[i] == BACKSLASH
    ensures ParseEscape(s, i + 1) == Ok(c, i + |HexEscape(letter, c)|)
  {
    var n: nat := c;
    var width := HexWidth(letter);
    var text := HexText(n, width);
    AtSplit(s, i, [BACKSLASH, letter], text);
    AtByte(s, i, [BACKSLASH, letter], 0);
    AtByte(s, i, [BACKSLASH, letter], 1);
    HexTextValue(n, width);
    HexTextHasNoSign(n, width);
    assert FromStrRadix16(text) == Some(n);
  }

  lemma RawParses(s: seq<Byte>, i: nat, c: Scalar)
    requires At(s, i, EncodeScalar(c))
    ensures ParseRaw(s, i) == Ok(c, i + |EncodeScalar(c)|)
  {
    DecodeEncode(c);
    AtByte(s, i, EncodeScalar(c), 0);
  }

  /** One character of a literal is read back, and is not mistaken for the closing quote. */
  lemma CharParses(s: seq<Byte>, i: nat, c: Scalar, quote: Byte, printable: Printable)
    requires quote == QUOTE || quote == DOUBLE_QUOTE
    requires At(s, i, EscapeChar(c, quote, printable))
    ensures i < |s| && s[i] != quote
    ensures (if s[i] == BACKSLASH then ParseEscape(s, i + 1) else ParseRaw(s, i))
            == Ok(c, i + |EscapeChar(c, quote, printable)|)
  {
    var bytes := EscapeChar(c, quote, printable);
    AtByte(s, i, bytes, 0);
    assert Pow16(2) == 0x100 && Pow16(4) == 0x1_0000 && Pow16(8) == 0x1_0000_0000 by {
      assert Pow16(6) == 0x100 * Pow16(4);
    }
    if bytes == EncodeScalar(c) && c != quote as int && c != BACKSLASH as int {
      EncodeHighBytes(c);
      RawParses(s, i, c);
    } else if |bytes| == 2 {
      AtByte(s, i, bytes, 1);
    } else if c <= 0xFF {
      HexEscapeParses(s, i, 0x78, c);
    } else if c <= 0xFFFF {
      HexEscapeParses(s, i, 0x75, c);
    } else {
      HexEscapeParses(s, i, 0x55, c);
    }
  }

  lemma {:induction false} TextParses(s: seq<Byte>, i: nat, text: Text, quote: Byte, printable: Printable, out: Text)
    requires quote == QUOTE || quote == DOUBLE_QUOTE
    requires At(s, i, EscapeText(text, quote, printable) + [quote])
    ensures ParseString(s, i, quote, out) == Ok(out + text, i + |EscapeText(text, quote, printable)| + 1)
    decreases |text|
  {
    hide ParseEscape, ParseRaw, EscapeChar, At;
    var all := EscapeText(text, quote, printable);
    AtSplit(s, i, all, [quote]);
    AtByte(s, i + |all|, [quote], 0);
    if text == [] {
      assert out + text == out;
    } else {
      var first := EscapeChar(text[0], quote, printable);
      var rest := EscapeText(text[1..], quote, printable);
      assert all + [quote] == first + (rest + [quote]);
      AtSplit(s, i, first, rest + [quote]);
      CharParses(s, i, text[0], quote, printable);
      TextParses(s, i + |first|, text[1..], quote, printable, out + [text[0]]);
      assert out + [text[0]] + text[1..] == out + text;
    }
  }

  lemma StrParses(floats: Floats, s: seq<Byte>, i: nat, text: Text, printable: Printable)
    requires At(s, i, ReprStr(text, printable))
    ensures ParseValue(floats, s, i) == Ok(Str(text), i + |ReprStr(text, printable)|)
  {
    hide At, EscapeText;
    var quote := QuoteFor(text);
    var body := EscapeText(text, quote, printable) + [quote];
    assert ReprStr(text, printable) == [quote] + body;
    AtSplit(s, i, [quote], body);
    AtByte(s, i, [quote], 0);
    SkipNothing(s, i);
    TextParses(s, i + 1, text, quote, printable, []);
    assert [] + text == text;
  }

  // ----- Numbers and keywords -----

  predicate IsNumberText(t: seq<Byte>) {
    t != [] && StartsNumber(t[0]) && forall k :: 0 <= k < |t| ==> IsNumberByte(t[k]) && t[k] != UNDERSCORE
  }

  lemma {:induction false} NoUnderscores(t: seq<Byte>)
    requires UNDERSCORE !in t
    ensures WithoutUnderscores(t) == t
  {
    if t != [] {
      NoUnderscores(t[1..]);
    }
  }

  lemma {:induction false} RunEnds(s: seq<Byte>, i: nat, j: nat)
    requires i <= j <= |s| && forall k :: i <= k < j ==> IsNumberByte(s[k])
    requires Stops(s, j)
    ensures NumberEnd(s, i) == j
    decreases j - i
  {
    if i < j {
      RunEnds(s, i + 1, j);
    }
  }

  /** A number's text is taken whole, and read as that text. */
  lemma NumberParses(floats: Floats, s: seq<Byte>, i: nat, t: seq<Byte>)
    requires At(s, i, t) && IsNumberText(t) && Stops(s, i + |t|)
    requires !EndsWithDots(t) && ReadNumber(floats, t).Some?
    ensures ParseValue(floats, s, i) == Ok(Num(ReadNumber(floats, t).value), i + |t|)
  {
    forall k | i <= k < i + |t|
      ensures s[k] == t[k - i]
    {
      AtByte(s, i, t, k - i);
    }
    SkipNothing(s, i);
    RunEnds(s, i, i + |t|);
    NoUnderscores(t);
  }

  lemma IntParses(floats: Floats, s: seq<Byte>, i: nat, n: int)
    requires IsI64(n) && At(s, i, ShowInt(n)) && Stops(s, i + |ShowInt(n)|)
    ensures ParseValue(floats, s, i) == Ok(Num(Int(n)), i + |ShowInt(n)|)
  {
    var t := ShowInt(n);
    ParseShow(n);
    assert IsDigit(t[|t| - 1]);
    NumberParses(floats, s, i, t);
  }

  /** A float's text has a dot or an exponent, so it is never read as an integer. */
  lemma FloatText(f: FloatLiteral)
    requires WellFormedFloat(f)
    ensures IsNumberText(ReprFloat(f)) && !EndsWithDots(ReprFloat(f))
    ensures ParseI64(ReprFloat(f)) == None
  {
    var t := ReprFloat(f);
    var sign: seq<Byte> := if f.negative then [MINUS] else [];
    var head := sign + f.whole;
    assert t[0] == head[0];
    assert t[|t| - 1] != DOT;
    assert |t| > |head| && t[|head|] == (if f.fraction == [] then 0x65 else DOT);
    assert !IsDigit(t[|head|]);
    assert !AllDigits(t);
    assert t[1..][|head| - 1] == t[|head|];
  }

  lemma WordParses(floats: Floats, s: seq<Byte>, i: nat, v: PyValue, printable: Printable)
    requires v.PyNone? || v.PyBool?
    requires At(s, i, Repr(v, printable)) && Stops(s, i + |Repr(v, printable)|)
    ensures ParseValue(floats, s, i) == Ok(ToJson(v, floats), i + |Repr(v, printable)|)
  {
    AtByte(s, i, Repr(v, printable), 0);
    SkipNothing(s, i);
    assert At(s, i, NONE) ==> s[i..i + |NONE|][0] == s[i];
    assert At(s, i, TRUE) ==> s[i..i + |TRUE|][0] == s[i];
    assert At(s, i, FALSE) ==> s[i..i + |FALSE|][0] == s[i];
  }

  // ----- Containers, as bytes: what a text does to the parser once its parts are understood -----

  /** Bytes that end a container. */
  predicate Closes(b: Byte) {
    b == CLOSE_BRACKET || b == CLOSE_PAREN || b == CLOSE_BRACE
  }

  /** An element may start with this byte: it is no blank and ends no container. */
  predicate Opens(b: Byte) {
    !IsWs(b) && !Closes(b)
  }

  /** A comma and a blank leave the parser where the next element starts. */
  lemma AfterComma(s: seq<Byte>, i: nat, close: Byte)
    requires At(s, i, [COMMA, SPACE]) && i + 2 < |s| && !IsWs(s[i + 2])
    ensures Stops(s, i) && AfterItem(s, i, close) == More(i + 1)
    ensures SkipWs(s, i + 1) == i + 2
  {
    AtByte(s, i, [COMMA, SPACE], 0);
    AtByte(s, i, [COMMA, SPACE], 1);
  }

  /** After the last element: the closing byte, or the comma of a one-tuple and then the closing byte. */
  lemma AfterLast(s: seq<Byte>, i: nat, trailing: seq<Byte>, close: Byte)
    requires Closes(close) && (trailing == [] || trailing == [COMMA])
    requires At(s, i, trailing) && At(s, i + |trailing|, [close])
    ensures Stops(s, i)
    ensures trailing == [] ==> AfterItem(s, i, close) == Closed(i + 1)
    ensures trailing != [] ==> AfterItem(s, i, close) == More(i + 1) && CloseAt(s, i + 1, close)
  {
    AtByte(s, i + |trailing|, [close], 0);
    if trailing != [] {
      AtByte(s, i, trailing, 0);
    }
  }

  predicate CloseAt(s: seq<Byte>, i: nat, close: Byte) {
    i <= |s| && SkipWs(s, i) == i < |s| && s[i] == close
  }

  /** One round of the item loop that ends at a separator or at the closing byte. */
  lemma ItemRound(floats: Floats, s: seq<Byte>, i: nat, j: nat, v: Json, end: nat, close: Byte, out: seq<Json>)
    requires i <= |s| && SkipWs(s, i) == j < |s| && s[j] != close
    requires ParseValue(floats, s, j) == Ok(v, end)
    ensures match AfterItem(s, end, close)
            case More(next) => ParseItems(floats, s, i, close, out) == ParseItems(floats, s, next, close, out + [v])
            case Closed(last) => ParseItems(floats, s, i, close, out) == Ok(out + [v], last)
            case Missing(_) => true
  {
  }

  lemma NoMoreItems(floats: Floats, s: seq<Byte>, i: nat, close: Byte, out: seq<Json>)
    requires i <= |s| && SkipWs(s, i) < |s| && s[SkipWs(s, i)] == close
    ensures ParseItems(floats, s, i, close, out) == Ok(out, SkipWs(s, i) + 1)
  {
  }

  lemma EntryRound(floats: Floats, s: seq<Byte>, i: nat, j: nat, key: Text, v: Json, end: nat, fields: map<Text, Json>)
    requires i <= |s| && SkipWs(s, i) == j < |s| && s[j] != CLOSE_BRACE
    requires ParseEntry(floats, s, j) == Ok((key, v), end)
    ensures match AfterItem(s, end, CLOSE_BRACE)
            case More(next) => ParseDict(floats, s, i, fields) == ParseDict(floats, s, next, fields[key := v])
            case Closed(last) => ParseDict(floats, s, i, fields) == Ok(fields[key := v], last)
            case Missing(_) => true
  {
  }

  lemma NoMoreEntries(floats: Floats, s: seq<Byte>, i: nat, fields: map<Text, Json>)
    requires i <= |s| && SkipWs(s, i) < |s| && s[SkipWs(s, i)] == CLOSE_BRACE
    ensures ParseDict(floats, s, i, fields) == Ok(fields, SkipWs(s, i) + 1)
  {
  }

  /** A key, a colon and a value, when the two ends parse. */
  lemma EntryJoins(floats: Floats, s: seq<Byte>, i: nat, keyValue: Json, key: Text, colon: nat, v: Json, end: nat)
    requires i <= |s| && colon + 1 < |s| && s[colon] == COLON && s[colon + 1] == SPACE
    requires ParseValue(floats, s, i) == Ok(keyValue, colon) && KeyText(floats, keyValue) == Some(key)
    requires ParseValue(floats, s, colon + 2) == Ok(v, end)
    ensures ParseEntry(floats, s, i) == Ok((key, v), end)
  {
    hide ParseValue;
    LeadingBlank(floats, s, colon + 1);
  }

  lemma LeadingBlank(floats: Floats, s: seq<Byte>, i: nat)
    requires i < |s| && IsWs(s[i])
    ensures ParseValue(floats, s, i) == ParseValue(floats, s, i + 1)
  {
  }

  lemma ArrayValue(floats: Floats, s: seq<Byte>, i: nat, items: seq<Json>, end: nat)
    requires i < |s| && (s[i] == OPEN_BRACKET || s[i] == OPEN_PAREN)
    requires ParseItems(floats, s, i + 1, if s[i] == OPEN_BRACKET then CLOSE_BRACKET else CLOSE_PAREN, [])
             == Ok(items, end)
    ensures ParseValue(floats, s, i) == Ok(Arr(items), end)
  {
  }

  lemma DictValue(floats: Floats, s: seq<Byte>, i: nat, fields: map<Text, Json>, end: nat)
    requires i < |s| && s[i] == OPEN_BRACE
    requires ParseDict(floats, s, i + 1, map[]) == Ok(fields, end)
    ensures ParseValue(floats, s, i) == Ok(Obj(fields), end)
  {
  }

  // ----- The induction over values -----

  lemma ReprHead(v: PyValue, floats: Floats, printable: Printable)
    requires Representable(v, floats)
    ensures Repr(v, printable) != [] && Opens(Repr(v, printable)[0])
  {
    if v.PyInt? && v.i >= 0 {
      assert IsDigit(ShowNat(v.i)[0]);
    } else if v.PyFloat? && !v.literal.negative {
      assert Repr(v, printable)[0] == v.literal.whole[0];
    }
  }

  lemma ItemsHead(s: seq<Byte>, i: nat, items: seq<PyValue>, floats: Floats, printable: Printable)
    requires items != [] && Representable(items[0], floats) && At(s, i, ReprItems(items, printable))
    ensures i < |s| && Opens(s[i])
  {
    ReprHead(items[0], floats, printable);
    AtByte(s, i, ReprItems(items, printable), 0);
  }

  /** A repr standing anywhere in a text is read back exactly. */
  lemma {:induction false} ValueParses(floats: Floats, s: seq<Byte>, i: nat, v: PyValue, printable: Printable)
    requires Representable(v, floats)
    requires At(s, i, Repr(v, printable)) && Stops(s, i + |Repr(v, printable)|)
    ensures ParseValue(floats, s, i) == Ok(ToJson(v, floats), i + |Repr(v, printable)|)
    decreases v, 0
  {
    match v
    case PyNone => WordParses(floats, s, i, v, printable);
    case PyBool(_) => WordParses(floats, s, i, v, printable);
    case PyInt(n) => IntParses(floats, s, i, n);
    case PyFloat(f) => FloatParses(floats, s, i, f);
    case PyStr(text) => StrParses(floats, s, i, text, printable);
    case PyList(items) => ArrayParses(floats, s, i, items, OPEN_BRACKET, [], CLOSE_BRACKET, printable);
    case PyTuple(items) =>
      ArrayParses(floats, s, i, items, OPEN_PAREN, if |items| == 1 then [COMMA] else [], CLOSE_PAREN, printable);
    case PyDict(entries) => DictParses(floats, s, i, entries, printable);
  }

  lemma FloatParses(floats: Floats, s: seq<Byte>, i: nat, f: FloatLiteral)
    requires WellFormedFloat(f) && floats.read(ReprFloat(f)).Some?
    requires At(s, i, ReprFloat(f)) && Stops(s, i + |ReprFloat(f)|)
    ensures ParseValue(floats, s, i) == Ok(Num(Float(floats.read(ReprFloat(f)).value)), i + |ReprFloat(f)|)
  {
    FloatText(f);
    NumberParses(floats, s, i, ReprFloat(f));
  }

  lemma {:induction false} ArrayParses(floats: Floats, s: seq<Byte>, i: nat, items: seq<PyValue>,
                                       open: Byte, trailing: seq<Byte>, close: Byte, printable: Printable)
    requires (open == OPEN_BRACKET && close == CLOSE_BRACKET) || (open == OPEN_PAREN && close == CLOSE_PAREN)
    requires trailing == [] || (trailing == [COMMA] && |items| == 1)
    requires forall k :: 0 <= k < |items| ==> Representable(items[k], floats)
    requires At(s, i, [open] + ReprItems(items, printable) + trailing + [close])
    ensures ParseValue(floats, s, i)
            == Ok(Arr(ToJsons(items, floats)), i + |ReprItems(items, printable)| + |trailing| + 2)
    decreases items, 2
  {
    hide ParseItems, ParseValue, ToJson, ToJsons, Repr, At;
    var body := ReprItems(items, printable);
    AtSplit3(s, i, [open] + body, trailing, [close]);
    AtSplit(s, i, [open], body);
    AtByte(s, i, [open], 0);
    AtByte(s, i + 1 + |body| + |trailing|, [close], 0);
    if items != [] {
      ItemsHead(s, i + 1, items, floats, printable);
    }
    ItemsParse(floats, s, i + 1, i + 1, items, trailing, close, [], printable);
    assert [] + ToJsons(items, floats) == ToJsons(items, floats);
    ArrayValue(floats, s, i, ToJsons(items, floats), i + |body| + |trailing| + 2);
  }

  /** Two items or more: the first, a comma, a blank, and the others. */
  lemma ItemsStep(floats: Floats, s: seq<Byte>, j: nat, items: seq<PyValue>, close: Byte, printable: Printable)
    returns (next: nat)
    requires |items| > 1 && Representable(items[1], floats) && At(s, j, ReprItems(items, printable))
    ensures var after := j + |Repr(items[0], printable)|;
            && next == after + 1 && At(s, j, Repr(items[0], printable))
            && Stops(s, after) && AfterItem(s, after, close) == More(next)
            && SkipWs(s, next) == next + 1 && At(s, next + 1, ReprItems(items[1..], printable))
            && next + 1 + |ReprItems(items[1..], printable)| == j + |ReprItems(items, printable)|
  {
    hide At, Repr, AfterItem;
    var t := Repr(items[0], printable);
    next := j + |t| + 1;
    AtSplit3(s, j, t, [COMMA, SPACE], ReprItems(items[1..], printable));
    ItemsHead(s, next + 1, items[1..], floats, printable);
    AfterComma(s, next - 1, close);
  }

  lemma {:induction false} ItemsParse(floats: Floats, s: seq<Byte>, i: nat, j: nat, items: seq<PyValue>,
                                      trailing: seq<Byte>, close: Byte, out: seq<Json>, printable: Printable)
    requires close == CLOSE_BRACKET || close == CLOSE_PAREN
    requires trailing == [] || (trailing == [COMMA] && |items| == 1)
    requires forall k :: 0 <= k < |items| ==> Representable(items[k], floats)
    requires i <= |s| && j == SkipWs(s, i) && At(s, j, ReprItems(items, printable))
    requires At(s, j + |ReprItems(items, printable)|, trailing)
    requires At(s, j + |ReprItems(items, printable)| + |trailing|, [close])
    ensures ParseItems(floats, s, i, close, out)
            == Ok(out + ToJsons(items, floats), j + |ReprItems(items, printable)| + |trailing| + 1)
    decreases items, 1
  {
    hide ParseValue, ParseItems, At, AfterItem, ToJson, Repr, SkipWs, Stops;
    if items == [] {
      AtByte(s, j, [close], 0);
      NoMoreItems(floats, s, i, close, out);
      assert out + ToJsons(items, floats) == out;
    } else if |items| == 1 {
      LastItem(floats, s, i, j, items[0], trailing, close, out, printable);
      assert ToJsons(items, floats) == [ToJson(items[0], floats)];
    } else {
      var v := ToJson(items[0], floats);
      var next := ItemsStep(floats, s, j, items, close, printable);
      ValueItem(floats, s, i, j, items[0], close, out, printable);
      ItemsParse(floats, s, next, next + 1, items[1..], trailing, close, out + [v], printable);
      assert out + [v] + ToJsons(items[1..], floats) == out + ToJsons(items, floats);
    }
  }

  /** One round of the loop reads one item. */
  lemma {:induction false} ValueItem(floats: Floats, s: seq<Byte>, i: nat, j: nat, item: PyValue,
                                     close: Byte, out: seq<Json>, printable: Printable)
    requires close == CLOSE_BRACKET || close == CLOSE_PAREN
    requires Representable(item, floats)
    requires i <= |s| && j == SkipWs(s, i) && At(s, j, Repr(item, printable))
    requires Stops(s, j + |Repr(item, printable)|)
    ensures match AfterItem(s, j + |Repr(item, printable)|, close)
            case More(next) =>
              ParseItems(floats, s, i, close, out) == ParseItems(floats, s, next, close, out + [ToJson(item, floats)])
            case Closed(last) => ParseItems(floats, s, i, close, out) == Ok(out + [ToJson(item, floats)], last)
            case Missing(_) => true
    decreases item, 1
  {
    hide ParseItems, ParseValue, At, ToJson, Repr;
    ReprHead(item, floats, printable);
    AtByte(s, j, Repr(item, printable), 0);
    ValueParses(floats, s, j, item, printable);
    ItemRound(floats, s, i, j, ToJson(item, floats), j + |Repr(item, printable)|, close, out);
  }

  lemma {:induction false} LastItem(floats: Floats, s: seq<Byte>, i: nat, j: nat, item: PyValue,
                                    trailing: seq<Byte>, close: Byte, out: seq<Json>, printable: Printable)
    requires close == CLOSE_BRACKET || close == CLOSE_PAREN
    requires trailing == [] || trailing == [COMMA]
    requires Representable(item, floats)
    requires i <= |s| && j == SkipWs(s, i) && At(s, j, Repr(item, printable))
    requires At(s, j + |Repr(item, printable)|, trailing)
    requires At(s, j + |Repr(item, printable)| + |trailing|, [close])
    ensures ParseItems(floats, s, i, close, out)
            == Ok(out + [ToJson(item, floats)], j + |Repr(item, printable)| + |trailing| + 1)
    decreases item, 2
  {
    hide ParseItems, ParseValue, At, ToJson, Repr;
    var after := j + |Repr(item, printable)|;
    AfterLast(s, after, trailing, close);
    ValueItem(floats, s, i, j, item, close, out, printable);
    if trailing != [] {
      NoMoreItems(floats, s, after + 1, close, out + [ToJson(item, floats)]);
    }
  }

  lemma {:induction false} DictParses(floats: Floats, s: seq<Byte>, i: nat, entries: seq<PyEntry>, printable: Printable)
    requires forall k :: 0 <= k < |entries| ==> RepresentableEntry(entries[k], floats)
    requires At(s, i, [OPEN_BRACE] + ReprEntries(entries, printable) + [CLOSE_BRACE])
    ensures ParseValue(floats, s, i)
            == Ok(Obj(WithEntries(map[], entries, floats)), i + |ReprEntries(entries, printable)| + 2)
    decreases entries, 2
  {
    hide ParseDict, ParseValue, WithEntries, ReprEntry, RepresentableEntry, At;
    var body := ReprEntries(entries, printable);
    AtSplit3(s, i, [OPEN_BRACE], body, [CLOSE_BRACE]);
    AtByte(s, i, [OPEN_BRACE], 0);
    AtByte(s, i + 1 + |body|, [CLOSE_BRACE], 0);
    if entries != [] {
      EntriesHead(s, i + 1, entries, floats, printable);
    }
    EntriesParse(floats, s, i + 1, i + 1, entries, map[], printable);
    DictValue(floats, s, i, WithEntries(map[], entries, floats), i + |body| + 2);
  }

  lemma EntriesHead(s: seq<Byte>, i: nat, entries: seq<PyEntry>, floats: Floats, printable: Printable)
    requires entries != [] && RepresentableEntry(entries[0], floats) && At(s, i, ReprEntries(entries, printable))
    ensures i < |s| && Opens(s[i])
  {
    hide At;
    EntryHead(entries[0], floats, printable);
    assert |ReprEntries(entries, printable)| > 0;
    assert ReprEntries(entries, printable)[0] == ReprEntry(entries[0], printable)[0];
    AtByte(s, i, ReprEntries(entries, printable), 0);
  }

  lemma EntryHead(entry: PyEntry, floats: Floats, printable: Printable)
    requires RepresentableEntry(entry, floats)
    ensures |ReprEntry(entry, printable)| > 0 && Opens(ReprEntry(entry, printable)[0])
  {
    ReprHead(entry.key, floats, printable);
  }

  lemma {:induction false} EntryParses(floats: Floats, s: seq<Byte>, i: nat, entry: PyEntry, printable: Printable)
    requires RepresentableEntry(entry, floats)
    requires At(s, i, ReprEntry(entry, printable)) && Stops(s, i + |ReprEntry(entry, printable)|)
    ensures ParseEntry(floats, s, i)
            == Ok((EntryKey(entry, floats), EntryJson(entry, floats)), i + |ReprEntry(entry, printable)|)
    decreases entry, 0
  {
    hide ParseValue, ParseEntry, At;
    var key := Repr(entry.key, printable);
    var t := Repr(entry.value, printable);
    var colon := i + |key|;
    AtSplit3(s, i, key, [COLON, SPACE], t);
    assert s[colon] == COLON && s[colon + 1] == SPACE by {
      AtByte(s, colon, [COLON, SPACE], 0);
      AtByte(s, colon, [COLON, SPACE], 1);
    }
    ValueParses(floats, s, i, entry.key, printable);
    ValueParses(floats, s, colon + 2, entry.value, printable);
    EntryJoins(floats, s, i, ToJson(entry.key, floats), EntryKey(entry, floats), colon,
               ToJson(entry.value, floats), colon + 2 + |t|);
  }

  /** One round of the loop reads one entry. */
  lemma {:induction false} EntryItem(floats: Floats, s: seq<Byte>, i: nat, j: nat, entry: PyEntry,
                                     fields: map<Text, Json>, printable: Printable)
    requires RepresentableEntry(entry, floats)
    requires i <= |s| && j == SkipWs(s, i) && At(s, j, ReprEntry(entry, printable))
    requires Stops(s, j + |ReprEntry(entry, printable)|)
    ensures match AfterItem(s, j + |ReprEntry(entry, printable)|, CLOSE_BRACE)
            case More(next) =>
              ParseDict(floats, s, i, fields)
              == ParseDict(floats, s, next, fields[EntryKey(entry, floats) := EntryJson(entry, floats)])
            case Closed(last) =>
              ParseDict(floats, s, i, fields) == Ok(fields[EntryKey(entry, floats) := EntryJson(entry, floats)], last)
            case Missing(_) => true
    decreases entry, 1
  {
    hide ParseValue, ParseDict, ParseEntry;
    AtByte(s, j, ReprEntry(entry, printable), 0);
    EntryHead(entry, floats, printable);
    EntryParses(floats, s, j, entry, printable);
    EntryRound(floats, s, i, j, EntryKey(entry, floats), EntryJson(entry, floats), j + |ReprEntry(entry, printable)|, fields);
  }

  /** Two entries or more: the first, a comma, a blank, and the others. */
  lemma EntriesStep(s: seq<Byte>, j: nat, entries: seq<PyEntry>, floats: Floats, printable: Printable) returns (next: nat)
    requires |entries| > 1 && RepresentableEntry(entries[1], floats) && At(s, j, ReprEntries(entries, printable))
    ensures var after := j + |ReprEntry(entries[0], printable)|;
            && next == after + 1 && At(s, j, ReprEntry(entries[0], printable))
            && Stops(s, after) && AfterItem(s, after, CLOSE_BRACE) == More(next)
            && SkipWs(s, next) == next + 1 && At(s, next + 1, ReprEntries(entries[1..], printable))
            && next + 1 + |ReprEntries(entries[1..], printable)| == j + |ReprEntries(entries, printable)|
  {
    hide At, ReprEntry, AfterItem;
    var t := ReprEntry(entries[0], printable);
    next := j + |t| + 1;
    AtSplit3(s, j, t, [COMMA, SPACE], ReprEntries(entries[1..], printable));
    EntriesHead(s, next + 1, entries[1..], floats, printable);
    AfterComma(s, next - 1, CLOSE_BRACE);
  }

  lemma {:induction false} EntriesParse(floats: Floats, s: seq<Byte>, i: nat, j: nat, entries: seq<PyEntry>,
                                        fields: map<Text, Json>, printable: Printable)
    requires forall k :: 0 <= k < |entries| ==> RepresentableEntry(entries[k], floats)
    requires i <= |s| && j == SkipWs(s, i) && At(s, j, ReprEntries(entries, printable))
    requires At(s, j + |ReprEntries(entries, printable)|, [CLOSE_BRACE])
    ensures ParseDict(floats, s, i, fields)
            == Ok(WithEntries(fields, entries, floats), j + |ReprEntries(entries, printable)| + 1)
    decreases entries, 1
  {
    hide ParseValue, ParseDict, ParseEntry, At, AfterItem, EntryJson, ReprEntry, SkipWs, Stops;
    if entries == [] {
      AtByte(s, j, [CLOSE_BRACE], 0);
      NoMoreEntries(floats, s, i, fields);
    } else if |entries| == 1 {
      var after := j + |ReprEntry(entries[0], printable)|;
      AtByte(s, after, [CLOSE_BRACE], 0);
      AtNothing(s, after);
      AfterLast(s, after, [], CLOSE_BRACE);
      EntryItem(floats, s, i, j, entries[0], fields, printable);
      assert entries[1..] == [];
    } else {
      var next := EntriesStep(s, j, entries, floats, printable);
      EntryItem(floats, s, i, j, entries[0], fields, printable);
      EntriesParse(floats, s, next, next + 1, entries[1..],
                   fields[EntryKey(entries[0], floats) := EntryJson(entries[0], floats)], printable);
    }
  }

  // ----- The law -----

  /** `parse` undoes `repr`: every representable value comes back as its JSON form, with nothing left over. */
  lemma RoundTrip(v: PyValue, floats: Floats, printable: Printable)
    requires Representable(v, floats)
    ensures Parse(floats, Repr(v, printable)) == Ok(ToJson(v, floats), |Repr(v, printable)|)
  {
    var s := Repr(v, printable);
    ReprHead(v, floats, printable);
    assert s[0..|s|] == s;
    ValueParses(floats, s, 0, v, printable);
  }
}
