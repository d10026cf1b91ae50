/** Every literal is accepted: the parser reads each tree that has a value, wherever its text stands. */
module PyReprComplete {
  import opened Wrappers
  import opened Utf8
  import opened PyRepr
  import opened PyLiteral
  import opened PyReprRoundTrip
  import opened PyReprSound

  // ----- Blanks and first bytes -----

  lemma {:induction false} SkipBlank(s: seq<Byte>, i: nat, blank: seq<Byte>)
    requires At(s, i, blank) && Blank(blank) && (i + |blank| < |s| ==> !IsWs(s[i + |blank|]))
    ensures SkipWs(s, i) == i + |blank|
    decreases |blank|
  {
    if blank != [] {
      AtByte(s, i, blank, 0);
      AtSplit(s, i, [blank[0]], blank[1..]);
      assert [blank[0]] + blank[1..] == blank;
      SkipBlank(s, i + 1, blank[1..]);
    }
  }

  lemma LiteralOpens(floats: Floats, l: Literal)
    requires Value(floats, l).Some?
    ensures LiteralText(l) != [] && Opens(LiteralText(l)[0])
  {
  }

  /** A blank, a comma, a colon and a closing byte all end a number or a keyword. */
  lemma BlankStops(s: seq<Byte>, i: nat, blank: seq<Byte>)
    requires At(s, i, blank) && Blank(blank)
    requires i + |blank| < |s| && (s[i + |blank|] == COMMA || s[i + |blank|] == COLON || Closes(s[i + |blank|]))
    ensures Stops(s, i) && SkipWs(s, i) == i + |blank|
  {
    SkipBlank(s, i, blank);
    if blank != [] {
      AtByte(s, i, blank, 0);
    }
  }

  // ----- Leaves -----

  lemma PieceParses(s: seq<Byte>, i: nat, quote: Byte, p: Piece)
    requires quote == QUOTE || quote == DOUBLE_QUOTE
    requires PieceValue(quote, p).Some? && At(s, i, PieceText(p))
    ensures i < |s| && s[i] != quote
    ensures (if s[i] == BACKSLASH then ParseEscape(s, i + 1) else ParseRaw(s, i))
            == Ok(PieceValue(quote, p).value, i + |PieceText(p)|)
  {
    hide FromStrRadix16, SimpleEscape;
    match p
    case Raw(c) =>
      EncodeHighBytes(c);
      AtByte(s, i, EncodeScalar(c), 0);
      RawParses(s, i, c);
      assert EncodeScalar(c)[0] in EncodeScalar(c);
    case Simple(letter) =>
      AtByte(s, i, PieceText(p), 0);
      AtByte(s, i, PieceText(p), 1);
    case Hex(letter, digits) =>
      AtByte(s, i, PieceText(p), 0);
      AtByte(s, i, PieceText(p), 1);
      AtSplit(s, i, [BACKSLASH, letter], digits);
  }

  lemma {:induction false} PiecesParse(s: seq<Byte>, i: nat, quote: Byte, pieces: seq<Piece>, out: Text)
    requires quote == QUOTE || quote == DOUBLE_QUOTE
    requires PiecesValue(quote, pieces).Some? && At(s, i, PiecesText(pieces) + [quote])
    ensures ParseString(s, i, quote, out)
            == Ok(out + PiecesValue(quote, pieces).value, i + |PiecesText(pieces)| + 1)
    decreases |pieces|
  {
    hide ParseEscape, ParseRaw, PieceText, PieceValue, At;
    if pieces == [] {
      assert PiecesText(pieces) + [quote] == [quote];
      AtByte(s, i, [quote], 0);
      assert out + [] == out;
    } else {
      var first, rest := PieceText(pieces[0]), PiecesText(pieces[1..]);
      Joined(first, rest, [quote]);
      AtSplit(s, i, first, rest + [quote]);
      PieceParses(s, i, quote, pieces[0]);
      var c := PieceValue(quote, pieces[0]).value;
      PiecesParse(s, i + |first|, quote, pieces[1..], out + [c]);
      Joined(out, [c], PiecesValue(quote, pieces[1..]).value);
    }
  }

  lemma NumeralParses(floats: Floats, s: seq<Byte>, i: nat, text: seq<Byte>)
    requires NumeralValue(floats, text).Some? && At(s, i, text) && Stops(s, i + |text|)
    ensures ParseValue(floats, s, i) == Ok(NumeralValue(floats, text).value, i + |text|)
  {
    hide WithoutUnderscores, ReadNumber;
    forall k | i <= k < i + |text|
      ensures s[k] == text[k - i]
    {
      AtByte(s, i, text, k - i);
    }
    SkipNothing(s, i);
    RunEnds(s, i, i + |text|);
  }

  lemma WordParses(floats: Floats, s: seq<Byte>, i: nat, text: seq<Byte>)
    requires WordValue(text).Some? && At(s, i, text) && Stops(s, i + |text|)
    ensures ParseValue(floats, s, i) == Ok(WordValue(text).value, i + |text|)
  {
    AtByte(s, i, text, 0);
    SkipNothing(s, i);
    assert At(s, i, NONE) ==> s[i..i + |NONE|][0] == s[i];
    assert At(s, i, TRUE) ==> s[i..i + |TRUE|][0] == s[i];
    assert At(s, i, FALSE) ==> s[i..i + |FALSE|][0] == s[i];
  }

  lemma StringValue(floats: Floats, s: seq<Byte>, i: nat, text: Text, end: nat)
    requires i < |s| && (s[i] == QUOTE || s[i] == DOUBLE_QUOTE)
    requires ParseString(s, i + 1, s[i], []) == Ok(text, end)
    ensures ParseValue(floats, s, i) == Ok(Str(text), end)
  {
    hide ParseString;
    SkipNothing(s, i);
  }

  // ----- Values and containers -----

  lemma {:induction false} LiteralParses(floats: Floats, s: seq<Byte>, i: nat, l: Literal)
    requires Value(floats, l).Some? && At(s, i, LiteralText(l)) && Stops(s, i + |LiteralText(l)|)
    ensures ParseValue(floats, s, i) == Ok(Value(floats, l).value, i + |LiteralText(l)|)
    decreases l, 0
  {
    hide At, Stops, ParseValue, ParseItems, ParseDict, ParseString, WordValue, NumeralValue, PiecesText, PiecesValue,
      ItemsText, EntriesText, ItemValues, EntryValues;
    match l
    case Word(text) => WordParses(floats, s, i, text);
    case Numeral(text) => NumeralParses(floats, s, i, text);
    case Quoted(quote, pieces) =>
      Joined([quote], PiecesText(pieces), [quote]);
      AtSplit(s, i, [quote], PiecesText(pieces) + [quote]);
      AtByte(s, i, [quote], 0);
      PiecesParse(s, i + 1, quote, pieces, []);
      assert [] + PiecesValue(quote, pieces).value == PiecesValue(quote, pieces).value;
      StringValue(floats, s, i, PiecesValue(quote, pieces).value, i + 1 + |PiecesText(pieces)| + 1);
    case Bracketed(open, items) =>
      AtSplit(s, i, [open], ItemsText(items, CloseOf(open)));
      AtByte(s, i, [open], 0);
      ItemsParse(floats, s, i + 1, items, CloseOf(open), []);
      assert [] + ItemValues(floats, items).value == ItemValues(floats, items).value;
      ArrayValue(floats, s, i, ItemValues(floats, items).value, i + |LiteralText(l)|);
    case Braced(entries) =>
      AtSplit(s, i, [OPEN_BRACE], EntriesText(entries));
      AtByte(s, i, [OPEN_BRACE], 0);
      EntriesParse(floats, s, i + 1, entries, map[]);
      DictValue(floats, s, i, EntryValues(floats, entries, map[]).value, i + |LiteralText(l)|);
  }

  /** Blanks, a literal, blanks and a byte that ends it. */
  lemma {:induction false} SpacedParses(floats: Floats, s: seq<Byte>, i: nat, before: seq<Byte>, l: Literal, after: seq<Byte>,
                                        end: Byte)
    requires Value(floats, l).Some? && Blank(before) && Blank(after)
    requires At(s, i, before + LiteralText(l) + after + [end]) && (end == COMMA || end == COLON || Closes(end))
    ensures var j := i + |before|;
            var k := j + |LiteralText(l)|;
            && SkipWs(s, i) == j < |s| && Opens(s[j])
            && ParseValue(floats, s, i) == ParseValue(floats, s, j) == Ok(Value(floats, l).value, k)
            && SkipWs(s, k) == k + |after| < |s| && s[k + |after|] == end
    decreases l, 1
  {
    hide At, ParseValue, LiteralText, Value, Blank;
    var text := LiteralText(l);
    var j := i + |before|;
    AtSplit(s, i, before + text + after, [end]);
    AtSplit3(s, i, before, text, after);
    AtByte(s, j + |text| + |after|, [end], 0);
    LiteralOpens(floats, l);
    AtByte(s, j, text, 0);
    SkipBlank(s, i, before);
    BlankStops(s, j + |text|, after);
    LiteralParses(floats, s, j, l);
    SameFrom(floats, s, i, j);
  }

  lemma SameFrom(floats: Floats, s: seq<Byte>, i: nat, j: nat)
    requires i <= j <= |s| && SkipWs(s, i) == j
    ensures ParseValue(floats, s, i) == ParseValue(floats, s, j)
  {
    SkipTwice(s, i);
  }

  lemma AfterIs(s: seq<Byte>, i: nat, close: Byte)
    requires i <= |s| && SkipWs(s, i) < |s| && close != COMMA
    ensures s[SkipWs(s, i)] == COMMA ==> AfterItem(s, i, close) == More(SkipWs(s, i) + 1)
    ensures s[SkipWs(s, i)] == close ==> AfterItem(s, i, close) == Closed(SkipWs(s, i) + 1)
  {
  }

  /** One round of the item loop, up to and with the byte behind the item. */
  lemma {:induction false} ItemParses(floats: Floats, s: seq<Byte>, i: nat, before: seq<Byte>, lit: Literal, after: seq<Byte>,
                                      end: Byte, close: Byte, out: seq<Json>)
    requires Value(floats, lit).Some? && Blank(before) && Blank(after)
    requires At(s, i, before + LiteralText(lit) + after + [end]) && (end == COMMA || end == close)
    requires close == CLOSE_BRACKET || close == CLOSE_PAREN
    ensures var more, next := out + [Value(floats, lit).value], i + |before| + |LiteralText(lit)| + |after| + 1;
            && i <= |s| && next <= |s|
            && ParseItems(floats, s, i, close, out)
               == if end == COMMA then ParseItems(floats, s, next, close, more) else Ok(more, next)
    decreases lit, 2
  {
    hide At, ParseValue, ParseItems, LiteralText, Value, Blank, AfterItem, SkipWs, IsWs;
    SpacedParses(floats, s, i, before, lit, after, end);
    var k := i + |before| + |LiteralText(lit)|;
    AfterIs(s, k, close);
    ItemRound(floats, s, i, i + |before|, Value(floats, lit).value, k, close, out);
  }

  lemma {:induction false} ItemsParse(floats: Floats, s: seq<Byte>, i: nat, items: Items, close: Byte, out: seq<Json>)
    requires ItemValues(floats, items).Some? && At(s, i, ItemsText(items, close))
    requires close == CLOSE_BRACKET || close == CLOSE_PAREN
    ensures i <= |s|
    ensures ParseItems(floats, s, i, close, out)
            == Ok(out + ItemValues(floats, items).value, i + |ItemsText(items, close)|)
    decreases items, 3
  {
    hide At, ParseValue, ParseItems, LiteralText, Value, Blank, AfterItem, SkipWs, IsWs;
    match items
    case NoItem(pad) =>
      AtSplit(s, i, pad, [close]);
      AtByte(s, i + |pad|, [close], 0);
      BlankStops(s, i, pad);
      NoMoreItems(floats, s, i, close, out);
      assert out + [] == out;
    case LastItem(before, lit, after) => ItemParses(floats, s, i, before, lit, after, close, close, out);
    case MoreItems(before, lit, after, rest) =>
      var item := before + LiteralText(lit) + after + [COMMA];
      AtSplit(s, i, item, ItemsText(rest, close));
      ItemParses(floats, s, i, before, lit, after, COMMA, close, out);
      ItemsParse(floats, s, i + |item|, rest, close, out + [Value(floats, lit).value]);
      Joined(out, [Value(floats, lit).value], ItemValues(floats, rest).value);
  }

  lemma EntryTwoParts(e: Entry, end: Byte)
    ensures EntryText(e) + [end]
            == (e.before + LiteralText(e.key) + e.colon + [COLON]) + (e.pad + LiteralText(e.lit) + e.after + [end])
  {
    hide LiteralText;
    var key := e.before + LiteralText(e.key) + e.colon + [COLON];
    Joined(key, e.pad, LiteralText(e.lit));
    Joined(key, e.pad + LiteralText(e.lit), e.after);
    Joined(key, e.pad + LiteralText(e.lit) + e.after, [end]);
  }

  lemma {:induction false} EntryParses(floats: Floats, s: seq<Byte>, i: nat, e: Entry, end: Byte)
    requires EntryValue(floats, e).Some? && At(s, i, EntryText(e) + [end]) && (end == COMMA || end == CLOSE_BRACE)
    ensures var j := SkipWs(s, i);
            var k := i + |EntryText(e)|;
            && i <= j < |s| && Opens(s[j]) && k < |s| && s[k] == end
            && ParseEntry(floats, s, j).Ok? && ParseEntry(floats, s, j).value == EntryValue(floats, e).value
            && SkipWs(s, ParseEntry(floats, s, j).end) == k
    decreases e, 3
  {
    hide At, ParseValue, LiteralText, Value, Blank, KeyText, SkipWs, EntryText, IsWs;
    var key, lit := e.before + LiteralText(e.key) + e.colon + [COLON], e.pad + LiteralText(e.lit) + e.after + [end];
    EntryTwoParts(e, end);
    AtSplit(s, i, key, lit);
    SpacedParses(floats, s, i, e.before, e.key, e.colon, COLON);
    SpacedParses(floats, s, i + |key|, e.pad, e.lit, e.after, end);
  }

  lemma {:induction false} EntriesParse(floats: Floats, s: seq<Byte>, i: nat, entries: Entries, fields: map<Text, Json>)
    requires EntryValues(floats, entries, fields).Some? && At(s, i, EntriesText(entries))
    ensures i <= |s|
    ensures ParseDict(floats, s, i, fields)
            == Ok(EntryValues(floats, entries, fields).value, i + |EntriesText(entries)|)
    decreases entries, 4
  {
    hide At, ParseEntry, ParseDict, EntryText, EntryValue, Blank, AfterItem, SkipWs, IsWs;
    match entries
    case NoEntry(pad) =>
      AtSplit(s, i, pad, [CLOSE_BRACE]);
      AtByte(s, i + |pad|, [CLOSE_BRACE], 0);
      BlankStops(s, i, pad);
      NoMoreEntries(floats, s, i, fields);
    case LastEntry(entry) =>
      EntryParses(floats, s, i, entry, CLOSE_BRACE);
      var j := SkipWs(s, i);
      var (key, v) := EntryValue(floats, entry).value;
      AfterIs(s, ParseEntry(floats, s, j).end, CLOSE_BRACE);
      EntryRound(floats, s, i, j, key, v, ParseEntry(floats, s, j).end, fields);
    case MoreEntries(entry, rest) =>
      AtSplit(s, i, EntryText(entry) + [COMMA], EntriesText(rest));
      EntryParses(floats, s, i, entry, COMMA);
      var j := SkipWs(s, i);
      var (key, v) := EntryValue(floats, entry).value;
      AfterIs(s, ParseEntry(floats, s, j).end, CLOSE_BRACE);
      EntryRound(floats, s, i, j, key, v, ParseEntry(floats, s, j).end, fields);
      EntriesParse(floats, s, i + |EntryText(entry)| + 1, rest, fields[key := v]);
  }

  // ----- The law -----

  /** A literal with blanks around it is accepted with its value. */
  lemma LiteralIsAccepted(floats: Floats, before: seq<Byte>, l: Literal, after: seq<Byte>)
    requires Blank(before) && Blank(after) && Value(floats, l).Some?
    ensures var s := before + LiteralText(l) + after;
            Parse(floats, s) == Ok(Value(floats, l).value, |s|)
  {
    hide ParseValue, LiteralText, Value, Blank, At;
    var text := LiteralText(l);
    var s := before + text + after;
    WholeAt(s);
    AtSplit3(s, 0, before, text, after);
    LiteralOpens(floats, l);
    AtByte(s, |before|, text, 0);
    SkipBlank(s, 0, before);
    SkipBlank(s, |before + text|, after);
    EndStops(s, |before + text|, after);
    LiteralParses(floats, s, |before|, l);
  }

  lemma WholeAt(s: seq<Byte>)
    ensures At(s, 0, s)
  {
  }

  lemma EndStops(s: seq<Byte>, i: nat, blank: seq<Byte>)
    requires At(s, i, blank) && Blank(blank) && i + |blank| == |s|
    ensures Stops(s, i)
  {
    if blank != [] {
      AtByte(s, i, blank, 0);
    }
  }

  /** The text spells a literal of this value, with blanks around it. */
  ghost predicate Spells(floats: Floats, s: seq<Byte>, v: Json) {
    exists before, l, after ::
      s == before + LiteralText(l) + after && Blank(before) && Blank(after) && Value(floats, l) == Some(v)
  }

  /** The parser accepts exactly the literals, each with its value. */
  lemma AcceptsExactlyLiterals(floats: Floats, s: seq<Byte>, v: Json)
    ensures Parse(floats, s) == Ok(v, |s|) <==> Spells(floats, s, v)
  {
    hide LiteralText, Value, Blank, Parse;
    if Parse(floats, s) == Ok(v, |s|) {
      var before, l, after := AcceptedIsLiteral(floats, s);
    }
    if before, l, after :|
      s == before + LiteralText(l) + after && Blank(before) && Blank(after) && Value(floats, l) == Some(v) {
      LiteralIsAccepted(floats, before, l, after);
    }
  }
}
