/** Every accepted text is a literal: what the parser returns is the value of a tree that spells the text. */
module PyReprSound {
  import opened Wrappers
  import opened Utf8
  import opened PyRepr
  import opened PyLiteral

  lemma Slices(s: seq<Byte>, i: nat, j: nat, k: nat)
    requires i <= j <= k <= |s|
    ensures s[i..k] == s[i..j] + s[j..k]
  {
  }

  lemma Joined<T>(a: seq<T>, b: seq<T>, c: seq<T>)
    ensures a + (b + c) == a + b + c
  {
  }

  lemma SkipIsBlank(s: seq<Byte>, i: nat)
    requires i <= |s|
    ensures Blank(s[i..SkipWs(s, i)])
  {
  }

  // ----- Leaves -----

  lemma RawPiece(s: seq<Byte>, i: nat, quote: Byte) returns (p: Piece)
    requires i < |s| && s[i] != quote && s[i] != BACKSLASH && ParseRaw(s, i).Ok?
    requires quote == QUOTE || quote == DOUBLE_QUOTE
    ensures PieceText(p) == s[i..ParseRaw(s, i).end]
    ensures PieceValue(quote, p) == Some(ParseRaw(s, i).value)
  {
    var r := ParseRaw(s, i);
    p := Raw(r.value);
    EncodeDecode(s[i..r.end]);
    assert s[i..r.end][0] == s[i];
    EncodeHighBytes(r.value);
  }

  lemma EscapePiece(s: seq<Byte>, i: nat, quote: Byte) returns (p: Piece)
    requires i < |s| && s[i] == BACKSLASH && ParseEscape(s, i + 1).Ok?
    ensures PieceText(p) == s[i..ParseEscape(s, i + 1).end]
    ensures PieceValue(quote, p) == Some(ParseEscape(s, i + 1).value)
  {
    hide FromStrRadix16, SimpleEscape;
    var r := ParseEscape(s, i + 1);
    var letter := s[i + 1];
    if SimpleEscape(letter).Some? {
      p := Simple(letter);
      assert s[i..r.end] == [BACKSLASH, letter];
    } else {
      var digits := s[i + 2..r.end];
      p := Hex(letter, digits);
      assert s[i..r.end] == [BACKSLASH, letter] + digits;
    }
  }

  lemma {:induction false} StringPieces(s: seq<Byte>, i: nat, quote: Byte, out: Text) returns (pieces: seq<Piece>)
    requires i <= |s| && ParseString(s, i, quote, out).Ok?
    requires quote == QUOTE || quote == DOUBLE_QUOTE
    ensures s[i..ParseString(s, i, quote, out).end] == PiecesText(pieces) + [quote]
    ensures PiecesValue(quote, pieces).Some?
    ensures ParseString(s, i, quote, out).value == out + PiecesValue(quote, pieces).value
    decreases |s| - i
  {
    hide ParseEscape, ParseRaw, PieceText, PieceValue;
    var r := ParseString(s, i, quote, out);
    if s[i] == quote {
      pieces := [];
      assert s[i..r.end] == [quote];
    } else {
      var step := if s[i] == BACKSLASH then ParseEscape(s, i + 1) else ParseRaw(s, i);
      var p: Piece;
      if s[i] == BACKSLASH {
        p := EscapePiece(s, i, quote);
      } else {
        p := RawPiece(s, i, quote);
      }
      var rest := StringPieces(s, step.end, quote, out + [step.value]);
      pieces := [p] + rest;
      ConsPieces(quote, p, rest);
      Slices(s, i, step.end, r.end);
      Joined(PieceText(p), PiecesText(rest), [quote]);
      Joined(out, [step.value], PiecesValue(quote, rest).value);
    }
  }

  lemma ConsPieces(quote: Byte, p: Piece, rest: seq<Piece>)
    requires PieceValue(quote, p).Some? && PiecesValue(quote, rest).Some?
    ensures PiecesText([p] + rest) == PieceText(p) + PiecesText(rest)
    ensures PiecesValue(quote, [p] + rest) == Some([PieceValue(quote, p).value] + PiecesValue(quote, rest).value)
  {
    hide PieceText, PieceValue;
    assert ([p] + rest)[1..] == rest;
  }

  lemma NumberLiteral(floats: Floats, s: seq<Byte>, i: nat)
    requires i < |s| && StartsNumber(s[i]) && ParseNumber(floats, s, i).Ok?
    ensures var r := ParseNumber(floats, s, i);
            NumeralValue(floats, s[i..r.end]) == Some(r.value)
  {
    hide ReadNumber, WithoutUnderscores;
    assert s[i..ParseNumber(floats, s, i).end][0] == s[i];
  }

  lemma WordLiteral(s: seq<Byte>, i: nat)
    requires i <= |s| && ParseWord(s, i).Ok?
    ensures var r := ParseWord(s, i);
            WordValue(s[i..r.end]) == Some(r.value)
  {
    assert NONE[0] != TRUE[0] && NONE[0] != FALSE[0] && TRUE[0] != FALSE[0];
  }

  // ----- Values and containers -----

  lemma BracketTree(floats: Floats, s: seq<Byte>, j: nat, end: nat, items: Items)
    requires j < end <= |s| && (s[j] == OPEN_BRACKET || s[j] == OPEN_PAREN)
    requires ItemsText(items, CloseOf(s[j])) == s[j + 1..end] && ItemValues(floats, items).Some?
    ensures LiteralText(Bracketed(s[j], items)) == s[j..end]
    ensures Value(floats, Bracketed(s[j], items)) == Some(Arr(ItemValues(floats, items).value))
  {
    hide ItemsText, ItemValues;
    Slices(s, j, j + 1, end);
  }

  lemma BraceTree(floats: Floats, s: seq<Byte>, j: nat, end: nat, entries: Entries)
    requires j < end <= |s| && s[j] == OPEN_BRACE
    requires EntriesText(entries) == s[j + 1..end] && EntryValues(floats, entries, map[]).Some?
    ensures LiteralText(Braced(entries)) == s[j..end]
    ensures Value(floats, Braced(entries)) == Some(Obj(EntryValues(floats, entries, map[]).value))
  {
    hide EntriesText, EntryValues;
    Slices(s, j, j + 1, end);
  }

  lemma QuoteTree(floats: Floats, s: seq<Byte>, j: nat, end: nat, pieces: seq<Piece>)
    requires j < end <= |s| && (s[j] == QUOTE || s[j] == DOUBLE_QUOTE)
    requires PiecesText(pieces) + [s[j]] == s[j + 1..end] && PiecesValue(s[j], pieces).Some?
    ensures LiteralText(Quoted(s[j], pieces)) == s[j..end]
    ensures Value(floats, Quoted(s[j], pieces)) == Some(Str(PiecesValue(s[j], pieces).value))
  {
    hide PiecesText, PiecesValue;
    Slices(s, j, j + 1, end);
    Joined([s[j]], PiecesText(pieces), [s[j]]);
  }

  lemma LeafTree(floats: Floats, text: seq<Byte>)
    ensures LiteralText(Numeral(text)) == LiteralText(Word(text)) == text
    ensures Value(floats, Numeral(text)) == NumeralValue(floats, text) && Value(floats, Word(text)) == WordValue(text)
  {
  }

  lemma NothingBefore<T>(a: seq<T>)
    ensures [] + a == a
  {
  }

  /** The tree of an accepted value, from its first byte on. */
  lemma {:induction false} ValueLiteral(floats: Floats, s: seq<Byte>, i: nat) returns (l: Literal)
    requires i <= |s| && ParseValue(floats, s, i).Ok?
    ensures LiteralText(l) == s[SkipWs(s, i)..ParseValue(floats, s, i).end]
    ensures SkipWs(s, i) <= ParseValue(floats, s, i).end
    ensures Value(floats, l) == Some(ParseValue(floats, s, i).value)
    decreases |s| - i, 0
  {
    hide ParseNumber, ParseWord, ParseString, ParseItems, ParseDict, PiecesText, PiecesValue, NumeralValue, WordValue,
      ItemsText, EntriesText, ItemValues, EntryValues, SkipWs, LiteralText, Value;
    var j := SkipWs(s, i);
    var r := ParseValue(floats, s, i);
    if j < |s| && (s[j] == OPEN_BRACKET || s[j] == OPEN_PAREN) {
      var items := ItemsLiteral(floats, s, j + 1, CloseOf(s[j]), []);
      NothingBefore(ItemValues(floats, items).value);
      BracketTree(floats, s, j, r.end, items);
      l := Bracketed(s[j], items);
    } else if j < |s| && s[j] == OPEN_BRACE {
      var entries := EntriesLiteral(floats, s, j + 1, map[]);
      BraceTree(floats, s, j, r.end, entries);
      l := Braced(entries);
    } else if j < |s| && (s[j] == QUOTE || s[j] == DOUBLE_QUOTE) {
      var pieces := StringPieces(s, j + 1, s[j], []);
      NothingBefore(PiecesValue(s[j], pieces).value);
      QuoteTree(floats, s, j, r.end, pieces);
      l := Quoted(s[j], pieces);
    } else if j < |s| && StartsNumber(s[j]) {
      NumberLiteral(floats, s, j);
      LeafTree(floats, s[j..r.end]);
      l := Numeral(s[j..r.end]);
    } else {
      WordLiteral(s, j);
      LeafTree(floats, s[j..r.end]);
      l := Word(s[j..r.end]);
    }
  }

  /** What the item loop has seen of a separator. */
  lemma AfterBlank(s: seq<Byte>, i: nat, close: Byte)
    requires i <= |s| && close != COMMA
    ensures var j, sep := SkipWs(s, i), AfterItem(s, i, close);
            && (sep.More? ==> sep.next == j + 1 && s[j] == COMMA)
            && (sep.Closed? ==> sep.end == j + 1 && s[j] == close)
  {
  }

  /** What one round of the item loop has done, when the loop succeeds. */
  lemma LoopRound(floats: Floats, s: seq<Byte>, i: nat, close: Byte, out: seq<Json>)
    requires i <= |s| && ParseItems(floats, s, i, close, out).Ok? && close != COMMA
    ensures var j, r := SkipWs(s, i), ParseItems(floats, s, i, close, out);
            && j < |s|
            && (s[j] == close ==> r == Ok(out, j + 1))
            && (s[j] != close ==>
                  && ParseValue(floats, s, j).Ok?
                  && var v := ParseValue(floats, s, j);
                     var k := SkipWs(s, v.end);
                     && k < |s|
                     && ((s[k] == COMMA && r == ParseItems(floats, s, k + 1, close, out + [v.value]))
                         || (s[k] == close && r == Ok(out + [v.value], k + 1))))
  {
    hide ParseValue;
  }

  lemma NoItemTree(floats: Floats, s: seq<Byte>, i: nat, j: nat, close: Byte)
    requires i <= j < |s| && s[j] == close && Blank(s[i..j])
    ensures ItemsText(NoItem(s[i..j]), close) == s[i..j + 1]
    ensures ItemValues(floats, NoItem(s[i..j])) == Some([])
  {
    hide Blank;
    Slices(s, i, j, j + 1);
  }

  lemma LastItemTree(floats: Floats, s: seq<Byte>, i: nat, j: nat, end: nat, k: nat, lit: Literal, v: Json)
    requires i <= j <= end <= k < |s| && Blank(s[i..j]) && Blank(s[end..k])
    requires LiteralText(lit) == s[j..end] && Value(floats, lit) == Some(v)
    ensures var items := LastItem(s[i..j], lit, s[end..k]);
            ItemsText(items, s[k]) == s[i..k + 1] && ItemValues(floats, items) == Some([v])
  {
    hide Blank, LiteralText, Value;
    ItemSlices(s, i, j, end, k, s[k]);
  }

  lemma MoreItemsTree(floats: Floats, s: seq<Byte>, i: nat, j: nat, end: nat, k: nat, next: nat, close: Byte,
                      lit: Literal, v: Json, rest: Items)
    requires i <= j <= end <= k < next <= |s| && s[k] == COMMA && Blank(s[i..j]) && Blank(s[end..k])
    requires LiteralText(lit) == s[j..end] && Value(floats, lit) == Some(v)
    requires ItemsText(rest, close) == s[k + 1..next] && ItemValues(floats, rest).Some?
    ensures var items := MoreItems(s[i..j], lit, s[end..k], rest);
            ItemsText(items, close) == s[i..next] && ItemValues(floats, items) == Some([v] + ItemValues(floats, rest).value)
  {
    hide Blank, LiteralText, Value;
    ItemSlices(s, i, j, end, k, COMMA);
    Slices(s, i, k + 1, next);
  }

  lemma {:induction false} ItemsLiteral(floats: Floats, s: seq<Byte>, i: nat, close: Byte, out: seq<Json>)
    returns (items: Items)
    requires i <= |s| && ParseItems(floats, s, i, close, out).Ok? && close != COMMA
    ensures ItemsText(items, close) == s[i..ParseItems(floats, s, i, close, out).end]
    ensures ItemValues(floats, items).Some?
    ensures ParseItems(floats, s, i, close, out).value == out + ItemValues(floats, items).value
    decreases |s| - i, 1
  {
    hide ParseItems, ParseValue, LiteralText, Value, Blank, SkipWs, ItemsText, ItemValues;
    LoopRound(floats, s, i, close, out);
    var j := SkipWs(s, i);
    SkipIsBlank(s, i);
    if s[j] == close {
      items := NoItem(s[i..j]);
      NoItemTree(floats, s, i, j, close);
      NothingAfter(out);
    } else {
      var v := ParseValue(floats, s, j);
      var lit := ValueLiteral(floats, s, j);
      SkipTwice(s, i);
      var k := SkipWs(s, v.end);
      SkipIsBlank(s, v.end);
      if s[k] == COMMA {
        var more := out + [v.value];
        var rest := ItemsLiteral(floats, s, k + 1, close, more);
        items := MoreItems(s[i..j], lit, s[v.end..k], rest);
        MoreItemsTree(floats, s, i, j, v.end, k, ParseItems(floats, s, k + 1, close, more).end, close, lit, v.value, rest);
        Joined(out, [v.value], ItemValues(floats, rest).value);
      } else {
        items := LastItem(s[i..j], lit, s[v.end..k]);
        LastItemTree(floats, s, i, j, v.end, k, lit, v.value);
      }
    }
  }

  lemma NothingAfter<T>(a: seq<T>)
    ensures a + [] == a
  {
  }

  lemma ItemSlices(s: seq<Byte>, i: nat, j: nat, end: nat, k: nat, b: Byte)
    requires i <= j <= end <= k < |s| && s[k] == b
    ensures s[i..j] + s[j..end] + s[end..k] + [b] == s[i..k + 1]
  {
    Slices(s, i, j, end);
    Slices(s, i, end, k);
  }

  lemma SkipTwice(s: seq<Byte>, i: nat)
    requires i <= |s|
    ensures SkipWs(s, SkipWs(s, i)) == SkipWs(s, i)
  {
  }

  lemma {:induction false} EntryLiteral(floats: Floats, s: seq<Byte>, i: nat, j: nat, after: nat) returns (e: Entry)
    requires i <= |s| && j == SkipWs(s, i) && ParseEntry(floats, s, j).Ok?
    requires after == SkipWs(s, ParseEntry(floats, s, j).end)
    ensures EntryText(e) == s[i..after]
    ensures EntryValue(floats, e) == Some(ParseEntry(floats, s, j).value)
    decreases |s| - j, 1
  {
    hide ParseValue, LiteralText, Value, Blank, KeyText, SkipWs;
    var key := ParseValue(floats, s, j);
    var colon := SkipWs(s, key.end);
    var v := ParseValue(floats, s, colon + 1);
    var start := SkipWs(s, colon + 1);
    SkipTwice(s, i);
    var keyLit := ValueLiteral(floats, s, j);
    var lit := ValueLiteral(floats, s, colon + 1);
    SkipIsBlank(s, i);
    SkipIsBlank(s, key.end);
    SkipIsBlank(s, colon + 1);
    SkipIsBlank(s, v.end);
    e := Entry(s[i..j], keyLit, s[key.end..colon], s[colon + 1..start], lit, s[v.end..after]);
    EntrySlices(s, i, j, key.end, colon, start, v.end, after);
  }

  lemma EntrySlices(s: seq<Byte>, i: nat, j: nat, k: nat, colon: nat, start: nat, end: nat, after: nat)
    requires i <= j <= k <= colon < |s| && s[colon] == COLON && colon + 1 <= start <= end <= after <= |s|
    ensures s[i..j] + s[j..k] + s[k..colon] + [COLON] + s[colon + 1..start] + s[start..end] + s[end..after] == s[i..after]
  {
    Slices(s, i, j, k);
    Slices(s, i, k, colon);
    assert s[i..colon] + [COLON] == s[i..colon + 1];
    Slices(s, i, colon + 1, start);
    Slices(s, i, start, end);
    Slices(s, i, end, after);
  }

  lemma {:induction false} EntriesLiteral(floats: Floats, s: seq<Byte>, i: nat, fields: map<Text, Json>)
    returns (entries: Entries)
    requires i <= |s| && ParseDict(floats, s, i, fields).Ok?
    ensures EntriesText(entries) == s[i..ParseDict(floats, s, i, fields).end]
    ensures EntryValues(floats, entries, fields) == Some(ParseDict(floats, s, i, fields).value)
    decreases |s| - i, 2
  {
    hide ParseEntry, EntryText, EntryValue, AfterItem, Blank, SkipWs;
    var j := SkipWs(s, i);
    var r := ParseDict(floats, s, i, fields);
    SkipIsBlank(s, i);
    if j < |s| && s[j] == CLOSE_BRACE {
      entries := NoEntry(s[i..j]);
      Slices(s, i, j, j + 1);
    } else {
      var parsed := ParseEntry(floats, s, j);
      var after := SkipWs(s, parsed.end);
      var entry := EntryLiteral(floats, s, i, j, after);
      AfterBlank(s, parsed.end, CLOSE_BRACE);
      var fields' := fields[parsed.value.0 := parsed.value.1];
      var sep := AfterItem(s, parsed.end, CLOSE_BRACE);
      if sep.More? {
        var next := sep.next;
        var rest := EntriesLiteral(floats, s, next, fields');
        entries := MoreEntries(entry, rest);
        Slices(s, i, after, next);
        assert s[after..next] == [COMMA];
        Slices(s, i, next, r.end);
      } else {
        entries := LastEntry(entry);
        Slices(s, i, after, r.end);
        assert s[after..r.end] == [CLOSE_BRACE];
      }
    }
  }

  // ----- The law -----

  /** An accepted text is a literal with blanks around it, and the result is the literal's value. */
  lemma AcceptedIsLiteral(floats: Floats, s: seq<Byte>) returns (before: seq<Byte>, l: Literal, after: seq<Byte>)
    requires Parse(floats, s).Ok?
    ensures s == before + LiteralText(l) + after && Blank(before) && Blank(after)
    ensures Value(floats, l) == Some(Parse(floats, s).value)
  {
    hide ParseValue, LiteralText, Value, Blank;
    var i := SkipWs(s, 0);
    var end := ParseValue(floats, s, i).end;
    l := ValueLiteral(floats, s, i);
    SkipTwice(s, 0);
    before, after := s[0..i], s[end..|s|];
    SkipIsBlank(s, 0);
    SkipIsBlank(s, end);
    Slices(s, 0, i, end);
    Slices(s, 0, end, |s|);
    assert s[0..|s|] == s;
  }
}
