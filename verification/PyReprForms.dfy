/** Which accepted texts the parser reads as Python does, and one text of each form that it does not. */
module PyReprForms {
  import opened Wrappers
  import opened Utf8
  import opened Decimal
  import opened PyRepr
  import opened PyLiteral
  import opened PythonLiteral
  import opened PythonReading
  import opened PyReprSound
  import opened PyReprComplete

  /**
   An accepted text is a literal with the parser's value, perhaps between blanks. Python rejects it
   exactly if the literal is indented below a line break or has a rejected form. It reads the text to the
   same value if nothing of this kind and no listed form is there, and exactly if none is there that
   matters, unless a dictionary both repeats a key and has a listed string as a key.
   */
  lemma AcceptedReadsAsPython(floats: Floats, s: seq<Byte>) returns (before: seq<Byte>, l: Literal, after: seq<Byte>)
    requires ReadsDecimals(floats) && Parse(floats, s).Ok?
    ensures s == before + LiteralText(l) + after && Blank(before) && Blank(after)
    ensures Value(floats, l) == Some(Parse(floats, s).value)
    ensures PythonReads(floats, before, l) == None <==> Indented(before) || Rejected(l)
    ensures !Indented(before) && !Listed(l) ==> PythonReads(floats, before, l) == Some(Parse(floats, s).value)
    ensures KeysClear(floats, l) ==>
              (PythonReads(floats, before, l) == Some(Parse(floats, s).value) <==> !Indented(before) && !Misread(floats, l))
    ensures KeysDistinct(floats, l) ==>
              (PythonReads(floats, before, l) == Some(Parse(floats, s).value) <==> !Indented(before) && !Listed(l))
  {
    hide Parse, LiteralText, Value, PythonValue, Listed, Rejected, Misread, KeysClear, KeysDistinct, Blank, Indented;
    before, l, after := AcceptedIsLiteral(floats, s);
    ReadAsPythonExactly(floats, l);
  }

  /** A text of number bytes alone is accepted exactly if it is a number to the library once underscores are gone. */
  lemma NumeralIsAcceptedExactly(floats: Floats, text: seq<Byte>)
    requires NumeralBytes(text)
    ensures Parse(floats, text).Ok? <==> NumeralValue(floats, text).Some?
    ensures Parse(floats, text).Ok? ==> Parse(floats, text).value == NumeralValue(floats, text).value
  {
    hide NumeralValue, Parse, ParseNumber;
    WholeNumeral(floats, text);
    NumberRun(floats, text);
  }

  lemma WholeNumeral(floats: Floats, text: seq<Byte>)
    requires NumeralBytes(text)
    ensures ParseValue(floats, text, 0) == ParseNumber(floats, text, 0)
    ensures NumberEnd(text, 0) == |text|
    ensures Parse(floats, text).Ok? <==> ParseNumber(floats, text, 0).Ok?
    ensures Parse(floats, text).Ok? ==> Parse(floats, text).value == ParseNumber(floats, text, 0).value
  {
    hide ParseArray, ParseDict, ParseString, ParseWord;
    assert SkipWs(text, 0) == 0;
    RunsToEnd(text, 0);
  }

  lemma {:induction false} RunsToEnd(text: seq<Byte>, i: nat)
    requires i <= |text| && forall k :: 0 <= k < |text| ==> IsNumberByte(text[k])
    ensures NumberEnd(text, i) == |text|
    decreases |text| - i
  {
    if i < |text| {
      RunsToEnd(text, i + 1);
    }
  }

  lemma NumberRun(floats: Floats, text: seq<Byte>)
    requires NumeralBytes(text) && NumberEnd(text, 0) == |text|
    ensures ParseNumber(floats, text, 0).Ok? <==> NumeralValue(floats, text).Some?
    ensures ParseNumber(floats, text, 0).Ok? ==> ParseNumber(floats, text, 0).value == NumeralValue(floats, text).value
  {
    hide ReadNumber, WithoutUnderscores;
    assert text[0..|text|] == text;
  }

  // ----- One text of each listed form -----

  lemma Alone(floats: Floats, l: Literal)
    requires Value(floats, l).Some?
    ensures Parse(floats, LiteralText(l)) == Ok(Value(floats, l).value, |LiteralText(l)|)
  {
    hide Value, LiteralText, Parse;
    LiteralIsAccepted(floats, [], l, []);
    assert [] + LiteralText(l) + [] == LiteralText(l);
  }

  lemma TwoDigits(a: Byte, b: Byte)
    requires IsDigit(a) && IsDigit(b)
    ensures DigitsValue([a]) == a - 0x30 && DigitsValue([a, b]) == 10 * (a - 0x30) + (b - 0x30)
  {
    assert [a][..0] == [] && [a, b][..1] == [a];
  }

  lemma OneDigit(floats: Floats, digit: Byte)
    requires IsDigit(digit)
    ensures NumeralValue(floats, [digit]) == Some(Num(Int(digit - 0x30)))
  {
    TwoDigits(digit, digit);
    assert [digit][1..] == [];
    assert WithoutUnderscores([digit]) == [digit];
  }

  /** `07`, which Python rejects, is accepted as 7. */
  lemma LeadingZeroIsAccepted(floats: Floats)
    ensures Parse(floats, [0x30, 0x37]) == Ok(Num(Int(7)), 2) && ListedNumeral([0x30, 0x37])
  {
    hide Parse;
    var text: seq<Byte> := [0x30, 0x37];
    TwoDigits(0x30, 0x37);
    assert text[1..] == [0x37] && [0x37][1..] == [];
    assert WithoutUnderscores(text) == text;
    assert text[1] != 0x30;
    Alone(floats, Numeral(text));
  }

  lemma DropsUnderscore(text: seq<Byte>)
    requires text != [] && text[0] == UNDERSCORE
    ensures WithoutUnderscores(text) == WithoutUnderscores(text[1..])
  {
  }

  /** `1__`, which Python rejects, is accepted as 1. */
  lemma UnderscoresAreAccepted(floats: Floats)
    ensures Parse(floats, [0x31, UNDERSCORE, UNDERSCORE]) == Ok(Num(Int(1)), 3)
    ensures ListedNumeral([0x31, UNDERSCORE, UNDERSCORE])
  {
    hide Parse;
    var text: seq<Byte> := [0x31, UNDERSCORE, UNDERSCORE];
    TwoDigits(0x31, 0x31);
    var one: seq<Byte> := [0x31];
    var rest: seq<Byte> := [UNDERSCORE, UNDERSCORE];
    var last: seq<Byte> := [UNDERSCORE];
    assert text[1..] == rest && rest[1..] == last && last[1..] == [];
    DropsUnderscore(last);
    DropsUnderscore(rest);
    assert WithoutUnderscores(text) == one;
    assert one[1..] == [];
    assert text[2] == UNDERSCORE;
    Alone(floats, Numeral(text));
  }

  const NUL_ONE: Text := [0x00, 0x31]
  const ONE: Text := [0x01]

  /** `\01` is one character to Python, two to the parser. */
  lemma OctalTexts()
    ensures var octal := [Simple(0x30), Raw(0x31)];
            PiecesValue(QUOTE, octal) == Some(NUL_ONE) && PythonText(octal) == Some(ONE) && ListedPieces(octal)
  {
    var octal, last := [Simple(0x30), Raw(0x31)], [Raw(0x31)];
    var digit: Text := [0x31];
    assert octal[1..] == last && last[1..] == [];
    assert BehindFirst(octal) == [] && PythonText([]) == Some([]) && PythonPiece(octal[0], last) == Some(0x01);
    assert [ONE[0]] + [] == ONE;
    assert PythonText(octal) == Some(ONE);
    assert PieceValue(QUOTE, octal[0]) == Some(0x00) && [NUL_ONE[0]] + digit == NUL_ONE;
    assert PiecesValue(QUOTE, []) == Some([]) && [digit[0]] + [] == digit;
    assert PiecesValue(QUOTE, last) == Some(digit);
    assert PiecesValue(QUOTE, octal) == Some(NUL_ONE);
  }

  /** `'\01'`, the character U+0001 to Python, is accepted as U+0000 and `1`. */
  lemma OctalIsMisread(floats: Floats)
    ensures Parse(floats, [QUOTE, BACKSLASH, 0x30, 0x31, QUOTE]) == Ok(Str([0x00, 0x31]), 5)
    ensures PythonText([Simple(0x30), Raw(0x31)]) == Some([0x01])
  {
    hide Parse;
    var pieces, last := [Simple(0x30), Raw(0x31)], [Raw(0x31)];
    var bytes: seq<Byte> := [BACKSLASH, 0x30, 0x31];
    OctalTexts();
    assert pieces[1..] == last && last[1..] == [];
    assert PiecesText(last) == [0x31] && PiecesText(pieces) == bytes;
    var l := Quoted(QUOTE, pieces);
    Alone(floats, l);
    assert LiteralText(l) == [QUOTE, BACKSLASH, 0x30, 0x31, QUOTE];
  }

  /** A raw line break between quotes, which Python rejects, is accepted. */
  lemma RawLineBreakIsAccepted(floats: Floats)
    ensures Parse(floats, [QUOTE, 0x0A, QUOTE]) == Ok(Str([0x0A]), 3)
  {
    hide Parse;
    var pieces := [Raw(0x0A)];
    var text: Text := [0x0A];
    var bytes: seq<Byte> := [0x0A];
    assert pieces[1..] == [];
    assert PiecesText(pieces) == bytes && PiecesValue(QUOTE, pieces) == Some(text);
    var l := Quoted(QUOTE, pieces);
    Alone(floats, l);
    assert LiteralText(l) == [QUOTE, 0x0A, QUOTE];
  }

  /** `(1)`, the integer 1 to Python, is accepted as a list of it. */
  lemma ParenthesesMakeList(floats: Floats)
    ensures Parse(floats, [OPEN_PAREN, 0x31, CLOSE_PAREN]) == Ok(Arr([Num(Int(1))]), 3)
  {
    hide Parse, NumeralValue;
    OneDigit(floats, 0x31);
    var one := Numeral([0x31]);
    var items := LastItem([], one, []);
    var l := Bracketed(OPEN_PAREN, items);
    assert Value(floats, one) == Some(Num(Int(1)));
    assert ItemValues(floats, items) == Some([Num(Int(1))]);
    Alone(floats, l);
    assert LiteralText(l) == [OPEN_PAREN, 0x31, CLOSE_PAREN];
  }

  /** `{1:2}`, a dictionary with an integer key, is accepted as an object with the key text `1`. */
  lemma NumberKeyIsAccepted(floats: Floats)
    ensures Parse(floats, [OPEN_BRACE, 0x31, COLON, 0x32, CLOSE_BRACE]) == Ok(Obj(map[[0x31] := Num(Int(2))]), 5)
  {
    hide Parse, NumeralValue;
    OneDigit(floats, 0x31);
    OneDigit(floats, 0x32);
    assert ShowInt(1) == [0x31];
    var one, two := Numeral([0x31]), Numeral([0x32]);
    var entry := Entry([], one, [], [], two, []);
    var l := Braced(LastEntry(entry));
    var key: Text := [0x31];
    assert Value(floats, one) == Some(Num(Int(1))) && Value(floats, two) == Some(Num(Int(2)));
    assert EntryValue(floats, entry) == Some((key, Num(Int(2))));
    assert EntryValues(floats, LastEntry(entry), map[]) == Some(map[key := Num(Int(2))]);
    Alone(floats, l);
    assert LiteralText(l) == [OPEN_BRACE, 0x31, COLON, 0x32, CLOSE_BRACE];
  }

  /** A line break, a blank and `1`, an unexpected indent to Python, is accepted as 1. */
  lemma IndentIsAccepted(floats: Floats)
    ensures Parse(floats, [0x0A, SPACE, 0x31]) == Ok(Num(Int(1)), 3) && Indented([0x0A, SPACE])
  {
    hide Parse, NumeralValue;
    OneDigit(floats, 0x31);
    var before: seq<Byte> := [0x0A, SPACE];
    assert IsLineBreak(before[0]);
    LiteralIsAccepted(floats, before, Numeral([0x31]), []);
    assert before + [0x31] + [] == [0x0A, SPACE, 0x31];
  }

  // ----- Why keys must be clear -----

  function KeyEntry(pieces: seq<Piece>): Entry {
    Entry([], Quoted(QUOTE, pieces), [], [], Word(NONE), [])
  }

  /** `{'\x001':None,'\x01':None,'\01':None}`: the last key is U+0000 and `1` to the parser, U+0001 to Python. */
  function OctalLast(): Literal {
    Braced(MoreEntries(KeyEntry([Hex(0x78, [0x30, 0x30]), Raw(0x31)]),
                       MoreEntries(KeyEntry([Hex(0x78, [0x30, 0x31])]),
                                   LastEntry(KeyEntry([Simple(0x30), Raw(0x31)])))))
  }

  lemma KeyEntryReads(floats: Floats, pieces: seq<Piece>, key: Text, python: Text)
    requires PiecesValue(QUOTE, pieces) == Some(key) && PythonText(pieces) == Some(python)
    ensures EntryValue(floats, KeyEntry(pieces)) == Some((key, Null))
    ensures PythonEntry(floats, KeyEntry(pieces)) == Some((python, Null))
  {
    hide PiecesValue, PythonText;
    assert Value(floats, Word(NONE)) == Some(Null) && PythonValue(floats, Word(NONE)) == Some(Null);
    assert Value(floats, Quoted(QUOTE, pieces)) == Some(Str(key));
    assert PythonValue(floats, Quoted(QUOTE, pieces)) == Some(Str(python));
  }

  lemma NoPieces()
    ensures PiecesValue(QUOTE, []) == Some([]) && PythonText([]) == Some([])
  {
  }

  /** One more piece in front adds its character on both sides, if it is no octal escape. */
  lemma OneMorePiece(p: Piece, rest: seq<Piece>, c: Scalar, text: Text)
    requires PieceValue(QUOTE, p) == Some(c) && PythonPiece(p, rest) == Some(c) && p != Simple(0x30)
    requires PiecesValue(QUOTE, rest) == Some(text) && PythonText(rest) == Some(text)
    ensures PiecesValue(QUOTE, [p] + rest) == Some([c] + text) && PythonText([p] + rest) == Some([c] + text)
  {
    hide PieceValue, PythonPiece;
    assert ([p] + rest)[1..] == rest;
  }

  lemma HexPair(d: Byte)
    requires d == 0x30 || d == 0x31
    ensures PieceValue(QUOTE, Hex(0x78, [0x30, d])) == Some(d - 0x30)
    ensures forall rest :: PythonPiece(Hex(0x78, [0x30, d]), rest) == Some(d - 0x30)
  {
    var text: seq<Byte> := [0x30, d];
    assert text[..1] == [0x30] && [0x30][..0] == [];
    assert HexValue(text) == Some(d - 0x30);
  }

  lemma OctalKeyTexts()
    ensures var nulOne := [Hex(0x78, [0x30, 0x30]), Raw(0x31)];
            PiecesValue(QUOTE, nulOne) == Some(NUL_ONE) && PythonText(nulOne) == Some(NUL_ONE)
    ensures var one := [Hex(0x78, [0x30, 0x31])];
            PiecesValue(QUOTE, one) == Some(ONE) && PythonText(one) == Some(ONE)
    ensures var octal := [Simple(0x30), Raw(0x31)];
            PiecesValue(QUOTE, octal) == Some(NUL_ONE) && PythonText(octal) == Some(ONE)
  {
    hide PieceValue, PythonPiece, PiecesValue, PythonText;
    HexPair(0x30);
    HexPair(0x31);
    NoPieces();
    RawOne();
    var digit: Text := [0x31];
    var nul, one := Hex(0x78, [0x30, 0x30]), Hex(0x78, [0x30, 0x31]);
    OneMorePiece(Raw(0x31), [], 0x31, []);
    assert [Raw(0x31)] + [] == [Raw(0x31)] && [digit[0]] + [] == digit;
    OneMorePiece(nul, [Raw(0x31)], 0x00, digit);
    assert [nul] + [Raw(0x31)] == [nul, Raw(0x31)] && [NUL_ONE[0]] + digit == NUL_ONE;
    OneMorePiece(one, [], 0x01, []);
    assert [one] + [] == [one] && [ONE[0]] + [] == ONE;
    OctalTexts();
  }

  lemma RawOne()
    ensures PieceValue(QUOTE, Raw(0x31)) == Some(0x31) && forall rest :: PythonPiece(Raw(0x31), rest) == Some(0x31)
  {
  }

  /** Python reads all three keys, two of them as one, and ends up with the same object. */
  lemma OctalLastAgrees(floats: Floats)
    ensures Value(floats, OctalLast()).Some? && PythonValue(floats, OctalLast()) == Value(floats, OctalLast())
    ensures Misread(floats, OctalLast()) && !KeysClear(floats, OctalLast())
  {
    hide PiecesValue, PythonText, EntryValue, PythonEntry;
    var a, b := [Hex(0x78, [0x30, 0x30]), Raw(0x31)], [Hex(0x78, [0x30, 0x31])];
    var c := [Simple(0x30), Raw(0x31)];
    OctalKeyTexts();
    KeyEntryReads(floats, a, NUL_ONE, NUL_ONE);
    KeyEntryReads(floats, b, ONE, ONE);
    KeyEntryReads(floats, c, NUL_ONE, ONE);
    var last := LastEntry(KeyEntry(c));
    var rest := MoreEntries(KeyEntry(b), last);
    var entries := MoreEntries(KeyEntry(a), rest);
    assert OctalLast() == Braced(entries);
    var one, both := map[NUL_ONE := Null], map[NUL_ONE := Null, ONE := Null];
    assert both[NUL_ONE := Null] == both && both[ONE := Null] == both && one[ONE := Null] == both;
    assert EntryValues(floats, last, both) == Some(both) && PythonEntries(floats, last, both) == Some(both);
    assert EntryValues(floats, rest, one) == Some(both) && PythonEntries(floats, rest, one) == Some(both);
    assert EntryValues(floats, entries, map[]) == Some(both) && PythonEntries(floats, entries, map[]) == Some(both);
    OctalTexts();
    assert KeyOf(floats, KeyEntry(a)) == KeyOf(floats, KeyEntry(c)) == {NUL_ONE};
    assert ListedKeys(last) && ListedKeys(rest) && ListedKeys(entries);
    assert MisreadEntries(floats, last) && MisreadEntries(floats, rest) && MisreadEntries(floats, entries);
  }

  // ----- The bytes as characters -----

  /** Blanks, the bytes of numbers, those that start one, and those that keep a word going. */
  lemma BytesByCharacter(b: Byte)
    ensures IsWs(b) <==> b as char in " \t\n\r"
    ensures IsNumberByte(b) <==> b as char in "0123456789.eE+-_"
    ensures StartsNumber(b) <==> b as char in "0123456789.+-"
    ensures IsWordByte(b) <==> '0' <= b as char <= '9' || 'a' <= b as char <= 'z' || 'A' <= b as char <= 'Z' || b as char == '_'
  {
  }

  function Spelled(text: seq<Byte>): (s: string)
    ensures |s| == |text| && forall k :: 0 <= k < |text| ==> s[k] == text[k] as char
  {
    seq(|text|, k requires 0 <= k < |text| => text[k] as char)
  }

  lemma WordsByCharacter()
    ensures Spelled(NONE) == "None" && Spelled(TRUE) == "True" && Spelled(FALSE) == "False" && Spelled(DOTS) == "..."
    ensures Spelled([QUOTE, DOUBLE_QUOTE, BACKSLASH, COMMA, COLON, UNDERSCORE]) == "'\"\\,:_"
    ensures Spelled([OPEN_BRACKET, CLOSE_BRACKET, OPEN_PAREN, CLOSE_PAREN, OPEN_BRACE, CLOSE_BRACE]) == "[](){}"
  {
  }
}
