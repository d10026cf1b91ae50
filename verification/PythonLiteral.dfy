/**
 Python's own reading of a literal, and the forms on which the parser reads differently. Numerals
 follow sections 2.4.4 to 2.4.6 of the Python Language Reference with an optional sign before them,
 strings section 2.4.1, containers sections 6.2.3 to 6.2.7.
 */
module PythonLiteral {
  import opened Wrappers
  import opened Utf8
  import opened Decimal
  import opened PyRepr
  import opened PyLiteral

  // ----- Numerals -----

  /** Every underscore stands between two digits. */
  predicate WellPlaced(text: seq<Byte>) {
    forall k :: 0 <= k < |text| && text[k] == UNDERSCORE ==>
      0 < k < |text| - 1 && IsDigit(text[k - 1]) && IsDigit(text[k + 1])
  }

  predicate Signed(text: seq<Byte>) {
    text != [] && (text[0] == MINUS || text[0] == PLUS)
  }

  function Unsigned(text: seq<Byte>): seq<Byte> {
    if Signed(text) then text[1..] else text
  }

  /** An optional sign and digits. */
  predicate IsInteger(text: seq<Byte>) {
    Unsigned(text) != [] && AllDigits(Unsigned(text))
  }

  function IntegerValue(text: seq<Byte>): int
    requires IsInteger(text)
  {
    var n: int := DigitsValue(Unsigned(text));
    if Signed(text) && text[0] == MINUS then -n else n
  }

  /** A zero before other digits, not all of them zeros. */
  predicate LeadingZero(digits: seq<Byte>) {
    digits != [] && digits[0] == 0x30 && exists k :: 0 <= k < |digits| && digits[k] != 0x30
  }

  predicate IsExponent(text: seq<Byte>) {
    |text| >= 2 && (text[0] == 0x65 || text[0] == 0x45) && IsInteger(text[1..])
  }

  /** Digits with a point among or beside them, or with an exponent, or both. */
  ghost predicate IsFloat(text: seq<Byte>) {
    exists whole, fraction, exponent ::
      && AllDigits(whole) && AllDigits(fraction) && whole + fraction != []
      && (exponent == [] || IsExponent(exponent))
      && (text == whole + [DOT] + fraction + exponent || (text == whole + exponent && fraction == [] && exponent != []))
  }

  /** The library reads finite numbers in the decimal grammar only. */
  ghost predicate ReadsDecimals(floats: Floats) {
    forall text :: floats.read(text).Some? ==> IsInteger(text) || IsFloat(Unsigned(text))
  }

  ghost function PythonNumber(floats: Floats, text: seq<Byte>): Option<Json> {
    var plain := WithoutUnderscores(text);
    if !WellPlaced(text) then None
    else if IsInteger(plain) then
      if LeadingZero(Unsigned(plain)) then None else Some(Num(Int(IntegerValue(plain))))
    else if IsFloat(Unsigned(plain)) then
      match floats.read(plain)
      case Some(f) => Some(Num(Float(f)))
      case None => None
    else None
  }

  /** A misplaced underscore, an integer with a leading zero, or an integer beyond 64 bits. */
  predicate ListedNumeral(text: seq<Byte>) {
    var plain := WithoutUnderscores(text);
    !WellPlaced(text) || (IsInteger(plain) && (LeadingZero(Unsigned(plain)) || !IsI64(IntegerValue(plain))))
  }

  /** An accepted numeral is read as Python reads it exactly if it is none of these. */
  lemma NumeralExactly(floats: Floats, text: seq<Byte>)
    requires ReadsDecimals(floats) && NumeralValue(floats, text).Some?
    ensures PythonNumber(floats, text) == NumeralValue(floats, text) <==> !ListedNumeral(text)
  {
    hide WithoutUnderscores, IsFloat, WellPlaced, LeadingZero;
    var plain := WithoutUnderscores(text);
    if IsInteger(plain) {
      assert ParseI64(plain) == if IsI64(IntegerValue(plain)) then Some(IntegerValue(plain)) else None;
    } else {
      assert ParseI64(plain) == None;
    }
  }

  // ----- Strings -----

  /** A raw line break or a NUL. */
  predicate ListedRaw(c: Scalar) {
    c == 0x0A || c == 0x0D || c == 0
  }

  predicate StartsOctal(pieces: seq<Piece>) {
    pieces != [] && pieces[0].Raw? && 0x30 <= pieces[0].c <= 0x37
  }

  /** A raw line break or NUL, `\0` before an octal digit, or digits that begin with a plus sign. */
  predicate ListedPiece(p: Piece, rest: seq<Piece>) {
    match p
    case Raw(c) => ListedRaw(c)
    case Simple(letter) => letter == 0x30 && StartsOctal(rest)
    case Hex(_, digits) => digits != [] && digits[0] == PLUS
  }

  predicate ListedPieces(pieces: seq<Piece>) {
    pieces != [] && (ListedPiece(pieces[0], pieces[1..]) || ListedPieces(pieces[1..]))
  }

  /** Up to two octal digits belong to the escape `\0` before them. */
  function OctalDigits(pieces: seq<Piece>): (n: nat)
    ensures n <= |pieces| && (n > 0 <==> StartsOctal(pieces))
  {
    if !StartsOctal(pieces) then 0 else if !StartsOctal(pieces[1..]) then 1 else 2
  }

  function OctalValue(pieces: seq<Piece>): Scalar {
    if !StartsOctal(pieces) then 0
    else
      var first := pieces[0].c - 0x30;
      if !StartsOctal(pieces[1..]) then first else 8 * first + pieces[1].c - 0x30
  }

  /** The escapes of one letter, but for octal digits. */
  const ESCAPES: map<char, char> := map[
    '\\' := '\\', '\'' := '\'', '"' := '"', 'n' := '\n', 't' := '\t', 'r' := '\r',
    'a' := 7 as char, 'b' := 8 as char, 'f' := 12 as char, 'v' := 11 as char]

  function PythonEscape(letter: Byte): (c: Option<Scalar>) {
    if letter < 0x80 && letter as char in ESCAPES then
      var code := ESCAPES[letter as char] as int;
      if IsScalar(code) then Some(code) else None
    else None
  }

  /** The parser knows these escapes, and `\0`, and no others. */
  lemma EscapesExactly(letter: Byte)
    ensures SimpleEscape(letter) == if letter as char == '0' then Some(0) else PythonEscape(letter)
  {
  }

  /** None where Python rejects the piece. */
  function PythonPiece(p: Piece, rest: seq<Piece>): Option<Scalar> {
    match p
    case Raw(c) => if ListedRaw(c) then None else Some(c)
    case Simple(letter) => if letter == 0x30 then Some(OctalValue(rest)) else PythonEscape(letter)
    case Hex(letter, digits) =>
      if HexWidth(letter) != |digits| || digits == [] then None
      else
        match HexValue(digits)
        case Some(n) => if IsScalar(n) then Some(n) else None
        case None => None
  }

  /** The pieces behind those that the first one takes. */
  function BehindFirst(pieces: seq<Piece>): (rest: seq<Piece>)
    requires pieces != []
    ensures |rest| < |pieces|
  {
    if pieces[0] == Simple(0x30) then pieces[1 + OctalDigits(pieces[1..])..] else pieces[1..]
  }

  function PythonText(pieces: seq<Piece>): Option<Text>
    decreases |pieces|
  {
    if pieces == [] then Some([])
    else
      match (PythonPiece(pieces[0], pieces[1..]), PythonText(BehindFirst(pieces)))
      case (Some(c), Some(text)) => Some([c] + text)
      case _ => None
  }

  lemma {:induction false} HexValueFirst(digits: seq<Byte>)
    requires digits != [] && digits[0] == PLUS
    ensures HexValue(digits) == None
  {
    if |digits| > 1 {
      HexValueFirst(digits[..|digits| - 1]);
    }
  }

  lemma PieceExactly(quote: Byte, p: Piece, rest: seq<Piece>)
    requires PieceValue(quote, p).Some?
    ensures !ListedPiece(p, rest) ==> PythonPiece(p, rest) == PieceValue(quote, p)
    ensures ListedPiece(p, rest) && !p.Simple? ==> PythonPiece(p, rest) == None
  {
    hide HexValue;
    if p.Simple? {
      EscapesExactly(p.letter);
    }
    if p.Hex? && p.digits[0] == PLUS {
      HexValueFirst(p.digits);
    }
  }

  /** To Python every character takes a piece or more. */
  lemma {:induction false} TextNoLonger(pieces: seq<Piece>)
    ensures PythonText(pieces).Some? ==> |PythonText(pieces).value| <= |pieces|
    decreases |pieces|
  {
    hide PythonPiece, BehindFirst;
    if pieces != [] {
      TextNoLonger(BehindFirst(pieces));
    }
  }

  lemma {:induction false} TextLength(quote: Byte, pieces: seq<Piece>)
    requires PiecesValue(quote, pieces).Some?
    ensures |PiecesValue(quote, pieces).value| == |pieces|
  {
    hide PieceValue;
    if pieces != [] {
      TextLength(quote, pieces[1..]);
    }
  }

  lemma FirstPiece(pieces: seq<Piece>)
    requires pieces != []
    ensures ListedPiece(pieces[0], pieces[1..]) && pieces[0].Simple? ==> |BehindFirst(pieces)| < |pieces| - 1
    ensures !ListedPiece(pieces[0], pieces[1..]) ==> BehindFirst(pieces) == pieces[1..]
  {
  }

  /** An accepted string is read as it is by Python exactly if no piece is listed; else it is rejected or shorter. */
  lemma {:induction false} TextExactly(quote: Byte, pieces: seq<Piece>)
    requires PiecesValue(quote, pieces).Some?
    ensures !ListedPieces(pieces) ==> PythonText(pieces) == PiecesValue(quote, pieces)
    ensures ListedPieces(pieces) && PythonText(pieces).Some? ==>
              |PythonText(pieces).value| < |PiecesValue(quote, pieces).value|
  {
    hide PieceValue, PythonPiece, ListedPiece, BehindFirst;
    TextLength(quote, pieces);
    if pieces != [] {
      FirstPiece(pieces);
      PieceExactly(quote, pieces[0], pieces[1..]);
      TextNoLonger(BehindFirst(pieces));
      TextExactly(quote, pieces[1..]);
      TextLength(quote, pieces[1..]);
    }
  }

  // ----- Literals -----

  /** What Python's value looks like in JSON; None where Python rejects the text or JSON has no such value. */
  ghost function PythonValue(floats: Floats, l: Literal): Option<Json> {
    match l
    case Word(text) => WordValue(text)
    case Numeral(text) => PythonNumber(floats, text)
    case Quoted(quote, pieces) =>
      (match PythonText(pieces)
       case Some(text) => Some(Str(text))
       case None => None)
    case Bracketed(open, items) =>
      if open == OPEN_PAREN && items.LastItem? then PythonValue(floats, items.lit)
      else
        (match PythonItems(floats, items)
         case Some(vs) => Some(Arr(vs))
         case None => None)
    case Braced(entries) =>
      match PythonEntries(floats, entries, map[])
      case Some(fields) => Some(Obj(fields))
      case None => None
  }

  ghost function PythonItems(floats: Floats, items: Items): Option<seq<Json>> {
    match items
    case NoItem(pad) => Some([])
    case LastItem(before, lit, after) =>
      (match PythonValue(floats, lit)
       case Some(v) => Some([v])
       case None => None)
    case MoreItems(before, lit, after, rest) =>
      match (PythonValue(floats, lit), PythonItems(floats, rest))
      case (Some(v), Some(vs)) => Some([v] + vs)
      case _ => None
  }

  /** A key that is no string has no place in JSON. */
  ghost function PythonEntry(floats: Floats, e: Entry): Option<(Text, Json)> {
    match (PythonValue(floats, e.key), PythonValue(floats, e.lit))
    case (Some(Str(key)), Some(v)) => Some((key, v))
    case _ => None
  }

  ghost function PythonEntries(floats: Floats, entries: Entries, fields: map<Text, Json>): Option<map<Text, Json>> {
    match entries
    case NoEntry(pad) => Some(fields)
    case LastEntry(entry) =>
      (match PythonEntry(floats, entry)
       case Some((key, v)) => Some(fields[key := v])
       case None => None)
    case MoreEntries(entry, rest) =>
      match PythonEntry(floats, entry)
      case Some((key, v)) => PythonEntries(floats, rest, fields[key := v])
      case None => None
  }

  // ----- Whole texts -----

  predicate IsLineBreak(b: Byte) {
    b == 0x0A || b == 0x0D
  }

  /** A line break before the literal and blanks on the literal's own line: an unexpected indent to Python. */
  predicate Indented(before: seq<Byte>) {
    before != [] && !IsLineBreak(before[|before| - 1]) && exists k :: 0 <= k < |before| && IsLineBreak(before[k])
  }

  /** Python's reading of a literal with blanks before it; blanks on its first line and behind it do not count. */
  ghost function PythonReads(floats: Floats, before: seq<Byte>, l: Literal): Option<Json> {
    if Indented(before) then None else PythonValue(floats, l)
  }

  // ----- The listed forms -----

  /**
   The forms that are read differently: numerals and characters as listed above, one value in
   parentheses without a comma, and a numeral as a key.
   */
  predicate Listed(l: Literal) {
    match l
    case Word(_) => false
    case Numeral(text) => ListedNumeral(text)
    case Quoted(_, pieces) => ListedPieces(pieces)
    case Bracketed(open, items) => (open == OPEN_PAREN && items.LastItem?) || ListedItems(items)
    case Braced(entries) => ListedEntries(entries)
  }

  predicate ListedItems(items: Items) {
    match items
    case NoItem(_) => false
    case LastItem(_, lit, _) => Listed(lit)
    case MoreItems(_, lit, _, rest) => Listed(lit) || ListedItems(rest)
  }

  predicate ListedEntry(e: Entry) {
    e.key.Numeral? || Listed(e.key) || Listed(e.lit)
  }

  predicate ListedEntries(entries: Entries) {
    match entries
    case NoEntry(_) => false
    case LastEntry(entry) => ListedEntry(entry)
    case MoreEntries(entry, rest) => ListedEntry(entry) || ListedEntries(rest)
  }

  // ----- Unlisted literals are read as Python reads them -----

  lemma {:induction false} UnlistedAgrees(floats: Floats, l: Literal)
    requires ReadsDecimals(floats) && Value(floats, l).Some? && !Listed(l)
    ensures PythonValue(floats, l) == Value(floats, l)
    decreases l, 0
  {
    hide PythonNumber, NumeralValue, ListedNumeral, WordValue, ReadsDecimals;
    match l
    case Word(_) =>
    case Numeral(text) => NumeralExactly(floats, text);
    case Quoted(quote, pieces) => TextExactly(quote, pieces);
    case Bracketed(_, items) => UnlistedItems(floats, items);
    case Braced(entries) => UnlistedEntries(floats, entries, map[]);
  }

  lemma {:induction false} UnlistedItems(floats: Floats, items: Items)
    requires ReadsDecimals(floats) && ItemValues(floats, items).Some? && !ListedItems(items)
    ensures PythonItems(floats, items) == ItemValues(floats, items)
    decreases items, 1
  {
    hide ReadsDecimals, Blank;
    match items
    case NoItem(_) =>
    case LastItem(_, lit, _) => UnlistedAgrees(floats, lit);
    case MoreItems(_, lit, _, rest) =>
      UnlistedAgrees(floats, lit);
      UnlistedItems(floats, rest);
  }

  lemma {:induction false} UnlistedEntry(floats: Floats, e: Entry)
    requires ReadsDecimals(floats) && EntryValue(floats, e).Some? && !ListedEntry(e)
    ensures PythonEntry(floats, e) == EntryValue(floats, e)
    decreases e, 0
  {
    hide ReadsDecimals, Blank;
    UnlistedAgrees(floats, e.key);
    UnlistedAgrees(floats, e.lit);
    KeyIsText(floats, e.key);
  }

  /** Of the trees whose value can be a key, only numerals and strings have such values. */
  lemma KeyIsText(floats: Floats, key: Literal)
    requires Value(floats, key).Some? && KeyText(floats, Value(floats, key).value).Some?
    ensures key.Numeral? || (key.Quoted? && Value(floats, key).value.Str?)
  {
  }

  lemma {:induction false} UnlistedEntries(floats: Floats, entries: Entries, fields: map<Text, Json>)
    requires ReadsDecimals(floats) && EntryValues(floats, entries, fields).Some? && !ListedEntries(entries)
    ensures PythonEntries(floats, entries, fields) == EntryValues(floats, entries, fields)
    decreases entries, 1
  {
    hide ReadsDecimals, Blank, EntryValue, PythonEntry, ListedEntry;
    match entries
    case NoEntry(_) =>
    case LastEntry(entry) => UnlistedEntry(floats, entry);
    case MoreEntries(entry, rest) =>
      UnlistedEntry(floats, entry);
      var (key, v) := EntryValue(floats, entry).value;
      UnlistedEntries(floats, rest, fields[key := v]);
  }
}
