/**
 Literals as trees of their tokens: the text a tree stands for, the value the parser gives it, and the
 value Python gives it (sections 2.4 and 6.2 of the Python Language Reference).
 */
module PyLiteral {
  import opened Wrappers
  import opened Utf8
  import opened PyRepr

  /** One character of a string literal: itself, or an escape of one letter or of hexadecimal digits. */
  datatype Piece = Raw(c: Scalar) | Simple(letter: Byte) | Hex(letter: Byte, digits: seq<Byte>)

  datatype Literal =
    | Word(text: seq<Byte>)
    | Numeral(text: seq<Byte>)
    | Quoted(quote: Byte, pieces: seq<Piece>)
    | Bracketed(open: Byte, items: Items)
    | Braced(entries: Entries)

  /** The items of a container and its end; blanks may stand around every token. */
  datatype Items =
    | NoItem(pad: seq<Byte>)
    | LastItem(before: seq<Byte>, lit: Literal, after: seq<Byte>)
    | MoreItems(before: seq<Byte>, lit: Literal, after: seq<Byte>, rest: Items)

  datatype Entry = Entry(before: seq<Byte>, key: Literal, colon: seq<Byte>, pad: seq<Byte>, lit: Literal, after: seq<Byte>)

  datatype Entries =
    | NoEntry(pad: seq<Byte>)
    | LastEntry(entry: Entry)
    | MoreEntries(entry: Entry, rest: Entries)

  // ----- Texts -----

  predicate Blank(text: seq<Byte>) {
    forall k :: 0 <= k < |text| ==> IsWs(text[k])
  }

  function CloseOf(open: Byte): Byte {
    if open == OPEN_BRACKET then CLOSE_BRACKET else CLOSE_PAREN
  }

  function PieceText(p: Piece): seq<Byte> {
    match p
    case Raw(c) => EncodeScalar(c)
    case Simple(letter) => [BACKSLASH, letter]
    case Hex(letter, digits) => [BACKSLASH, letter] + digits
  }

  function PiecesText(pieces: seq<Piece>): seq<Byte> {
    if pieces == [] then [] else PieceText(pieces[0]) + PiecesText(pieces[1..])
  }

  function LiteralText(l: Literal): seq<Byte> {
    match l
    case Word(text) => text
    case Numeral(text) => text
    case Quoted(quote, pieces) => [quote] + PiecesText(pieces) + [quote]
    case Bracketed(open, items) => [open] + ItemsText(items, CloseOf(open))
    case Braced(entries) => [OPEN_BRACE] + EntriesText(entries)
  }

  function ItemsText(items: Items, close: Byte): seq<Byte> {
    match items
    case NoItem(pad) => pad + [close]
    case LastItem(before, lit, after) => before + LiteralText(lit) + after + [close]
    case MoreItems(before, lit, after, rest) => before + LiteralText(lit) + after + [COMMA] + ItemsText(rest, close)
  }

  function EntryText(e: Entry): seq<Byte> {
    e.before + LiteralText(e.key) + e.colon + [COLON] + e.pad + LiteralText(e.lit) + e.after
  }

  function EntriesText(entries: Entries): seq<Byte> {
    match entries
    case NoEntry(pad) => pad + [CLOSE_BRACE]
    case LastEntry(entry) => EntryText(entry) + [CLOSE_BRACE]
    case MoreEntries(entry, rest) => EntryText(entry) + [COMMA] + EntriesText(rest)
  }

  // ----- The value the parser gives -----

  function WordValue(text: seq<Byte>): Option<Json> {
    if text == NONE then Some(Null)
    else if text == TRUE then Some(Bool(true))
    else if text == FALSE then Some(Bool(false))
    else None
  }

  predicate NumeralBytes(text: seq<Byte>) {
    text != [] && StartsNumber(text[0]) && forall k :: 0 <= k < |text| ==> IsNumberByte(text[k])
  }

  function NumeralValue(floats: Floats, text: seq<Byte>): Option<Json> {
    var plain := WithoutUnderscores(text);
    if !NumeralBytes(text) || EndsWithDots(plain) then None
    else
      match ReadNumber(floats, plain)
      case Some(n) => Some(Num(n))
      case None => None
  }

  function PieceValue(quote: Byte, p: Piece): Option<Scalar> {
    match p
    case Raw(c) => if c == quote as int || c == BACKSLASH as int then None else Some(c)
    case Simple(letter) => SimpleEscape(letter)
    case Hex(letter, digits) =>
      if SimpleEscape(letter).Some? || HexWidth(letter) != |digits| || digits == [] then None
      else
        match FromStrRadix16(digits)
        case Some(n) => if IsScalar(n) then Some(n) else None
        case None => None
  }

  function PiecesValue(quote: Byte, pieces: seq<Piece>): Option<Text> {
    if pieces == [] then Some([])
    else
      match (PieceValue(quote, pieces[0]), PiecesValue(quote, pieces[1..]))
      case (Some(c), Some(text)) => Some([c] + text)
      case _ => None
  }

  function Value(floats: Floats, l: Literal): Option<Json> {
    match l
    case Word(text) => WordValue(text)
    case Numeral(text) => NumeralValue(floats, text)
    case Quoted(quote, pieces) =>
      if quote != QUOTE && quote != DOUBLE_QUOTE then None
      else
        (match PiecesValue(quote, pieces)
         case Some(text) => Some(Str(text))
         case None => None)
    case Bracketed(open, items) =>
      if open != OPEN_BRACKET && open != OPEN_PAREN then None
      else
        (match ItemValues(floats, items)
         case Some(vs) => Some(Arr(vs))
         case None => None)
    case Braced(entries) =>
      match EntryValues(floats, entries, map[])
      case Some(fields) => Some(Obj(fields))
      case None => None
  }

  function ItemValues(floats: Floats, items: Items): Option<seq<Json>> {
    match items
    case NoItem(pad) => if Blank(pad) then Some([]) else None
    case LastItem(before, lit, after) =>
      if !Blank(before) || !Blank(after) then None
      else
        (match Value(floats, lit)
         case Some(v) => Some([v])
         case None => None)
    case MoreItems(before, lit, after, rest) =>
      if !Blank(before) || !Blank(after) then None
      else
        match (Value(floats, lit), ItemValues(floats, rest))
        case (Some(v), Some(vs)) => Some([v] + vs)
        case _ => None
  }

  function EntryValue(floats: Floats, e: Entry): Option<(Text, Json)> {
    if !Blank(e.before) || !Blank(e.colon) || !Blank(e.pad) || !Blank(e.after) then None
    else
      match (Value(floats, e.key), Value(floats, e.lit))
      case (Some(k), Some(v)) => (match KeyText(floats, k) case Some(key) => Some((key, v)) case None => None)
      case _ => None
  }

  function EntryValues(floats: Floats, entries: Entries, fields: map<Text, Json>): Option<map<Text, Json>> {
    match entries
    case NoEntry(pad) => if Blank(pad) then Some(fields) else None
    case LastEntry(entry) =>
      (match EntryValue(floats, entry)
       case Some((key, v)) => Some(fields[key := v])
       case None => None)
    case MoreEntries(entry, rest) =>
      match EntryValue(floats, entry)
      case Some((key, v)) => EntryValues(floats, rest, fields[key := v])
      case None => None
  }
}
