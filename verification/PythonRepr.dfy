/**
 Python's own side: the values `json` can serialise and the text `repr` gives them, following
 the string and bytes literals of section 2.4.1 of the Python Language Reference. The repr of a
 string depends on which characters outside ASCII count as printable; any choice is allowed here.
 */
module PythonRepr {
  import opened Wrappers
  import opened Utf8
  import opened Decimal
  import opened PyRepr

  /** The text of a finite float: digits, a fraction, and an exponent when there is one. */
  datatype FloatLiteral = FloatLiteral(negative: bool, whole: seq<Byte>, fraction: seq<Byte>, exponent: Exponent)
  datatype Exponent = NoExponent | Exponent(negative: bool, digits: seq<Byte>)

  datatype PyValue =
    | PyNone
    | PyBool(b: bool)
    | PyInt(i: int)
    | PyFloat(literal: FloatLiteral)
    | PyStr(text: Text)
    | PyList(items: seq<PyValue>)
    | PyTuple(items: seq<PyValue>)
    | PyDict(entries: seq<PyEntry>)

  datatype PyEntry = PyEntry(key: PyValue, value: PyValue)

  type Printable = Scalar -> bool

  // ----- Numbers -----

  predicate WellFormedFloat(f: FloatLiteral) {
    && f.whole != [] && AllDigits(f.whole) && AllDigits(f.fraction)
    && (f.exponent.Exponent? ==> f.exponent.digits != [] && AllDigits(f.exponent.digits))
    && (f.fraction != [] || f.exponent.Exponent?)
  }

  function ReprExponent(e: Exponent): seq<Byte> {
    match e
    case NoExponent => []
    case Exponent(negative, digits) => [0x65, if negative then MINUS else PLUS] + digits
  }

  function ReprFloat(f: FloatLiteral): seq<Byte> {
    (if f.negative then [MINUS] else []) + f.whole
    + (if f.fraction == [] then [] else [DOT] + f.fraction)
    + ReprExponent(f.exponent)
  }

  // ----- Strings -----

  function HexDigitOf(n: nat): (b: Byte)
    requires n < 16
    ensures HexDigit(b) == Some(n) && b != PLUS
  {
    if n < 10 then 0x30 + n else 0x61 + n - 10
  }

  function HexText(n: nat, width: nat): (text: seq<Byte>)
    ensures |text| == width
  {
    if width == 0 then [] else HexText(n / 16, width - 1) + [HexDigitOf(n % 16)]
  }

  function HexEscape(letter: Byte, c: Scalar): seq<Byte> {
    var n: nat := c;
    [BACKSLASH, letter] + HexText(n, HexWidth(letter))
  }

  function EscapeChar(c: Scalar, quote: Byte, printable: Printable): (bytes: seq<Byte>)
    ensures |bytes| > 0
  {
    if c == quote as int || c == BACKSLASH as int then var b: Byte := c; [BACKSLASH, b]
    else if c == 0x09 then [BACKSLASH, 0x74]
    else if c == 0x0A then [BACKSLASH, 0x6E]
    else if c == 0x0D then [BACKSLASH, 0x72]
    else if c < 0x20 || c == 0x7F then HexEscape(0x78, c)
    else if c < 0x7F || printable(c) then EncodeScalar(c)
    else if c <= 0xFF then HexEscape(0x78, c)
    else if c <= 0xFFFF then HexEscape(0x75, c)
    else HexEscape(0x55, c)
  }

  function EscapeText(text: Text, quote: Byte, printable: Printable): seq<Byte> {
    if text == [] then []
    else EscapeChar(text[0], quote, printable) + EscapeText(text[1..], quote, printable)
  }

  /** Single quotes, unless the text has single quotes and no double ones. */
  function QuoteFor(text: Text): (quote: Byte)
    ensures quote == QUOTE || quote == DOUBLE_QUOTE
  {
    var single: Scalar := QUOTE;
    var double: Scalar := DOUBLE_QUOTE;
    if single in text && double !in text then DOUBLE_QUOTE else QUOTE
  }

  function ReprStr(text: Text, printable: Printable): seq<Byte> {
    var quote := QuoteFor(text);
    [quote] + EscapeText(text, quote, printable) + [quote]
  }

  // ----- Containers -----

  function Repr(v: PyValue, printable: Printable): seq<Byte>
    decreases v, 0
  {
    match v
    case PyNone => NONE
    case PyBool(b) => if b then TRUE else FALSE
    case PyInt(i) => ShowInt(i)
    case PyFloat(f) => ReprFloat(f)
    case PyStr(text) => ReprStr(text, printable)
    case PyList(items) => [OPEN_BRACKET] + ReprItems(items, printable) + [CLOSE_BRACKET]
    case PyTuple(items) =>
      [OPEN_PAREN] + ReprItems(items, printable) + (if |items| == 1 then [COMMA] else []) + [CLOSE_PAREN]
    case PyDict(entries) => [OPEN_BRACE] + ReprEntries(entries, printable) + [CLOSE_BRACE]
  }

  function ReprItems(items: seq<PyValue>, printable: Printable): seq<Byte>
    decreases items, 1
  {
    if items == [] then []
    else if |items| == 1 then Repr(items[0], printable)
    else Repr(items[0], printable) + [COMMA, SPACE] + ReprItems(items[1..], printable)
  }

  function ReprEntry(entry: PyEntry, printable: Printable): seq<Byte>
    decreases entry, 0
  {
    Repr(entry.key, printable) + [COLON, SPACE] + Repr(entry.value, printable)
  }

  function ReprEntries(entries: seq<PyEntry>, printable: Printable): seq<Byte>
    decreases entries, 1
  {
    if entries == [] then []
    else if |entries| == 1 then ReprEntry(entries[0], printable)
    else ReprEntry(entries[0], printable) + [COMMA, SPACE] + ReprEntries(entries[1..], printable)
  }

  // ----- The JSON value a Python value stands for -----

  /** Integers fit 64 bits and floats are finite, so that JSON can carry them exactly. */
  predicate Representable(v: PyValue, floats: Floats)
    decreases v, 0
  {
    match v
    case PyInt(i) => IsI64(i)
    case PyFloat(f) => WellFormedFloat(f) && floats.read(ReprFloat(f)).Some?
    case PyList(items) => forall k :: 0 <= k < |items| ==> Representable(items[k], floats)
    case PyTuple(items) => forall k :: 0 <= k < |items| ==> Representable(items[k], floats)
    case PyDict(entries) => forall k :: 0 <= k < |entries| ==> RepresentableEntry(entries[k], floats)
    case _ => true
  }

  /** The keys that JSON has a text for are strings, integers and floats. */
  predicate RepresentableEntry(entry: PyEntry, floats: Floats)
    decreases entry, 0
  {
    && (entry.key.PyStr? || entry.key.PyInt? || entry.key.PyFloat?)
    && Representable(entry.key, floats) && Representable(entry.value, floats)
  }

  function ToJson(v: PyValue, floats: Floats): Json
    requires Representable(v, floats)
    decreases v, 0
  {
    match v
    case PyNone => Null
    case PyBool(b) => Bool(b)
    case PyInt(i) => Num(Int(i))
    case PyFloat(f) => Num(Float(floats.read(ReprFloat(f)).value))
    case PyStr(text) => Str(text)
    case PyList(items) => Arr(ToJsons(items, floats))
    case PyTuple(items) => Arr(ToJsons(items, floats))
    case PyDict(entries) => Obj(WithEntries(map[], entries, floats))
  }

  function ToJsons(items: seq<PyValue>, floats: Floats): (out: seq<Json>)
    requires forall k :: 0 <= k < |items| ==> Representable(items[k], floats)
    ensures |out| == |items|
    decreases items, 1
  {
    if items == [] then [] else [ToJson(items[0], floats)] + ToJsons(items[1..], floats)
  }

  /** The text of a key: a string's own, a number's as JSON writes it. */
  function EntryKey(entry: PyEntry, floats: Floats): Text
    requires RepresentableEntry(entry, floats)
  {
    assert Representable(entry.key, floats);
    match entry.key
    case PyStr(text) => text
    case PyInt(i) => ShowInt(i)
    case PyFloat(f) => floats.show(floats.read(ReprFloat(f)).value)
  }

  function EntryJson(entry: PyEntry, floats: Floats): Json
    requires RepresentableEntry(entry, floats)
    decreases entry, 0
  {
    ToJson(entry.value, floats)
  }

  function WithEntries(fields: map<Text, Json>, entries: seq<PyEntry>, floats: Floats): map<Text, Json>
    requires forall k :: 0 <= k < |entries| ==> RepresentableEntry(entries[k], floats)
    decreases entries, 1
  {
    if entries == [] then fields
    else
      var entry := entries[0];
      WithEntries(fields[EntryKey(entry, floats) := EntryJson(entry, floats)], entries[1..], floats)
  }
}
