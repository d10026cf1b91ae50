/**
 The parser of Python literal reprs: what one pass of the cursor over the bytes computes,
 and the cursor object itself.
 */
module PyRepr {
  import opened Wrappers
  import opened Utf8
  import opened Decimal

  /** A finite `f64`, known by its bit pattern. */
  type F64 = bits: int | 0 <= bits < 0x1_0000_0000_0000_0000

  datatype Number = Int(i: int) | Float(f: F64)

  /** A `serde_json::Value`. */
  datatype Json =
    | Null
    | Bool(b: bool)
    | Num(n: Number)
    | Str(text: Text)
    | Arr(items: seq<Json>)
    | Obj(fields: map<Text, Json>)

  /**
   The floating-point library: `read` is `str::parse::<f64>` followed by `Number::from_f64`
   (None for malformed text and for infinities), `show` is `Number::to_string`.
   */
  datatype Floats = Floats(read: seq<Byte> -> Option<F64>, show: F64 -> Text)

  datatype ParseError =
    | UnexpectedText(at: nat)
    | UnsupportedValue(first: Byte, at: nat)
    | UnexpectedEnd
    | ExpectedSeparator(close: Byte, at: nat)
    | UnsupportedKey
    | ExpectedColon(at: nat)
    | UnterminatedString
    | UnterminatedEscape
    | UnsupportedEscape(e: Byte)
    | InvalidUtf8
    | ShortEscape
    | BadEscape
    | InvalidCodePoint
    | Truncated
    | InvalidNumber(text: seq<Byte>)

  /** A value and the position just after it, or why there is none. */
  datatype Parsed<+T> = Ok(value: T, end: nat) | Err(error: ParseError)

  const SPACE: Byte := 0x20
  const DOUBLE_QUOTE: Byte := 0x22
  const QUOTE: Byte := 0x27
  const OPEN_PAREN: Byte := 0x28
  const CLOSE_PAREN: Byte := 0x29
  const COMMA: Byte := 0x2C
  const DOT: Byte := 0x2E
  const COLON: Byte := 0x3A
  const OPEN_BRACKET: Byte := 0x5B
  const BACKSLASH: Byte := 0x5C
  const CLOSE_BRACKET: Byte := 0x5D
  const UNDERSCORE: Byte := 0x5F
  const OPEN_BRACE: Byte := 0x7B
  const CLOSE_BRACE: Byte := 0x7D
  const NONE: seq<Byte> := [0x4E, 0x6F, 0x6E, 0x65]
  const TRUE: seq<Byte> := [0x54, 0x72, 0x75, 0x65]
  const FALSE: seq<Byte> := [0x46, 0x61, 0x6C, 0x73, 0x65]
  const DOTS: seq<Byte> := [DOT, DOT, DOT]

  // ----- Character classes -----

  predicate IsWs(b: Byte) {
    b == SPACE || b == 0x09 || b == 0x0A || b == 0x0D
  }

  predicate IsWordByte(b: Byte) {
    IsDigit(b) || 0x41 <= b <= 0x5A || 0x61 <= b <= 0x7A || b == UNDERSCORE
  }

  predicate IsNumberByte(b: Byte) {
    IsDigit(b) || b == MINUS || b == PLUS || b == DOT || b == 0x65 || b == 0x45 || b == UNDERSCORE
  }

  predicate StartsNumber(b: Byte) {
    b == MINUS || b == PLUS || IsDigit(b) || b == DOT
  }

  // ----- Scanning -----

  /** `t` stands in `s` at position `i`. */
  predicate At(s: seq<Byte>, i: nat, t: seq<Byte>) {
    i + |t| <= |s| && s[i..i + |t|] == t
  }

  function SkipWs(s: seq<Byte>, i: nat): (j: nat)
    requires i <= |s|
    ensures i <= j <= |s|
    ensures forall k :: i <= k < j ==> IsWs(s[k])
    ensures j < |s| ==> !IsWs(s[j])
    decreases |s| - i
  {
    if i < |s| && IsWs(s[i]) then SkipWs(s, i + 1) else i
  }

  predicate KeywordAt(s: seq<Byte>, i: nat, word: seq<Byte>) {
    At(s, i, word) && (i + |word| < |s| ==> !IsWordByte(s[i + |word|]))
  }

  /** The end of the longest run of number bytes from `i`. */
  function NumberEnd(s: seq<Byte>, i: nat): (j: nat)
    requires i <= |s|
    ensures i <= j <= |s|
    ensures forall k :: i <= k < j ==> IsNumberByte(s[k])
    ensures j < |s| ==> !IsNumberByte(s[j])
    decreases |s| - i
  {
    if i < |s| && IsNumberByte(s[i]) then NumberEnd(s, i + 1) else i
  }

  function WithoutUnderscores(text: seq<Byte>): seq<Byte> {
    if text == [] then []
    else if text[0] == UNDERSCORE then WithoutUnderscores(text[1..])
    else [text[0]] + WithoutUnderscores(text[1..])
  }

  predicate EndsWithDots(text: seq<Byte>) {
    |text| >= 3 && text[|text| - 3..] == DOTS
  }

  function ReadNumber(floats: Floats, text: seq<Byte>): Option<Number> {
    match ParseI64(text)
    case Some(i) => Some(Int(i))
    case None =>
      match floats.read(text)
      case Some(f) => Some(Float(f))
      case None => None
  }

  function ParseNumber(floats: Floats, s: seq<Byte>, i: nat): (r: Parsed<Json>)
    requires i < |s| && IsNumberByte(s[i])
    ensures r.Ok? ==> i < r.end <= |s|
  {
    var end := NumberEnd(s, i);
    var text := WithoutUnderscores(s[i..end]);
    if EndsWithDots(text) then Err(Truncated)
    else
      match ReadNumber(floats, text)
      case Some(n) => Ok(Num(n), end)
      case None => Err(InvalidNumber(text))
  }

  // ----- Strings -----

  function HexDigit(b: Byte): Option<nat> {
    if IsDigit(b) then Some(b - 0x30)
    else if 0x61 <= b <= 0x66 then Some(b - 0x61 + 10)
    else if 0x41 <= b <= 0x46 then Some(b - 0x41 + 10)
    else None
  }

  /** Base-16 value of a run of hexadecimal digits. */
  function HexValue(digits: seq<Byte>): Option<nat> {
    if digits == [] then Some(0)
    else
      match (HexValue(digits[..|digits| - 1]), HexDigit(digits[|digits| - 1]))
      case (Some(high), Some(low)) => Some(16 * high + low)
      case _ => None
  }

  /** `u32::from_str_radix(_, 16)` on at most eight bytes: a leading plus sign is allowed. */
  function FromStrRadix16(text: seq<Byte>): Option<nat> {
    var digits := if |text| > 1 && text[0] == PLUS then text[1..] else text;
    if digits == [] then None else HexValue(digits)
  }

  function HexChar(s: seq<Byte>, i: nat, n: nat): (r: Parsed<Scalar>)
    ensures r.Ok? ==> r.end == i + n <= |s|
  {
    if i + n > |s| then Err(ShortEscape)
    else
      match FromStrRadix16(s[i..i + n])
      case None => Err(BadEscape)
      case Some(code) =>
        if !IsScalar(code) then Err(InvalidCodePoint)
        else
          var c: Scalar := code;
          Ok(c, i + n)
  }

  /** The character a one-letter escape stands for. */
  function SimpleEscape(e: Byte): Option<Scalar> {
    if e == BACKSLASH || e == QUOTE || e == DOUBLE_QUOTE then Some(e)
    else if e == 0x6E then Some(0x0A)
    else if e == 0x74 then Some(0x09)
    else if e == 0x72 then Some(0x0D)
    else if e == 0x30 then Some(0x00)
    else if e == 0x61 then Some(0x07)
    else if e == 0x62 then Some(0x08)
    else if e == 0x66 then Some(0x0C)
    else if e == 0x76 then Some(0x0B)
    else None
  }

  /** Digits taken by a hexadecimal escape letter, or zero. */
  function HexWidth(e: Byte): nat {
    if e == 0x78 then 2 else if e == 0x75 then 4 else if e == 0x55 then 8 else 0
  }

  /** The escape whose letter is at `i`, just after a backslash. */
  function ParseEscape(s: seq<Byte>, i: nat): (r: Parsed<Scalar>)
    ensures r.Ok? ==> i < r.end <= |s|
  {
    if i >= |s| then Err(UnterminatedEscape)
    else
      match SimpleEscape(s[i])
      case Some(c) => Ok(c, i + 1)
      case None =>
        if HexWidth(s[i]) > 0 then HexChar(s, i + 1, HexWidth(s[i])) else Err(UnsupportedEscape(s[i]))
  }

  /** The UTF-8 sequence that starts at `i`. */
  function ParseRaw(s: seq<Byte>, i: nat): (r: Parsed<Scalar>)
    requires i < |s|
    ensures r.Ok? ==> i < r.end <= |s|
  {
    var end := i + SequenceLength(s[i]);
    if end > |s| then Err(InvalidUtf8)
    else
      match DecodeSlice(s[i..end])
      case Some(c) => Ok(c, end)
      case None => Err(InvalidUtf8)
  }

  /** The rest of a string literal opened by `quote`, after `out` has been collected. */
  function ParseString(s: seq<Byte>, i: nat, quote: Byte, out: Text): (r: Parsed<Text>)
    requires i <= |s|
    ensures r.Ok? ==> i < r.end <= |s| && s[r.end - 1] == quote
    decreases |s| - i
  {
    if i == |s| then Err(UnterminatedString)
    else if s[i] == quote then Ok(out, i + 1)
    else
      match if s[i] == BACKSLASH then ParseEscape(s, i + 1) else ParseRaw(s, i)
      case Ok(c, next) => ParseString(s, next, quote, out + [c])
      case Err(e) => Err(e)
  }

  // ----- Values -----

  function ParseWord(s: seq<Byte>, i: nat): (r: Parsed<Json>)
    requires i <= |s|
    ensures r.Ok? ==> i < r.end <= |s|
  {
    if KeywordAt(s, i, NONE) then Ok(Null, i + |NONE|)
    else if KeywordAt(s, i, TRUE) then Ok(Bool(true), i + |TRUE|)
    else if KeywordAt(s, i, FALSE) then Ok(Bool(false), i + |FALSE|)
    else if i < |s| then Err(UnsupportedValue(s[i], i))
    else Err(UnexpectedEnd)
  }

  function ParseValue(floats: Floats, s: seq<Byte>, i: nat): (r: Parsed<Json>)
    requires i <= |s|
    ensures r.Ok? ==> i < r.end <= |s|
    decreases |s| - i, 0
  {
    var i := SkipWs(s, i);
    if i == |s| then ParseWord(s, i)
    else if s[i] == OPEN_BRACKET then ParseArray(floats, s, i + 1, CLOSE_BRACKET)
    else if s[i] == OPEN_PAREN then ParseArray(floats, s, i + 1, CLOSE_PAREN)
    else if s[i] == OPEN_BRACE then
      match ParseDict(floats, s, i + 1, map[])
      case Ok(fields, end) => Ok(Obj(fields), end)
      case Err(e) => Err(e)
    else if s[i] == QUOTE || s[i] == DOUBLE_QUOTE then
      match ParseString(s, i + 1, s[i], [])
      case Ok(text, end) => Ok(Str(text), end)
      case Err(e) => Err(e)
    else if StartsNumber(s[i]) then ParseNumber(floats, s, i)
    else ParseWord(s, i)
  }

  function ParseArray(floats: Floats, s: seq<Byte>, i: nat, close: Byte): (r: Parsed<Json>)
    requires i <= |s|
    ensures r.Ok? ==> i < r.end <= |s|
    decreases |s| - i, 2
  {
    match ParseItems(floats, s, i, close, [])
    case Ok(items, end) => Ok(Arr(items), end)
    case Err(e) => Err(e)
  }

  /** What follows an item: a comma, the closing byte, or neither. */
  datatype Separator = More(next: nat) | Closed(end: nat) | Missing(at: nat)

  function AfterItem(s: seq<Byte>, i: nat, close: Byte): (r: Separator)
    requires i <= |s|
    ensures r.More? ==> i < r.next <= |s|
    ensures r.Closed? ==> i < r.end <= |s| && s[r.end - 1] == close
  {
    var i := SkipWs(s, i);
    if i < |s| && s[i] == COMMA then More(i + 1)
    else if i < |s| && s[i] == close then Closed(i + 1)
    else Missing(i)
  }

  /** Items and separators up to `close`, after `out` has been collected. */
  function ParseItems(floats: Floats, s: seq<Byte>, i: nat, close: Byte, out: seq<Json>): (r: Parsed<seq<Json>>)
    requires i <= |s|
    ensures r.Ok? ==> i < r.end <= |s| && s[r.end - 1] == close
    decreases |s| - i, 1
  {
    var i := SkipWs(s, i);
    if i < |s| && s[i] == close then Ok(out, i + 1)
    else
      match ParseValue(floats, s, i)
      case Err(e) => Err(e)
      case Ok(v, end) =>
        match AfterItem(s, end, close)
        case More(next) => ParseItems(floats, s, next, close, out + [v])
        case Closed(end) => Ok(out + [v], end)
        case Missing(at) => Err(ExpectedSeparator(close, at))
  }

  /** The text a parsed value gives when it stands as a dictionary key. */
  function KeyText(floats: Floats, key: Json): Option<Text> {
    match key
    case Str(text) => Some(text)
    case Num(Int(i)) => Some(ShowInt(i))
    case Num(Float(f)) => Some(floats.show(f))
    case _ => None
  }

  /** A key, a colon and a value. */
  function ParseEntry(floats: Floats, s: seq<Byte>, i: nat): (r: Parsed<(Text, Json)>)
    requires i <= |s|
    ensures r.Ok? ==> i < r.end <= |s|
    decreases |s| - i, 1
  {
    match ParseValue(floats, s, i)
    case Err(e) => Err(e)
    case Ok(keyValue, afterKey) =>
      match KeyText(floats, keyValue)
      case None => Err(UnsupportedKey)
      case Some(key) =>
        var i := SkipWs(s, afterKey);
        if i == |s| || s[i] != COLON then Err(ExpectedColon(i))
        else
          match ParseValue(floats, s, i + 1)
          case Err(e) => Err(e)
          case Ok(v, next) => Ok((key, v), next)
  }

  /** Entries up to the closing brace, after `fields` has been collected. */
  function ParseDict(floats: Floats, s: seq<Byte>, i: nat, fields: map<Text, Json>): (r: Parsed<map<Text, Json>>)
    requires i <= |s|
    ensures r.Ok? ==> i < r.end <= |s| && s[r.end - 1] == CLOSE_BRACE
    decreases |s| - i, 2
  {
    var i := SkipWs(s, i);
    if i < |s| && s[i] == CLOSE_BRACE then Ok(fields, i + 1)
    else
      match ParseEntry(floats, s, i)
      case Err(e) => Err(e)
      case Ok(entry, end) =>
        var fields' := fields[entry.0 := entry.1];
        match AfterItem(s, end, CLOSE_BRACE)
        case More(next) => ParseDict(floats, s, next, fields')
        case Closed(end) => Ok(fields', end)
        case Missing(at) => Err(ExpectedSeparator(CLOSE_BRACE, at))
  }

  /** One value, with nothing but blanks around it. */
  function Parse(floats: Floats, s: seq<Byte>): (r: Parsed<Json>)
    ensures r.Ok? ==> r.end == |s|
  {
    match ParseValue(floats, s, SkipWs(s, 0))
    case Err(e) => Err(e)
    case Ok(v, next) =>
      var end := SkipWs(s, next);
      if end == |s| then Ok(v, end) else Err(UnexpectedText(end))
  }
}
