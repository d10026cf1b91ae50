/** The cursor that walks the bytes, method by method, against the functions of `PyRepr`. */
module PyReprCursor {
  import opened Wrappers
  import opened Utf8
  import opened PyRepr

  datatype Result<+T> = Success(value: T) | Failure(error: ParseError)

  /** A method ended with `r` and its cursor at `i`, as `spec` foresees. */
  ghost predicate Meets<T>(r: Result<T>, i: nat, spec: Parsed<T>) {
    match spec
    case Ok(v, end) => r == Success(v) && i == end
    case Err(e) => r == Failure(e)
  }

  /** What the string loop does with one character. */
  lemma StringRound(s: seq<Byte>, i: nat, quote: Byte, out: Text)
    requires i < |s| && s[i] != quote
    ensures var step := if s[i] == BACKSLASH then ParseEscape(s, i + 1) else ParseRaw(s, i);
            && (step.Ok? ==> i < step.end <= |s|)
            && ParseString(s, i, quote, out)
               == match step case Ok(c, next) => ParseString(s, next, quote, out + [c]) case Err(e) => Err(e)
  {
    hide ParseEscape, ParseRaw;
  }

  lemma StringEnd(s: seq<Byte>, i: nat, quote: Byte, out: Text)
    requires i <= |s| && (i < |s| ==> s[i] == quote)
    ensures ParseString(s, i, quote, out) == if i == |s| then Err(UnterminatedString) else Ok(out, i + 1)
  {
  }

  class Parser {
    const floats: Floats
    const s: seq<Byte>
    var i: nat

    ghost predicate Valid()
      reads this
    {
      i <= |s|
    }

    constructor (floats: Floats, s: seq<Byte>)
      ensures Valid() && i == 0 && this.s == s && this.floats == floats
    {
      this.floats, this.s, this.i := floats, s, 0;
    }

    function Peek(): (b: Option<Byte>)
      requires Valid()
      reads this
      ensures b.Some? <==> i < |s|
      ensures b.Some? ==> b.value == s[i]
    {
      if i < |s| then Some(s[i]) else None
    }

    method Ws()
      requires Valid()
      modifies this`i
      ensures Valid() && i == SkipWs(s, old(i))
    {
      while Peek().Some? && IsWs(Peek().value)
        invariant Valid() && SkipWs(s, i) == SkipWs(s, old(i))
        decreases |s| - i
      {
        i := i + 1;
      }
    }

    method Eat(c: Byte) returns (ate: bool)
      requires Valid()
      modifies this`i
      ensures Valid()
      ensures ate == (old(i) < |s| && s[old(i)] == c)
      ensures i == if ate then old(i) + 1 else old(i)
    {
      ate := Peek() == Some(c);
      if ate {
        i := i + 1;
      }
    }

    method Keyword(word: seq<Byte>) returns (isWord: bool)
      requires Valid()
      modifies this`i
      ensures Valid()
      ensures isWord == KeywordAt(s, old(i), word)
      ensures i == if isWord then old(i) + |word| else old(i)
    {
      var end := i + |word|;
      isWord := end <= |s| && s[i..end] == word && !(end < |s| && IsWordByte(s[end]));
      if isWord {
        i := end;
      }
    }

    method Value() returns (r: Result<Json>)
      requires Valid()
      modifies this`i
      ensures Valid() && Meets(r, i, ParseValue(floats, s, old(i)))
      decreases |s| - i, 1
    {
      Ws();
      var next := Peek();
      if next == Some(OPEN_BRACKET) {
        i := i + 1;
        r := Array(CLOSE_BRACKET);
      } else if next == Some(OPEN_PAREN) {
        i := i + 1;
        r := Array(CLOSE_PAREN);
      } else if next == Some(OPEN_BRACE) {
        r := Dict();
      } else if next == Some(QUOTE) || next == Some(DOUBLE_QUOTE) {
        var text := String();
        r := match text case Success(t) => Success(Str(t)) case Failure(e) => Failure(e);
      } else if next.Some? && StartsNumber(next.value) {
        r := Numeral();
      } else {
        r := Word();
      }
    }

    /** The keyword arms of `value`, in their order, and its two error arms. */
    method Word() returns (r: Result<Json>)
      requires Valid()
      modifies this`i
      ensures Valid() && Meets(r, i, ParseWord(s, old(i)))
    {
      var isWord := Keyword(NONE);
      if isWord {
        return Success(Null);
      }
      isWord := Keyword(TRUE);
      if isWord {
        return Success(Bool(true));
      }
      isWord := Keyword(FALSE);
      if isWord {
        return Success(Bool(false));
      }
      match Peek()
      case Some(c) => r := Failure(UnsupportedValue(c, i));
      case None => r := Failure(UnexpectedEnd);
    }

    method Array(close: Byte) returns (r: Result<Json>)
      requires Valid()
      modifies this`i
      ensures Valid() && Meets(r, i, ParseArray(floats, s, old(i), close))
      decreases |s| - i, 3
    {
      var items := Items(close);
      r := match items case Success(out) => Success(Arr(out)) case Failure(e) => Failure(e);
    }

    /** The end of a round of either container loop: blanks, then a comma or the closing byte. */
    method Separate(close: Byte) returns (more: bool, closed: bool)
      requires Valid()
      modifies this`i
      ensures Valid()
      ensures match AfterItem(s, old(i), close)
              case More(next) => more && i == next
              case Closed(end) => !more && closed && i == end
              case Missing(at) => !more && !closed && i == at
    {
      Ws();
      more := Eat(COMMA);
      closed := false;
      if !more {
        closed := Eat(close);
      }
    }

    method Items(close: Byte) returns (r: Result<seq<Json>>)
      requires Valid()
      modifies this`i
      ensures Valid() && Meets(r, i, ParseItems(floats, s, old(i), close, []))
      decreases |s| - i, 2
    {
      var out: seq<Json> := [];
      while true
        invariant Valid() && old(i) <= i
        invariant ParseItems(floats, s, i, close, out) == ParseItems(floats, s, old(i), close, [])
        decreases |s| - i
      {
        Ws();
        var closed := Eat(close);
        if closed {
          return Success(out);
        }
        var item := Value();
        if item.Failure? {
          return Failure(item.error);
        }
        out := out + [item.value];
        var more;
        more, closed := Separate(close);
        if more {
          continue;
        }
        return if closed then Success(out) else Failure(ExpectedSeparator(close, i));
      }
    }

    method Dict() returns (r: Result<Json>)
      requires Valid() && i < |s|
      modifies this`i
      ensures Valid()
      ensures match ParseDict(floats, s, old(i) + 1, map[])
              case Ok(fields, end) => r == Success(Obj(fields)) && i == end
              case Err(e) => r == Failure(e)
      decreases |s| - i, 0
    {
      i := i + 1;
      var fields: map<Text, Json> := map[];
      while true
        invariant Valid() && old(i) < i
        invariant ParseDict(floats, s, i, fields) == ParseDict(floats, s, old(i) + 1, map[])
        decreases |s| - i
      {
        Ws();
        var closed := Eat(CLOSE_BRACE);
        if closed {
          return Success(Obj(fields));
        }
        var entry := Entry();
        if entry.Failure? {
          return Failure(entry.error);
        }
        fields := fields[entry.value.0 := entry.value.1];
        var more;
        more, closed := Separate(CLOSE_BRACE);
        if more {
          continue;
        }
        return if closed then Success(Obj(fields)) else Failure(ExpectedSeparator(CLOSE_BRACE, i));
      }
    }

    /** The part of the dictionary loop that reads one key, its colon and its value. */
    method Entry() returns (r: Result<(Text, Json)>)
      requires Valid()
      modifies this`i
      ensures Valid() && Meets(r, i, ParseEntry(floats, s, old(i)))
      decreases |s| - i, 2
    {
      var keyValue := Value();
      if keyValue.Failure? {
        return Failure(keyValue.error);
      }
      var key := KeyText(floats, keyValue.value);
      if key == None {
        return Failure(UnsupportedKey);
      }
      Ws();
      var colon := Eat(COLON);
      if !colon {
        return Failure(ExpectedColon(i));
      }
      var v := Value();
      r := match v case Success(v) => Success((key.value, v)) case Failure(e) => Failure(e);
    }

    method String() returns (r: Result<Text>)
      requires Valid() && i < |s|
      modifies this`i
      ensures Valid() && Meets(r, i, ParseString(s, old(i) + 1, s[old(i)], []))
    {
      hide ParseString, ParseEscape, ParseRaw;
      var quote := s[i];
      i := i + 1;
      var out: Text := [];
      while true
        invariant Valid() && old(i) < i
        invariant ParseString(s, i, quote, out) == ParseString(s, old(i) + 1, quote, [])
        decreases |s| - i
      {
        if i == |s| {
          StringEnd(s, i, quote, out);
          return Failure(UnterminatedString);
        }
        var c := s[i];
        i := i + 1;
        if c == quote {
          StringEnd(s, i - 1, quote, out);
          return Success(out);
        }
        StringRound(s, i - 1, quote, out);
        var next;
        if c != BACKSLASH {
          next := Raw(c);
        } else {
          next := Escape();
        }
        if next.Failure? {
          return Failure(next.error);
        }
        out := out + [next.value];
      }
    }

    /** Copies a whole UTF-8 sequence whose first byte `c` was just taken. */
    method Raw(c: Byte) returns (r: Result<Scalar>)
      requires Valid() && 0 < i && s[i - 1] == c
      modifies this`i
      ensures Valid() && Meets(r, i, ParseRaw(s, old(i) - 1))
    {
      var start := i - 1;
      var len := SequenceLength(c);
      if start + len > |s| {
        return Failure(InvalidUtf8);
      }
      var decoded := DecodeSlice(s[start..start + len]);
      if decoded == None {
        return Failure(InvalidUtf8);
      }
      i := start + len;
      r := Success(decoded.value);
    }

    /** The escape match of `string`, after the backslash. */
    method Escape() returns (r: Result<Scalar>)
      requires Valid()
      modifies this`i
      ensures Valid() && Meets(r, i, ParseEscape(s, old(i)))
    {
      if i == |s| {
        return Failure(UnterminatedEscape);
      }
      var e := s[i];
      i := i + 1;
      match SimpleEscape(e)
      case Some(c) =>
        r := Success(c);
      case None =>
        if HexWidth(e) > 0 {
          r := Hex(HexWidth(e));
        } else {
          r := Failure(UnsupportedEscape(e));
        }
    }

    method Hex(n: nat) returns (r: Result<Scalar>)
      requires Valid()
      modifies this`i
      ensures Valid() && Meets(r, i, HexChar(s, old(i), n))
    {
      if i + n > |s| {
        return Failure(ShortEscape);
      }
      var hex := s[i..i + n];
      i := i + n;
      match FromStrRadix16(hex)
      case None => r := Failure(BadEscape);
      case Some(code) =>
        if IsScalar(code) {
          r := Success(code);
        } else {
          r := Failure(InvalidCodePoint);
        }
    }

    method Numeral() returns (r: Result<Json>)
      requires Valid() && i < |s| && StartsNumber(s[i])
      modifies this`i
      ensures Valid() && Meets(r, i, ParseNumber(floats, s, old(i)))
    {
      var start := i;
      while Peek().Some? && IsNumberByte(Peek().value)
        invariant Valid() && start <= i && NumberEnd(s, i) == NumberEnd(s, start)
        decreases |s| - i
      {
        i := i + 1;
      }
      var text := WithoutUnderscores(s[start..i]);
      if EndsWithDots(text) {
        return Failure(Truncated);
      }
      match ReadNumber(floats, text)
      case Some(n) => r := Success(Num(n));
      case None => r := Failure(InvalidNumber(text));
    }
  }

  /** The entry point: the whole text is one value. */
  method ParseText(floats: Floats, s: seq<Byte>) returns (r: Result<Json>)
    ensures Meets(r, |s|, Parse(floats, s))
  {
    var p := new Parser(floats, s);
    p.Ws();
    r := p.Value();
    if r.Failure? {
      return;
    }
    p.Ws();
    if p.i != |p.s| {
      r := Failure(UnexpectedText(p.i));
    }
  }
}
