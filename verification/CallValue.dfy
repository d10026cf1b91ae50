/**
 Rebuilding the arguments of a recorded call for a retry (crates/api/src/routes/tasks.rs). The
 recorded value is JSON, or the repr that Celery put into the task event.
 */
module CallValue {
  import opened Utf8
  import opened PyRepr
  import opened PythonRepr
  import opened PyReprRoundTrip
  import opened PyReprRefusals

  datatype CallPart = Args | Kwargs

  datatype CallResult =
    | Rebuilt(value: Json)
    | CutShort
    | Unreadable(error: ParseError)
    | WrongShape

  /** Celery cuts reprs at this many characters. */
  const REPR_MAX := 1024

  function Encode(text: Text): (bytes: seq<Byte>) {
    if text == [] then [] else EncodeScalar(text[0]) + Encode(text[1..])
  }

  /** All of text but white space at its two ends. */
  ghost predicate IsTrimOf(trimmed: Text, text: Text) {
    exists i, j ::
      && 0 <= i <= j <= |text| && trimmed == text[i..j]
      && forall k :: 0 <= k < i || j <= k < |text| ==> IsWhitespace(text[k])
  }

  lemma SliceOfSlice(text: Text, i: nat, j: nat, a: nat, b: nat)
    requires i <= j <= |text| && a <= b <= j - i
    ensures text[i..j][a..b] == text[i + a..i + b]
  {
    var inner, slice := text[i..j], text[i + a..i + b];
    forall k | 0 <= k < b - a
      ensures inner[a..b][k] == slice[k]
    {
      assert inner[a..b][k] == inner[a + k] == text[i + (a + k)];
    }
    assert inner[a..b] == slice;
  }

  lemma TrimsMore(trimmed: Text, text: Text, i: nat, j: nat)
    requires i <= j <= |text| && IsTrimOf(trimmed, text[i..j])
    requires forall k :: 0 <= k < i || j <= k < |text| ==> IsWhitespace(text[k])
    ensures IsTrimOf(trimmed, text)
  {
    var inner := text[i..j];
    var a, b :| 0 <= a <= b <= |inner| && trimmed == inner[a..b]
                && forall k :: 0 <= k < a || b <= k < |inner| ==> IsWhitespace(inner[k]);
    SliceOfSlice(text, i, j, a, b);
    forall k | 0 <= k < i + a || i + b <= k < |text|
      ensures IsWhitespace(text[k])
    {
      if i <= k < j {
        assert inner[k - i] == text[k];
      }
    }
  }

  function Trim(text: Text): (trimmed: Text)
    ensures IsTrimOf(trimmed, text)
    ensures trimmed != [] ==> !IsWhitespace(trimmed[0]) && !IsWhitespace(trimmed[|trimmed| - 1])
    ensures text != [] && !IsWhitespace(text[0]) && !IsWhitespace(text[|text| - 1]) ==> trimmed == text
    decreases |text|
  {
    if text == [] then
      assert text[0..0] == [];
      []
    else if IsWhitespace(text[0]) then
      assert text[1..] == text[1..|text|];
      TrimsMore(Trim(text[1..]), text, 1, |text|);
      Trim(text[1..])
    else if IsWhitespace(text[|text| - 1]) then
      assert text[..|text| - 1] == text[0..|text| - 1];
      TrimsMore(Trim(text[..|text| - 1]), text, 0, |text| - 1);
      Trim(text[..|text| - 1])
    else
      assert text[0..|text|] == text;
      text
  }

  /** Three dots anywhere in the text. */
  predicate HasDots(text: Text) {
    exists k :: 0 <= k && k + 3 <= |text| && text[k] == text[k + 1] == text[k + 2] == 0x2E
  }

  function Shape(part: CallPart, value: Json): CallResult {
    if (part.Args? && value.Arr?) || (part.Kwargs? && value.Obj?) then Rebuilt(value) else WrongShape
  }

  function Nothing(part: CallPart): Json {
    match part
    case Args => Arr([])
    case Kwargs => Obj(map[])
  }

  function NormalizeCallValue(floats: Floats, value: Json, part: CallPart): CallResult {
    match value
    case Null => Rebuilt(Nothing(part))
    case Str(repr) =>
      var trimmed := Trim(repr);
      if trimmed == [] then Rebuilt(Nothing(part))
      else if |Encode(trimmed)| >= REPR_MAX - 4 && HasDots(trimmed) then CutShort
      else
        (match Parse(floats, Encode(trimmed))
         case Ok(parsed, _) => Shape(part, parsed)
         case Err(e) => Unreadable(e))
    case other => Shape(part, other)
  }

  // ----- Texts and their bytes -----

  lemma {:induction false} EncodeAppend(a: Text, b: Text)
    ensures Encode(a + b) == Encode(a) + Encode(b)
  {
    hide EncodeScalar;
    if a == [] {
      assert a + b == b;
    } else {
      assert (a + b)[1..] == a[1..] + b;
      EncodeAppend(a[1..], b);
    }
  }

  lemma EncodeOne(c: Scalar)
    ensures Encode([c]) == EncodeScalar(c)
  {
    hide EncodeScalar;
    assert [c][1..] == [];
    assert EncodeScalar(c) + [] == EncodeScalar(c);
  }

  /** A byte that stands for itself and is not white space. */
  predicate Solid(b: Byte) {
    b < 0x80 && !IsWhitespace(b)
  }

  /** A text whose bytes begin and end solid has nothing to trim. */
  lemma NothingToTrim(text: Text)
    requires Encode(text) != [] && Solid(Encode(text)[0]) && Solid(Encode(text)[|Encode(text)| - 1])
    ensures text != [] && Trim(text) == text
  {
    hide EncodeScalar, IsWhitespace;
    var n := |text| - 1;
    var first, last := text[0], text[n];
    EncodeHighBytes(first);
    EncodeHighBytes(last);
    assert text == text[..n] + [last];
    EncodeAppend(text[..n], [last]);
    EncodeOne(last);
    var bytes := EncodeScalar(last);
    assert Encode(text)[|Encode(text)| - 1] == bytes[|bytes| - 1];
    assert bytes[|bytes| - 1] in bytes;
    assert Encode(text)[0] == EncodeScalar(first)[0];
    assert EncodeScalar(first)[0] in EncodeScalar(first);
  }

  lemma SolidEnds(v: PyValue, floats: Floats, printable: Printable)
    requires Representable(v, floats)
    ensures var s := Repr(v, printable);
            s != [] && Solid(s[0]) && Solid(s[|s| - 1])
  {
    var s := Repr(v, printable);
    ReprHead(v, floats, printable);
    if v.PyFloat? {
      FloatBytes(v.literal);
    }
  }

  lemma FloatBytes(f: FloatLiteral)
    requires WellFormedFloat(f)
    ensures forall b :: b in ReprFloat(f) ==> Solid(b)
  {
  }

  // ----- What is rebuilt -----

  /** The text has `...` in it. */
  ghost predicate ContainsDots(text: Text) {
    exists before, after :: text == before + [0x2E, 0x2E, 0x2E] + after
  }

  lemma DotsAreContained(text: Text)
    ensures HasDots(text) <==> ContainsDots(text)
  {
    if HasDots(text) {
      var k :| 0 <= k && k + 3 <= |text| && text[k] == text[k + 1] == text[k + 2] == 0x2E;
      assert text == text[..k] + [0x2E, 0x2E, 0x2E] + text[k + 3..];
    }
    if before, after :| text == before + [0x2E, 0x2E, 0x2E] + after {
      var k := |before|;
      assert text[k] == text[k + 1] == text[k + 2] == 0x2E;
    }
  }

  /** Positional arguments are a list or a tuple, keyword arguments a dictionary. */
  ghost predicate Suits(part: CallPart, v: PyValue) {
    if part == Args then v.PyList? || v.PyTuple? else v.PyDict?
  }

  /**
   From the repr of a value that JSON can carry, the call is rebuilt exactly, or refused: as cut short
   exactly if it has 1020 bytes or more and three dots somewhere, and otherwise only if the value does
   not suit the part of the call.
   */
  lemma ReprIsRebuilt(floats: Floats, v: PyValue, printable: Printable, text: Text, part: CallPart)
    requires Representable(v, floats) && Encode(text) == Repr(v, printable)
    ensures NormalizeCallValue(floats, Str(text), part)
            == if |Repr(v, printable)| >= 1020 && ContainsDots(text) then CutShort
               else if Suits(part, v) then Rebuilt(ToJson(v, floats)) else WrongShape
  {
    hide Parse, Repr, ToJson, Representable, HasDots, Trim, Encode, Solid, ContainsDots;
    SolidEnds(v, floats, printable);
    NothingToTrim(text);
    RoundTrip(v, floats, printable);
    DotsAreContained(text);
    ShapeOfValue(floats, v);
  }

  lemma ShapeOfValue(floats: Floats, v: PyValue)
    requires Representable(v, floats)
    ensures ToJson(v, floats).Arr? <==> v.PyList? || v.PyTuple?
    ensures ToJson(v, floats).Obj? <==> v.PyDict?
  {
  }

  /** A list of arguments or a mapping of keyword arguments passes as it is; neither passes for the other. */
  lemma JsonPassesUnchanged(floats: Floats, items: seq<Json>, fields: map<Text, Json>)
    ensures NormalizeCallValue(floats, Arr(items), Args) == Rebuilt(Arr(items))
    ensures NormalizeCallValue(floats, Obj(fields), Kwargs) == Rebuilt(Obj(fields))
    ensures NormalizeCallValue(floats, Arr(items), Kwargs) == WrongShape
    ensures NormalizeCallValue(floats, Obj(fields), Args) == WrongShape
  {
  }

  /** Null, and a text of white space alone, stand for a call without arguments. */
  lemma NothingGiven(floats: Floats, blank: Text)
    requires forall k :: 0 <= k < |blank| ==> IsWhitespace(blank[k])
    ensures forall value :: value == Null || value == Str(blank) ==>
              && NormalizeCallValue(floats, value, Args) == Rebuilt(Arr([]))
              && NormalizeCallValue(floats, value, Kwargs) == Rebuilt(Obj(map[]))
  {
    var trimmed := Trim(blank);
    var i, j :| 0 <= i <= j <= |blank| && trimmed == blank[i..j]
                && forall k :: 0 <= k < i || j <= k < |blank| ==> IsWhitespace(blank[k]);
    assert trimmed == [];
  }

  predicate Ellipsis(text: Text) {
    |text| >= 3 && text[|text| - 3..] == [0x2E, 0x2E, 0x2E]
  }

  lemma {:induction false} TrimKeepsDots(text: Text)
    requires Ellipsis(text)
    ensures Ellipsis(Trim(text))
    decreases |text|
  {
    var n := |text|;
    assert text[n - 1] == text[n - 3..][2] == 0x2E && text[n - 3] == text[n - 3..][0] == 0x2E;
    if IsWhitespace(text[0]) {
      assert text[1..][n - 4..] == text[n - 3..];
      TrimKeepsDots(text[1..]);
    }
  }

  lemma DotsEncoded(text: Text)
    requires Ellipsis(text)
    ensures EndsWithDots(Encode(text))
  {
    hide EncodeScalar, Encode;
    var head, dots: Text := text[..|text| - 3], [0x2E, 0x2E, 0x2E];
    assert text == head + dots;
    EncodeAppend(head, dots);
    EncodeDots();
    assert (Encode(head) + DOTS)[|Encode(head)|..] == DOTS;
  }

  lemma EncodeDots()
    ensures Encode([0x2E, 0x2E, 0x2E]) == DOTS
  {
    hide Encode;
    var dot: Text := [0x2E];
    EncodeOne(0x2E);
    EncodeAppend(dot, dot);
    EncodeAppend(dot + dot, dot);
    assert dot + dot + dot == [0x2E, 0x2E, 0x2E];
  }

  /** A text that ends in three dots is never rebuilt, however short. */
  lemma CutTextIsRefused(floats: Floats, text: Text, part: CallPart)
    requires Ellipsis(text)
    ensures var r := NormalizeCallValue(floats, Str(text), part);
            r.CutShort? || r.Unreadable?
  {
    hide Parse, Trim, Encode, HasDots;
    TrimKeepsDots(text);
    DotsEncoded(Trim(text));
    TruncatedIsRefused(floats, Encode(Trim(text)));
  }
}
