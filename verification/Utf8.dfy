/**
 Bytes, Unicode scalar values, and the UTF-8 form of section 3 of RFC 3629.
 Rust's `char` is a scalar value; `std::str::from_utf8` accepts exactly this form.
 */
module Utf8 {
  import opened Wrappers

  type Byte = b: int | 0 <= b < 0x100

  predicate IsScalar(c: int) {
    0 <= c < 0xD800 || 0xE000 <= c < 0x11_0000
  }

  type Scalar = c: int | 0 <= c < 0xD800 || 0xE000 <= c < 0x11_0000

  type Text = seq<Scalar>

  /** The code points with the Unicode property White_Space (`char::is_whitespace`). */
  predicate IsWhitespace(c: int) {
    || 0x09 <= c <= 0x0D || c == 0x20 || c == 0x85 || c == 0xA0 || c == 0x1680 || 0x2000 <= c <= 0x200A
    || c == 0x2028 || c == 0x2029 || c == 0x202F || c == 0x205F || c == 0x3000
  }

  /** One continuation byte carrying the low six bits of `bits`. */
  function Tail(bits: nat): (b: Byte)
    ensures IsContinuation(b) && (b as int - 0x80) == bits % 0x40
  {
    0x80 + bits % 0x40
  }

  function EncodeScalar(c: Scalar): (bytes: seq<Byte>)
    ensures 1 <= |bytes| <= 4
  {
    var bits: nat := c;
    if bits < 0x80 then
      var b0: Byte := bits;
      [b0]
    else if bits < 0x800 then
      var b0: Byte := 0xC0 + bits / 0x40;
      [b0, Tail(bits)]
    else if bits < 0x1_0000 then
      var b0: Byte := 0xE0 + bits / 0x1000;
      [b0, Tail(bits / 0x40), Tail(bits)]
    else
      var b0: Byte := 0xF0 + bits / 0x4_0000;
      [b0, Tail(bits / 0x1000), Tail(bits / 0x40), Tail(bits)]
  }

  /** The number of bytes the parser copies for a sequence that starts with `first`. */
  function SequenceLength(first: Byte): (n: nat)
    ensures 1 <= n <= 4
  {
    if 0xF0 <= first <= 0xF7 then 4
    else if 0xE0 <= first <= 0xEF then 3
    else if 0xC0 <= first <= 0xDF then 2
    else 1
  }

  predicate IsContinuation(b: Byte) {
    0x80 <= b < 0xC0
  }

  /** The six payload bits of a continuation byte. */
  function Low(b: Byte): int {
    b as int - 0x80
  }

  /** The value the payload bits of a one-to-four byte sequence add up to. */
  function Payload(bytes: seq<Byte>): int
    requires 1 <= |bytes| <= 4
  {
    var b0: int := bytes[0];
    if |bytes| == 1 then b0
    else if |bytes| == 2 then (b0 - 0xC0) * 0x40 + Low(bytes[1])
    else if |bytes| == 3 then (b0 - 0xE0) * 0x1000 + Low(bytes[1]) * 0x40 + Low(bytes[2])
    else (b0 - 0xF0) * 0x4_0000 + Low(bytes[1]) * 0x1000 + Low(bytes[2]) * 0x40 + Low(bytes[3])
  }

  /** The smallest value that needs `n` bytes; anything below it in that form is overlong. */
  function LeastOfLength(n: nat): nat
    requires 1 <= n <= 4
  {
    if n == 1 then 0 else if n == 2 then 0x80 else if n == 3 then 0x800 else 0x1_0000
  }

  predicate Framed(bytes: seq<Byte>) {
    && |bytes| > 0
    && |bytes| == SequenceLength(bytes[0])
    && (|bytes| == 1 ==> bytes[0] < 0x80)
    && (|bytes| > 1 ==> IsContinuation(bytes[1]))
    && (|bytes| > 2 ==> IsContinuation(bytes[2]))
    && (|bytes| > 3 ==> IsContinuation(bytes[3]))
  }

  /**
   Validates and decodes a slice cut to the length its first byte announces:
   continuation bytes in place, no overlong form, no surrogate, nothing past U+10FFFF.
   */
  function DecodeSlice(bytes: seq<Byte>): Option<Scalar> {
    if Framed(bytes) && Payload(bytes) >= LeastOfLength(|bytes|) && IsScalar(Payload(bytes)) then
      var c: Scalar := Payload(bytes);
      Some(c)
    else
      None
  }

  /** Decoding undoes encoding, and the first byte announces the length. */
  lemma DecodeEncode(c: Scalar)
    ensures |EncodeScalar(c)| == SequenceLength(EncodeScalar(c)[0])
    ensures DecodeSlice(EncodeScalar(c)) == Some(c)
  {
    Radix64(c);
    assert Payload(EncodeScalar(c)) == c;
  }

  /** Every accepted slice is the encoding of what it decodes to, so each character has one form. */
  lemma EncodeDecode(bytes: seq<Byte>)
    requires DecodeSlice(bytes).Some?
    ensures EncodeScalar(DecodeSlice(bytes).value) == bytes
  {
    var n := |bytes|;
    var b0: int := bytes[0];
    if n == 2 {
      Digit(b0 - 0xC0, Low(bytes[1]));
    } else if n == 3 {
      var high := (b0 - 0xE0) * 0x40 + Low(bytes[1]);
      Digit(b0 - 0xE0, Low(bytes[1]));
      Digit(high, Low(bytes[2]));
      TopDigits(high * 0x40 + Low(bytes[2]));
    } else if n == 4 {
      var top := (b0 - 0xF0) * 0x40 + Low(bytes[1]);
      var high := top * 0x40 + Low(bytes[2]);
      Digit(b0 - 0xF0, Low(bytes[1]));
      Digit(top, Low(bytes[2]));
      Digit(high, Low(bytes[3]));
      TopDigits(high * 0x40 + Low(bytes[3]));
    }
  }

  lemma Digit(high: int, low: int)
    requires 0 <= low < 0x40
    ensures (high * 0x40 + low) / 0x40 == high
    ensures (high * 0x40 + low) % 0x40 == low
  {
  }

  lemma TopDigits(c: int)
    ensures c / 0x1000 == c / 0x40 / 0x40
    ensures c / 0x4_0000 == c / 0x40 / 0x40 / 0x40
  {
  }

  /** The base-64 digits of `c`. */
  lemma Radix64(c: nat)
    ensures c == c / 0x40 * 0x40 + c % 0x40
    ensures c / 0x40 == c / 0x1000 * 0x40 + c / 0x40 % 0x40
    ensures c / 0x1000 == c / 0x4_0000 * 0x40 + c / 0x1000 % 0x40
  {
  }

  /** A character outside ASCII has only bytes outside ASCII. */
  lemma EncodeHighBytes(c: Scalar)
    ensures c >= 0x80 ==> forall b :: b in EncodeScalar(c) ==> b >= 0x80
    ensures c < 0x80 ==> |EncodeScalar(c)| == 1 && EncodeScalar(c)[0] == c
  {
  }
}
