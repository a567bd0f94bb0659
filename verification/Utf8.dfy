/**
 UTF-8 as Go's `unicode/utf8` decodes it and `bytes.Buffer.WriteRune` writes
 it, checked against sections 3 and 4 of RFC 3629.
 */
module Utf8 {

  type Byte = b: int | 0 <= b < 0x100

  type Bytes = seq<Byte>

  /** A Unicode scalar value. */
  predicate Scalar(r: int) { 0 <= r < 0xD800 || 0xE000 <= r <= 0x10FFFF }

  const REPLACEMENT: int := 0xFFFD

  datatype Decoded = Decoded(r: int, width: nat)

  // ---- section 4 of RFC 3629: which byte sequences are characters ----

  predicate Tail(b: Byte) { 0x80 <= b <= 0xBF }

  predicate Utf8Two(b: Bytes) { |b| >= 2 && 0xC2 <= b[0] <= 0xDF && Tail(b[1]) }

  predicate Utf8Three(b: Bytes) {
    && |b| >= 3 && Tail(b[2])
    && (|| (b[0] == 0xE0 && 0xA0 <= b[1] <= 0xBF)
        || (0xE1 <= b[0] <= 0xEC && Tail(b[1]))
        || (b[0] == 0xED && 0x80 <= b[1] <= 0x9F)
        || (0xEE <= b[0] <= 0xEF && Tail(b[1])))
  }

  predicate Utf8Four(b: Bytes) {
    && |b| >= 4 && Tail(b[2]) && Tail(b[3])
    && (|| (b[0] == 0xF0 && 0x90 <= b[1] <= 0xBF)
        || (0xF1 <= b[0] <= 0xF3 && Tail(b[1]))
        || (b[0] == 0xF4 && 0x80 <= b[1] <= 0x8F))
  }

  /** `b` begins with a character of the grammar. */
  predicate StartsWell(b: Bytes) {
    b != [] && (b[0] < 0x80 || Utf8Two(b) || Utf8Three(b) || Utf8Four(b))
  }

  // ---- decoding ----

  /** What the first byte announces: the length of the sequence and the range of its second byte. */
  datatype Lead = Ascii | Invalid | Multi(size: nat, lo: int, hi: int)

  function First(b: Byte): Lead {
    if b < 0x80 then Ascii
    else if b < 0xC2 then Invalid
    else if b < 0xE0 then Multi(2, 0x80, 0xBF)
    else if b == 0xE0 then Multi(3, 0xA0, 0xBF)
    else if b == 0xED then Multi(3, 0x80, 0x9F)
    else if b < 0xF0 then Multi(3, 0x80, 0xBF)
    else if b == 0xF0 then Multi(4, 0x90, 0xBF)
    else if b < 0xF4 then Multi(4, 0x80, 0xBF)
    else if b == 0xF4 then Multi(4, 0x80, 0x8F)
    else Invalid
  }

  /** The first rune and its width; anything malformed is one replacement character per byte. */
  function DecodeRune(b: Bytes): Decoded
    requires b != []
  {
    match First(b[0])
    case Ascii => Decoded(b[0], 1)
    case Invalid => Decoded(REPLACEMENT, 1)
    case Multi(size, lo, hi) =>
      if |b| < size || b[1] < lo || hi < b[1] then Decoded(REPLACEMENT, 1)
      else if size == 2 then Decoded((b[0] as int - 0xC0) * 0x40 + (b[1] as int - 0x80), 2)
      else if !Tail(b[2]) then Decoded(REPLACEMENT, 1)
      else if size == 3 then Decoded((b[0] as int - 0xE0) * 0x1000 + (b[1] as int - 0x80) * 0x40 + (b[2] as int - 0x80), 3)
      else if !Tail(b[3]) then Decoded(REPLACEMENT, 1)
      else Decoded((b[0] as int - 0xF0) * 0x40000 + (b[1] as int - 0x80) * 0x1000 + (b[2] as int - 0x80) * 0x40 + (b[3] as int - 0x80), 4)
  }

  /** Section 3 of RFC 3629: the bits of a scalar value spread over one to four bytes. */
  function EncodeRune(r: int): Bytes
    requires Scalar(r)
  {
    if r < 0x80 then [r]
    else if r < 0x800 then [0xC0 + r / 0x40, 0x80 + r % 0x40]
    else if r < 0x10000 then [0xE0 + r / 0x1000, 0x80 + r / 0x40 % 0x40, 0x80 + r % 0x40]
    else [0xF0 + r / 0x40000, 0x80 + r / 0x1000 % 0x40, 0x80 + r / 0x40 % 0x40, 0x80 + r % 0x40]
  }

  /** The decoder takes exactly the characters of the grammar, whole, and gives a scalar value always. */
  lemma DecodeGrammar(b: Bytes)
    requires b != []
    ensures var d := DecodeRune(b);
            && 1 <= d.width <= |b| && Scalar(d.r)
            && (if b[0] < 0x80 then d == Decoded(b[0], 1)
                else if Utf8Two(b) then d.width == 2
                else if Utf8Three(b) then d.width == 3
                else if Utf8Four(b) then d.width == 4
                else d == Decoded(REPLACEMENT, 1))
  {
  }

  /** The value of three six-bit digits below `x`, taken apart again. */
  lemma Digits(w: int, x: int, y: int, z: int)
    requires 0 <= w && 0 <= x < 0x40 && 0 <= y < 0x40 && 0 <= z < 0x40
    ensures var r := w * 0x40000 + x * 0x1000 + y * 0x40 + z;
            r / 0x40000 == w && r / 0x1000 % 0x40 == x && r / 0x40 % 0x40 == y && r % 0x40 == z
            && (w == 0 ==> r / 0x1000 == x) && (w == 0 && x == 0 ==> r / 0x40 == y)
  {
    var r := w * 0x40000 + x * 0x1000 + y * 0x40 + z;
    assert r / 0x40 == w * 0x1000 + x * 0x40 + y;
    assert r / 0x1000 == w * 0x40 + x;
  }

  /** Decoding a well-formed character and writing it gives its bytes back. */
  lemma EncodeDecode(b: Bytes)
    requires StartsWell(b)
    ensures var d := DecodeRune(b);
            Scalar(d.r) && d.width <= |b| && EncodeRune(d.r) == b[..d.width]
  {
    if b[0] < 0x80 {
      assert EncodeRune(b[0]) == b[..1];
    } else if Utf8Two(b) {
      Digits(0, 0, b[0] as int - 0xC0, b[1] as int - 0x80);
      assert EncodeRune(DecodeRune(b).r) == [b[0], b[1]];
    } else if Utf8Three(b) {
      EncodeThree(b);
    } else {
      EncodeFour(b);
    }
  }

  lemma EncodeThree(b: Bytes)
    requires Utf8Three(b)
    ensures var d := DecodeRune(b);
            Scalar(d.r) && d.width == 3 && EncodeRune(d.r) == b[..3]
  {
    var r := DecodeRune(b).r;
    Digits(0, b[0] as int - 0xE0, b[1] as int - 0x80, b[2] as int - 0x80);
    assert r / 0x1000 == b[0] as int - 0xE0;
    assert EncodeRune(r) == [b[0], b[1], b[2]];
  }

  lemma EncodeFour(b: Bytes)
    requires Utf8Four(b)
    ensures var d := DecodeRune(b);
            Scalar(d.r) && d.width == 4 && EncodeRune(d.r) == b[..4]
  {
    var r := DecodeRune(b).r;
    Digits(b[0] as int - 0xF0, b[1] as int - 0x80, b[2] as int - 0x80, b[3] as int - 0x80);
    assert r / 0x40000 == b[0] as int - 0xF0;
    assert EncodeRune(r) == [b[0], b[1], b[2], b[3]];
  }

  /** Writing a scalar value and decoding it gives it back, whatever follows. */
  lemma DecodeEncode(r: int, rest: Bytes)
    requires Scalar(r)
    ensures DecodeRune(EncodeRune(r) + rest) == Decoded(r, |EncodeRune(r)|)
    ensures StartsWell(EncodeRune(r) + rest)
  {
    var e := EncodeRune(r);
    var b := e + rest;
    assert forall i :: 0 <= i < |e| ==> b[i] == e[i];
    if r < 0x80 {
    } else if r < 0x800 {
      assert r == (r / 0x40) * 0x40 + r % 0x40;
    } else if r < 0x10000 {
      assert r / 0x1000 == r / 0x40 / 0x40;
      assert r == (r / 0x1000) * 0x1000 + (r / 0x40 % 0x40) * 0x40 + r % 0x40;
    } else {
      assert r / 0x1000 == r / 0x40 / 0x40 && r / 0x40000 == r / 0x40 / 0x40 / 0x40;
      assert r == (r / 0x40000) * 0x40000 + (r / 0x1000 % 0x40) * 0x1000 + (r / 0x40 % 0x40) * 0x40 + r % 0x40;
    }
  }

  /** A rune that ends where `a` does, or before, is the same rune when only `a` is there. */
  lemma DecodePrefix(a: Bytes, b: Bytes)
    requires a != [] && DecodeRune(a + b).width <= |a|
    ensures DecodeRune(a) == DecodeRune(a + b)
  {
    var c := a + b;
    assert forall i :: 0 <= i < |a| ==> c[i] == a[i];
  }

  /** A first byte that is a tail byte, or a lead byte cut short, is one replacement character. */
  lemma DecodeBroken(b: Bytes)
    requires b != []
    requires Tail(b[0]) || (First(b[0]).Multi? && |b| < First(b[0]).size)
    ensures DecodeRune(b) == Decoded(REPLACEMENT, 1)
  {
  }
}
