/**
 * UTF-8 in LocalKaos: the decoder that drops ill-formed input and the resumable
 * validator, both measured against the grammar of RFC 3629.
 *
 * Decoded text is a sequence of code points.  The bit operations of the source
 * (`b & 0x3f`, `x << 6`) are written as `b % 64` and `x * 64`, which is the same
 * number for the non-negative operands that occur.
 */
module Utf8 {
  import opened Sequences

  type Byte = b: int | 0 <= b < 256
  type Bytes = seq<Byte>

  /** A Unicode scalar value: a code point that is not a surrogate. */
  type Scalar = c: int | 0 <= c <= 0xD7FF || 0xE000 <= c <= 0x10FFFF

  const LF: Byte := 0x0A
  const CR: Byte := 0x0D

  // ----- RFC 3629: section 4 (grammar) and section 3 (encoding) -----

  predicate IsContinuation(b: Byte) { 0x80 <= b <= 0xBF }

  /** The production UTF8-char of RFC 3629, section 4. */
  predicate IsUtf8Char(c: Bytes) {
    || (|c| == 1 && c[0] <= 0x7F)
    || (|c| == 2 && 0xC2 <= c[0] <= 0xDF && IsContinuation(c[1]))
    || (|c| == 3 && IsThreeByteLead(c[0], c[1]) && IsContinuation(c[2]))
    || (|c| == 4 && IsFourByteLead(c[0], c[1]) && IsContinuation(c[2]) && IsContinuation(c[3]))
  }

  predicate IsThreeByteLead(b0: Byte, b1: Byte) {
    || (b0 == 0xE0 && 0xA0 <= b1 <= 0xBF)
    || (0xE1 <= b0 <= 0xEC && IsContinuation(b1))
    || (b0 == 0xED && 0x80 <= b1 <= 0x9F)
    || (0xEE <= b0 <= 0xEF && IsContinuation(b1))
  }

  predicate IsFourByteLead(b0: Byte, b1: Byte) {
    || (b0 == 0xF0 && 0x90 <= b1 <= 0xBF)
    || (0xF1 <= b0 <= 0xF3 && IsContinuation(b1))
    || (b0 == 0xF4 && 0x80 <= b1 <= 0x8F)
  }

  ghost predicate AllUtf8Chars(chars: seq<Bytes>) {
    forall i | 0 <= i < |chars| :: IsUtf8Char(chars[i])
  }

  /** UTF8-octets = *( UTF8-char ). */
  ghost predicate WellFormed(s: Bytes) {
    exists chars: seq<Bytes> :: AllUtf8Chars(chars) && Flatten(chars) == s
  }

  function Encode(c: Scalar): Bytes {
    var cp: int := c;
    if cp < 0x80 then var b0: Byte := cp; [b0]
    else if cp < 0x800 then [0xC0 + cp / 64, 0x80 + cp % 64]
    else if cp < 0x10000 then [0xE0 + cp / 4096, 0x80 + cp / 64 % 64, 0x80 + cp % 64]
    else
      var b0: Byte := 0xF0 + cp / 262144;
      [b0, 0x80 + cp / 4096 % 64, 0x80 + cp / 64 % 64, 0x80 + cp % 64]
  }

  function EncodeAll(text: seq<Scalar>): Bytes {
    if text == [] then [] else Encode(text[0]) + EncodeAll(text[1..])
  }

  // ----- what the decoder computes -----

  // The code points the decoder's shifts and masks put together.

  function TwoByteValue(b0: int, b1: int): int {
    b0 % 32 * 64 + b1 % 64
  }

  function ThreeByteValue(b0: int, b1: int, b2: int): int {
    b0 % 16 * 4096 + b1 % 64 * 64 + b2 % 64
  }

  function FourByteValue(b0: int, b1: int, b2: int, b3: int): int {
    b0 % 8 * 262144 + b1 % 64 * 4096 + b2 % 64 * 64 + b3 % 64
  }

  lemma TwoByteRange(b0: Byte, b1: Byte)
    requires 0xC2 <= b0 <= 0xDF && IsContinuation(b1)
    ensures var v := TwoByteValue(b0, b1);
            0x80 <= v < 0x800 && v / 64 == b0 - 0xC0 && v % 64 == b1 - 0x80
  {
  }

  lemma ThreeByteRange(b0: Byte, b1: Byte, b2: Byte)
    requires IsThreeByteLead(b0, b1) && IsContinuation(b2)
    ensures var v := ThreeByteValue(b0, b1, b2);
            && (0x800 <= v < 0xD800 || 0xE000 <= v < 0x10000)
            && v / 4096 == b0 - 0xE0 && v / 64 % 64 == b1 - 0x80 && v % 64 == b2 - 0x80
  {
    assert b0 % 16 == b0 - 0xE0 && b1 % 64 == b1 - 0x80 && b2 % 64 == b2 - 0x80;
    var v := ThreeByteValue(b0, b1, b2);
    assert v / 64 == (b0 - 0xE0) * 64 + (b1 - 0x80);
    SixBitDigits(v);
  }

  lemma FourByteRange(b0: Byte, b1: Byte, b2: Byte, b3: Byte)
    requires IsFourByteLead(b0, b1) && IsContinuation(b2) && IsContinuation(b3)
    ensures var v := FourByteValue(b0, b1, b2, b3);
            && 0x10000 <= v <= 0x10FFFF && v / 262144 == b0 - 0xF0
            && v / 4096 % 64 == b1 - 0x80 && v / 64 % 64 == b2 - 0x80 && v % 64 == b3 - 0x80
  {
    assert b0 % 8 == b0 - 0xF0 && b1 % 64 == b1 - 0x80 && b2 % 64 == b2 - 0x80 && b3 % 64 == b3 - 0x80;
    var v := FourByteValue(b0, b1, b2, b3);
    assert v / 64 == (b0 - 0xF0) * 4096 + (b1 - 0x80) * 64 + (b2 - 0x80);
    assert v / 4096 == (b0 - 0xF0) * 64 + (b1 - 0x80);
    SixBitDigits(v);
  }

  /** Writing a number in base 64. */
  lemma SixBitDigits(v: int)
    requires 0 <= v
    ensures v == v / 64 * 64 + v % 64
    ensures v / 64 == v / 4096 * 64 + v / 64 % 64
    ensures v / 4096 == v / 262144 * 64 + v / 4096 % 64
  {
  }

  function DecodeChar(c: Bytes): (cp: Scalar)
    requires IsUtf8Char(c)
  {
    hide TwoByteValue, ThreeByteValue, FourByteValue;
    if |c| == 1 then var cp: int := c[0]; cp
    else if |c| == 2 then TwoByteRange(c[0], c[1]); TwoByteValue(c[0], c[1])
    else if |c| == 3 then ThreeByteRange(c[0], c[1], c[2]); ThreeByteValue(c[0], c[1], c[2])
    else FourByteRange(c[0], c[1], c[2], c[3]); FourByteValue(c[0], c[1], c[2], c[3])
  }

  /** A well-formed character is the encoding of the code point it decodes to. */
  lemma EncodeUndoesDecodeChar(c: Bytes)
    requires IsUtf8Char(c)
    ensures Encode(DecodeChar(c)) == c
  {
    hide TwoByteValue, ThreeByteValue, FourByteValue;
    if |c| == 2 {
      TwoByteRange(c[0], c[1]);
    } else if |c| == 3 {
      ThreeByteRange(c[0], c[1], c[2]);
    } else if |c| == 4 {
      FourByteRange(c[0], c[1], c[2], c[3]);
    }
  }

  /** Length of the well-formed character `s` begins with, 0 if there is none. */
  function HeadLength(s: Bytes): (n: nat)
    ensures n <= |s| && n <= 4
    ensures n > 0 ==> IsUtf8Char(s[..n])
    ensures n == 0 ==> forall k | 0 <= k <= |s| :: !IsUtf8Char(s[..k])
  {
    if |s| >= 1 && IsUtf8Char(s[..1]) then 1
    else if |s| >= 2 && IsUtf8Char(s[..2]) then 2
    else if |s| >= 3 && IsUtf8Char(s[..3]) then 3
    else if |s| >= 4 && IsUtf8Char(s[..4]) then 4
    else 0
  }

  /** Keep each well-formed character; where there is none, drop one byte. */
  function DecodeIgnore(s: Bytes): (text: seq<Scalar>) {
    if s == [] then []
    else
      var n := HeadLength(s);
      if n > 0 then [DecodeChar(s[..n])] + DecodeIgnore(s[n..]) else DecodeIgnore(s[1..])
  }

  lemma KeepChar(data: Bytes, i: nat, n: nat)
    requires i + n <= |data| && IsUtf8Char(data[i..i + n])
    ensures DecodeIgnore(data[i..]) == [DecodeChar(data[i..i + n])] + DecodeIgnore(data[i + n..])
  {
    hide Encode, DecodeChar;
    HeadOfChar(data[i..i + n], data[i + n..]);
    assert data[i..] == data[i..i + n] + data[i + n..];
  }

  lemma KeepOne(data: Bytes, i: nat)
    requires i < |data| && data[i] <= 0x7F
    ensures var rest: seq<int> := DecodeIgnore(data[i + 1..]); DecodeIgnore(data[i..]) == [data[i]] + rest
  {
    hide DecodeIgnore;
    KeepChar(data, i, 1);
  }

  lemma KeepTwo(data: Bytes, i: nat)
    requires i + 1 < |data| && 0xC2 <= data[i] <= 0xDF && IsContinuation(data[i + 1])
    ensures var rest: seq<int> := DecodeIgnore(data[i + 2..]);
            DecodeIgnore(data[i..]) == [TwoByteValue(data[i], data[i + 1])] + rest
  {
    hide DecodeIgnore, TwoByteValue;
    KeepChar(data, i, 2);
  }

  lemma KeepThree(data: Bytes, i: nat)
    requires i + 2 < |data| && IsThreeByteLead(data[i], data[i + 1]) && IsContinuation(data[i + 2])
    ensures var rest: seq<int> := DecodeIgnore(data[i + 3..]);
            DecodeIgnore(data[i..]) == [ThreeByteValue(data[i], data[i + 1], data[i + 2])] + rest
  {
    hide DecodeIgnore, ThreeByteValue;
    KeepChar(data, i, 3);
  }

  lemma KeepFour(data: Bytes, i: nat)
    requires i + 3 < |data| && IsFourByteLead(data[i], data[i + 1]) && IsContinuation(data[i + 2]) && IsContinuation(data[i + 3])
    ensures var rest: seq<int> := DecodeIgnore(data[i + 4..]);
            DecodeIgnore(data[i..]) == [FourByteValue(data[i], data[i + 1], data[i + 2], data[i + 3])] + rest
  {
    hide DecodeIgnore, FourByteValue;
    KeepChar(data, i, 4);
  }

  /** The four tests the decoder makes at index `i`. */
  predicate CharAt(data: Bytes, i: nat) {
    || (i + 1 <= |data| && IsUtf8Char(data[i..i + 1]))
    || (i + 2 <= |data| && IsUtf8Char(data[i..i + 2]))
    || (i + 3 <= |data| && IsUtf8Char(data[i..i + 3]))
    || (i + 4 <= |data| && IsUtf8Char(data[i..i + 4]))
  }

  lemma DropByte(data: Bytes, i: nat)
    requires i < |data| && !CharAt(data, i)
    ensures DecodeIgnore(data[i..]) == DecodeIgnore(data[i + 1..])
  {
    hide IsUtf8Char, DecodeChar;
    var tail := data[i..];
    assert tail[..1] == data[i..i + 1];
    assert |tail| >= 2 ==> tail[..2] == data[i..i + 2];
    assert |tail| >= 3 ==> tail[..3] == data[i..i + 3];
    assert |tail| >= 4 ==> tail[..4] == data[i..i + 4];
    assert tail[1..] == data[i + 1..];
  }

  lemma DecodeAtEnd(data: Bytes)
    ensures DecodeIgnore(data[|data|..]) == []
  {
  }

  method DecodeUtf8Ignore(data: Bytes) returns (output: seq<int>)
    ensures output == DecodeIgnore(data)
    ensures forall k | 0 <= k < |output| :: 0 <= output[k] <= 0x10FFFF && !(0xD800 <= output[k] <= 0xDFFF)
  {
    hide Encode, DecodeIgnore, DecodeChar, TwoByteValue, ThreeByteValue, FourByteValue;
    DecodeAtEnd(data);
    output := [];
    assert data[0..] == data;
    var i := 0;
    while i < |data|
      invariant 0 <= i <= |data|
      invariant output + DecodeIgnore(data[i..]) == DecodeIgnore(data)
    {
      var b0 := data[i];
      if b0 <= 0x7F {
        KeepOne(data, i);
        output := output + [b0];
        i := i + 1;
        continue;
      }
      if 0xC2 <= b0 <= 0xDF {
        if i + 1 < |data| && IsContinuation(data[i + 1]) {
          KeepTwo(data, i);
          output := output + [TwoByteValue(b0, data[i + 1])];
          i := i + 2;
          continue;
        }
        DropByte(data, i);
        i := i + 1;
        continue;
      }
      if 0xE0 <= b0 <= 0xEF {
        var validSecond := i + 1 < |data| &&
          (|| (b0 == 0xE0 && 0xA0 <= data[i + 1] <= 0xBF)
           || (0xE1 <= b0 <= 0xEC && IsContinuation(data[i + 1]))
           || (b0 == 0xED && 0x80 <= data[i + 1] <= 0x9F)
           || (0xEE <= b0 <= 0xEF && IsContinuation(data[i + 1])));
        if validSecond && i + 2 < |data| && IsContinuation(data[i + 2]) {
          KeepThree(data, i);
          output := output + [ThreeByteValue(b0, data[i + 1], data[i + 2])];
          i := i + 3;
          continue;
        }
        DropByte(data, i);
        i := i + 1;
        continue;
      }
      if 0xF0 <= b0 <= 0xF4 {
        var validSecond := i + 1 < |data| &&
          (|| (b0 == 0xF0 && 0x90 <= data[i + 1] <= 0xBF)
           || (0xF1 <= b0 <= 0xF3 && IsContinuation(data[i + 1]))
           || (b0 == 0xF4 && 0x80 <= data[i + 1] <= 0x8F));
        if validSecond && i + 3 < |data| && IsContinuation(data[i + 2]) && IsContinuation(data[i + 3]) {
          KeepFour(data, i);
          output := output + [FourByteValue(b0, data[i + 1], data[i + 2], data[i + 3])];
          i := i + 4;
          continue;
        }
        DropByte(data, i);
        i := i + 1;
        continue;
      }
      DropByte(data, i);
      i := i + 1;
    }
  }

  // ----- the decoder undoes the encoder -----

  lemma TwoByteDigits(y: int, x: int)
    requires 2 <= y < 32 && 0 <= x < 64
    ensures TwoByteValue(0xC0 + y, 0x80 + x) == y * 64 + x
  {
  }

  lemma ThreeByteDigits(z: int, y: int, x: int)
    requires 0 <= z < 16 && 0 <= y < 64 && 0 <= x < 64
    ensures ThreeByteValue(0xE0 + z, 0x80 + y, 0x80 + x) == z * 4096 + y * 64 + x
  {
  }

  lemma FourByteDigits(u: int, z: int, y: int, x: int)
    requires 0 <= u < 8 && 0 <= z < 64 && 0 <= y < 64 && 0 <= x < 64
    ensures FourByteValue(0xF0 + u, 0x80 + z, 0x80 + y, 0x80 + x) == u * 262144 + z * 4096 + y * 64 + x
  {
  }

  lemma EncodeTwo(c: Scalar)
    requires 0x80 <= c < 0x800
    ensures IsUtf8Char(Encode(c)) && DecodeChar(Encode(c)) == c
  {
    hide TwoByteValue;
    TwoByteDigits(c / 64, c % 64);
  }

  lemma EncodeThree(c: Scalar)
    requires 0x800 <= c < 0x10000
    ensures IsUtf8Char(Encode(c)) && DecodeChar(Encode(c)) == c
  {
    hide ThreeByteValue;
    SixBitDigits(c);
    ThreeByteDigits(c / 4096, c / 64 % 64, c % 64);
  }

  lemma EncodeFour(c: Scalar)
    requires 0x10000 <= c
    ensures IsUtf8Char(Encode(c)) && DecodeChar(Encode(c)) == c
  {
    hide FourByteValue;
    SixBitDigits(c);
    FourByteDigits(c / 262144, c / 4096 % 64, c / 64 % 64, c % 64);
  }

  lemma EncodeIsChar(c: Scalar)
    ensures IsUtf8Char(Encode(c)) && DecodeChar(Encode(c)) == c
  {
    if 0x80 <= c {
      hide Encode, DecodeChar, IsUtf8Char;
      if c < 0x800 {
        EncodeTwo(c);
      } else if c < 0x10000 {
        EncodeThree(c);
      } else {
        EncodeFour(c);
      }
    }
  }

  lemma DecodeEncodedHead(c: Scalar, rest: Bytes)
    ensures DecodeIgnore(Encode(c) + rest) == [c] + DecodeIgnore(rest)
  {
    hide Encode, DecodeChar, IsUtf8Char, HeadLength;
    EncodeIsChar(c);
    HeadOfChar(Encode(c), rest);
  }

  /** The grammar is prefix-free: a well-formed character is found whatever follows it. */
  lemma HeadOfChar(c: Bytes, rest: Bytes)
    requires IsUtf8Char(c)
    ensures HeadLength(c + rest) == |c| && (c + rest)[..|c|] == c && (c + rest)[|c|..] == rest
  {
  }

  lemma {:induction false} DecodeEncoded(text: seq<Scalar>, rest: Bytes)
    ensures DecodeIgnore(EncodeAll(text) + rest) == text + DecodeIgnore(rest)
  {
    hide Encode, DecodeIgnore;
    if text == [] {
      assert EncodeAll(text) + rest == rest;
    } else {
      var tail := EncodeAll(text[1..]) + rest;
      assert EncodeAll(text) + rest == Encode(text[0]) + tail;
      DecodeEncodedHead(text[0], tail);
      DecodeEncoded(text[1..], rest);
    }
  }

  /** Decoding in ignore mode undoes the encoder, for every sequence of scalar values. */
  lemma DecodeUndoesEncode(text: seq<Scalar>)
    ensures DecodeIgnore(EncodeAll(text)) == text
  {
    DecodeEncoded(text, []);
    assert EncodeAll(text) + [] == EncodeAll(text);
  }

  // ----- well-formedness -----

  /** The decoder's view of well-formedness: no byte is ever dropped. */
  predicate NothingDropped(s: Bytes) {
    s == [] || (HeadLength(s) > 0 && NothingDropped(s[HeadLength(s)..]))
  }

  lemma {:induction false} CharsAreNotDropped(chars: seq<Bytes>)
    requires AllUtf8Chars(chars)
    ensures NothingDropped(Flatten(chars))
  {
    if chars != [] {
      CharsAreNotDropped(chars[1..]);
      HeadOfChar(chars[0], Flatten(chars[1..]));
    }
  }

  lemma {:induction false} PartitionIntoChars(s: Bytes) returns (chars: seq<Bytes>)
    requires NothingDropped(s)
    ensures AllUtf8Chars(chars) && Flatten(chars) == s
  {
    if s == [] {
      chars := [];
    } else {
      var n := HeadLength(s);
      var rest := PartitionIntoChars(s[n..]);
      chars := [s[..n]] + rest;
      assert chars[1..] == rest;
    }
  }

  lemma WellFormedIffNothingDropped(s: Bytes)
    ensures WellFormed(s) <==> NothingDropped(s)
  {
    if WellFormed(s) {
      var chars: seq<Bytes> :| AllUtf8Chars(chars) && Flatten(chars) == s;
      CharsAreNotDropped(chars);
    }
    if NothingDropped(s) {
      var chars := PartitionIntoChars(s);
    }
  }

  lemma ReencodeStep(s: Bytes)
    requires s != []
    ensures var n := HeadLength(s);
            EncodeAll(DecodeIgnore(s)) ==
            if n > 0 then s[..n] + EncodeAll(DecodeIgnore(s[n..])) else EncodeAll(DecodeIgnore(s[1..]))
  {
    hide Encode, DecodeChar, IsUtf8Char, HeadLength;
    var n := HeadLength(s);
    if n > 0 {
      EncodeUndoesDecodeChar(s[..n]);
      var text := DecodeIgnore(s);
      assert text[0] == DecodeChar(s[..n]) && text[1..] == DecodeIgnore(s[n..]);
    }
  }

  lemma {:induction false} ReencodeLength(s: Bytes)
    ensures |EncodeAll(DecodeIgnore(s))| <= |s|
    ensures NothingDropped(s) ==> EncodeAll(DecodeIgnore(s)) == s
    ensures !NothingDropped(s) ==> |EncodeAll(DecodeIgnore(s))| < |s|
  {
    hide EncodeAll, DecodeIgnore, IsUtf8Char, HeadLength;
    if s == [] {
      EncodeNothing();
    } else {
      ReencodeStep(s);
      var n := HeadLength(s);
      if n > 0 {
        ReencodeLength(s[n..]);
      } else {
        ReencodeLength(s[1..]);
      }
    }
  }

  lemma EncodeNothing()
    ensures EncodeAll([]) == [] && DecodeIgnore([]) == []
  {
  }

  /** The bytes survive decode-then-encode exactly when they are well-formed. */
  lemma WellFormedIffReencodes(s: Bytes)
    ensures WellFormed(s) <==> EncodeAll(DecodeIgnore(s)) == s
  {
    WellFormedIffNothingDropped(s);
    ReencodeLength(s);
  }

  /** Whatever was dropped, what is left re-encodes to well-formed bytes with the same reading. */
  lemma DecodingSettles(s: Bytes)
    ensures WellFormed(EncodeAll(DecodeIgnore(s))) && DecodeIgnore(EncodeAll(DecodeIgnore(s))) == DecodeIgnore(s)
  {
    DecodeUndoesEncode(DecodeIgnore(s));
    WellFormedIffReencodes(EncodeAll(DecodeIgnore(s)));
  }

  // ----- the resumable validator -----

  datatype Validator = Validator(needed: int, lower: int, upper: int)

  const FreshValidator := Validator(0, 0x80, 0xBF)

  /** One byte through the validator; None where the source throws. */
  function ValidatorStep(v: Validator, byte: Byte): Option<Validator> {
    if v.needed == 0 then
      if byte <= 0x7F then Some(v)
      else if 0xC2 <= byte <= 0xDF then Some(v.(needed := 1))
      else if byte == 0xE0 then Some(v.(needed := 2, lower := 0xA0))
      else if 0xE1 <= byte <= 0xEC then Some(v.(needed := 2))
      else if byte == 0xED then Some(v.(needed := 2, upper := 0x9F))
      else if 0xEE <= byte <= 0xEF then Some(v.(needed := 2))
      else if byte == 0xF0 then Some(v.(needed := 3, lower := 0x90))
      else if 0xF1 <= byte <= 0xF3 then Some(v.(needed := 3))
      else if byte == 0xF4 then Some(v.(needed := 3, upper := 0x8F))
      else None
    else if byte < v.lower || byte > v.upper then None
    else Some(Validator(v.needed - 1, 0x80, 0xBF))
  }

  function ValidatorRun(v: Validator, s: Bytes): Option<Validator>
    decreases s
  {
    if s == [] then Some(v)
    else match ValidatorStep(v, s[0])
      case None => None
      case Some(w) => ValidatorRun(w, s[1..])
  }

  lemma {:induction false} ValidatorRunConcat(v: Validator, a: Bytes, b: Bytes)
    ensures ValidatorRun(v, a + b) ==
            match ValidatorRun(v, a) case None => None case Some(w) => ValidatorRun(w, b)
    decreases a
  {
    if a == [] {
      assert a + b == b;
    } else {
      assert (a + b)[1..] == a[1..] + b;
      match ValidatorStep(v, a[0]) {
        case None =>
        case Some(w) => ValidatorRunConcat(w, a[1..], b);
      }
    }
  }

  /** The object returned by `createUtf8Validator`. */
  class Utf8Validator {
    var needed: int
    var lower: int
    var upper: int

    function State(): Validator
      reads this
    {
      Validator(needed, lower, upper)
    }

    constructor ()
      ensures State() == FreshValidator
    {
      needed, lower, upper := 0, 0x80, 0xBF;
    }

    /** `ok` is false where the source throws `Invalid UTF-8 data`. */
    method Write(chunk: Bytes) returns (ok: bool)
      modifies this
      ensures ok <==> ValidatorRun(old(State()), chunk).Some?
      ensures ok ==> ValidatorRun(old(State()), chunk) == Some(State())
    {
      var i := 0;
      while i < |chunk|
        invariant 0 <= i <= |chunk|
        invariant ValidatorRun(State(), chunk[i..]) == ValidatorRun(old(State()), chunk)
      {
        var byte := chunk[i];
        assert chunk[i..][0] == byte && chunk[i..][1..] == chunk[i + 1..];
        i := i + 1;
        if needed == 0 {
          if byte <= 0x7F {
            continue;
          }
          if 0xC2 <= byte <= 0xDF {
            needed := 1;
          } else if byte == 0xE0 {
            needed := 2;
            lower := 0xA0;
          } else if 0xE1 <= byte <= 0xEC {
            needed := 2;
          } else if byte == 0xED {
            needed := 2;
            upper := 0x9F;
          } else if 0xEE <= byte <= 0xEF {
            needed := 2;
          } else if byte == 0xF0 {
            needed := 3;
            lower := 0x90;
          } else if 0xF1 <= byte <= 0xF3 {
            needed := 3;
          } else if byte == 0xF4 {
            needed := 3;
            upper := 0x8F;
          } else {
            return false;
          }
        } else {
          if byte < lower || byte > upper {
            return false;
          }
          lower := 0x80;
          upper := 0xBF;
          needed := needed - 1;
        }
      }
      return true;
    }

    method End() returns (ok: bool)
      ensures ok <==> needed == 0
    {
      ok := needed == 0;
    }
  }

  predicate Accepts(s: Bytes) {
    var end := ValidatorRun(FreshValidator, s);
    end.Some? && end.value.needed == 0
  }

  lemma RunPastChar(c: Bytes, rest: Bytes)
    requires IsUtf8Char(c)
    ensures ValidatorRun(FreshValidator, c + rest) == ValidatorRun(FreshValidator, rest)
  {
    ValidatorRunConcat(FreshValidator, c, rest);
    assert ValidatorRun(FreshValidator, c) == Some(FreshValidator) by {
      var v1 := ValidatorStep(FreshValidator, c[0]).value;
      if |c| > 1 {
        var v2 := ValidatorStep(v1, c[1]).value;
        if |c| > 2 {
          var v3 := ValidatorStep(v2, c[2]).value;
          if |c| > 3 {
            assert ValidatorRun(v3, c[3..]) == ValidatorRun(ValidatorStep(v3, c[3]).value, c[4..]);
          }
          assert c[2..][1..] == c[3..];
          assert ValidatorRun(v2, c[2..]) == ValidatorRun(v3, c[3..]);
        }
        assert c[1..][1..] == c[2..];
        assert ValidatorRun(v1, c[1..]) == ValidatorRun(v2, c[2..]);
      }
    }
  }

  lemma NoHeadIsRejected(s: Bytes)
    requires s != [] && HeadLength(s) == 0
    ensures !Accepts(s)
  {
    if ValidatorStep(FreshValidator, s[0]).Some? {
      var v1 := ValidatorStep(FreshValidator, s[0]).value;
      assert s[..1] == [s[0]];
      assert ValidatorRun(FreshValidator, s) == ValidatorRun(v1, s[1..]);
      if |s| > 1 && ValidatorStep(v1, s[1]).Some? {
        var v2 := ValidatorStep(v1, s[1]).value;
        assert s[..2] == [s[0], s[1]];
        assert s[1..][1..] == s[2..];
        assert ValidatorRun(v1, s[1..]) == ValidatorRun(v2, s[2..]);
        if |s| > 2 && ValidatorStep(v2, s[2]).Some? {
          var v3 := ValidatorStep(v2, s[2]).value;
          assert s[..3] == [s[0], s[1], s[2]];
          assert s[2..][1..] == s[3..];
          assert ValidatorRun(v2, s[2..]) == ValidatorRun(v3, s[3..]);
          if |s| > 3 {
            assert s[..4] == [s[0], s[1], s[2], s[3]];
          }
        }
      }
    }
  }

  lemma {:induction false} AcceptsIffNothingDropped(s: Bytes)
    ensures Accepts(s) <==> NothingDropped(s)
  {
    if s != [] {
      var n := HeadLength(s);
      if n > 0 {
        assert s == s[..n] + s[n..];
        RunPastChar(s[..n], s[n..]);
        AcceptsIffNothingDropped(s[n..]);
      } else {
        NoHeadIsRejected(s);
      }
    }
  }

  /** The automaton accepts exactly the language of RFC 3629, section 4. */
  lemma AcceptsIffWellFormed(s: Bytes)
    ensures Accepts(s) <==> WellFormed(s)
  {
    AcceptsIffNothingDropped(s);
    WellFormedIffNothingDropped(s);
  }

  /**
   * Feed any chunking of a byte sequence to one validator, as `scanTextFile` does, and
   * close it: the verdict depends only on the bytes.
   */
  method ValidateChunks(chunks: seq<Bytes>) returns (ok: bool)
    ensures ok <==> WellFormed(Flatten(chunks))
  {
    AcceptsIffWellFormed(Flatten(chunks));
    var validator := new Utf8Validator();
    var k := 0;
    while k < |chunks|
      invariant 0 <= k <= |chunks|
      invariant ValidatorRun(FreshValidator, Flatten(chunks)) == ValidatorRun(validator.State(), Flatten(chunks[k..]))
    {
      ValidatorRunConcat(validator.State(), chunks[k], Flatten(chunks[k + 1..]));
      assert chunks[k..][1..] == chunks[k + 1..];
      var written := validator.Write(chunks[k]);
      if !written {
        return false;
      }
      k := k + 1;
    }
    ok := validator.End();
  }
}
