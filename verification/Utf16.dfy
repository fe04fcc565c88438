/** The UTF-16LE decoder that drops ill-formed input, against RFC 2781. */
module Utf16 {
  import opened Sequences
  import opened Utf8

  predicate IsHighSurrogate(unit: int) { 0xD800 <= unit <= 0xDBFF }

  predicate IsLowSurrogate(unit: int) { 0xDC00 <= unit <= 0xDFFF }

  function Unit(low: Byte, high: Byte): (unit: int)
    ensures 0 <= unit < 0x10000
  {
    low + 256 * high
  }

  // ----- RFC 2781, section 2 -----

  function UnitBytes(unit: int): Bytes
    requires 0 <= unit < 0x10000
  {
    [unit % 256, unit / 256]
  }

  function EncodeLe(c: Scalar): Bytes {
    var cp: int := c;
    if cp < 0x10000 then UnitBytes(cp)
    else UnitBytes(0xD800 + (cp - 0x10000) / 0x400) + UnitBytes(0xDC00 + (cp - 0x10000) % 0x400)
  }

  function EncodeAllLe(text: seq<Scalar>): Bytes {
    if text == [] then [] else EncodeLe(text[0]) + EncodeAllLe(text[1..])
  }

  /** The bytes of one character: a unit that is no surrogate, or a surrogate pair. */
  predicate IsUtf16Char(c: Bytes) {
    || (|c| == 2 && !IsHighSurrogate(Unit(c[0], c[1])) && !IsLowSurrogate(Unit(c[0], c[1])))
    || (|c| == 4 && IsHighSurrogate(Unit(c[0], c[1])) && IsLowSurrogate(Unit(c[2], c[3])))
  }

  ghost predicate AllUtf16Chars(chars: seq<Bytes>) {
    forall i | 0 <= i < |chars| :: IsUtf16Char(chars[i])
  }

  ghost predicate WellFormedLe(s: Bytes) {
    exists chars: seq<Bytes> :: AllUtf16Chars(chars) && Flatten(chars) == s
  }

  // ----- the decoder -----

  function PairValue(high: int, low: int): int {
    0x10000 + (high - 0xD800) * 1024 + (low - 0xDC00)
  }

  function DecodeUnits(c: Bytes): (cp: Scalar)
    requires IsUtf16Char(c)
  {
    if |c| == 2 then Unit(c[0], c[1]) else PairValue(Unit(c[0], c[1]), Unit(c[2], c[3]))
  }

  /** Length of the character `s` begins with, 0 if there is none. */
  function HeadLengthLe(s: Bytes): (n: nat)
    ensures n <= |s| && (n == 0 || n == 2 || n == 4)
    ensures n > 0 ==> IsUtf16Char(s[..n])
    ensures n == 0 ==> forall k | 0 <= k <= |s| :: !IsUtf16Char(s[..k])
  {
    if |s| >= 2 && IsUtf16Char(s[..2]) then 2
    else if |s| >= 4 && IsUtf16Char(s[..4]) then 4
    else 0
  }

  /** Keep each character; where there is none, drop one code unit; drop a last odd byte. */
  function DecodeLeIgnore(s: Bytes): (text: seq<Scalar>) {
    if |s| < 2 then []
    else
      var n := HeadLengthLe(s);
      if n > 0 then [DecodeUnits(s[..n])] + DecodeLeIgnore(s[n..]) else DecodeLeIgnore(s[2..])
  }

  lemma KeepUnits(data: Bytes, i: nat, n: nat)
    requires i + n <= |data| && IsUtf16Char(data[i..i + n])
    ensures DecodeLeIgnore(data[i..]) == [DecodeUnits(data[i..i + n])] + DecodeLeIgnore(data[i + n..])
  {
  }

  lemma DropUnit(data: Bytes, i: nat)
    requires i + 2 <= |data| && !IsUtf16Char(data[i..i + 2])
    requires i + 4 <= |data| ==> !IsUtf16Char(data[i..i + 4])
    ensures DecodeLeIgnore(data[i..]) == DecodeLeIgnore(data[i + 2..])
  {
  }

  method DecodeUtf16LeIgnore(data: Bytes) returns (output: seq<int>)
    ensures output == DecodeLeIgnore(data)
    ensures forall k | 0 <= k < |output| :: 0 <= output[k] <= 0x10FFFF && !(0xD800 <= output[k] <= 0xDFFF)
  {
    hide DecodeLeIgnore;
    output := [];
    var i := 0;
    assert data[0..] == data;
    while i + 1 < |data|
      invariant 0 <= i <= |data|
      invariant output + DecodeLeIgnore(data[i..]) == DecodeLeIgnore(data)
    {
      var codeUnit := Unit(data[i], data[i + 1]);
      if 0xD800 <= codeUnit <= 0xDBFF {
        if i + 3 < |data| {
          var low := Unit(data[i + 2], data[i + 3]);
          if 0xDC00 <= low <= 0xDFFF {
            KeepUnits(data, i, 4);
            output := output + [PairValue(codeUnit, low)];
            i := i + 4;
            continue;
          }
        }
        DropUnit(data, i);
        i := i + 2;
        continue;
      }
      if 0xDC00 <= codeUnit <= 0xDFFF {
        DropUnit(data, i);
        i := i + 2;
        continue;
      }
      KeepUnits(data, i, 2);
      output := output + [codeUnit];
      i := i + 2;
    }
    OddByteDropped(data[i..]);
  }

  lemma OddByteDropped(s: Bytes)
    requires |s| < 2
    ensures DecodeLeIgnore(s) == []
  {
  }

  lemma HeadOfUnits(c: Bytes, rest: Bytes)
    requires IsUtf16Char(c)
    ensures HeadLengthLe(c + rest) == |c| && (c + rest)[..|c|] == c && (c + rest)[|c|..] == rest
  {
  }

  // ----- round trips -----

  lemma BytesOfUnit(low: Byte, high: Byte)
    ensures UnitBytes(Unit(low, high)) == [low, high]
  {
  }

  lemma EncodeLeIsChar(c: Scalar)
    ensures IsUtf16Char(EncodeLe(c)) && DecodeUnits(EncodeLe(c)) == c
  {
  }

  lemma EncodeUndoesDecodeUnits(c: Bytes)
    requires IsUtf16Char(c)
    ensures EncodeLe(DecodeUnits(c)) == c
  {
    BytesOfUnit(c[0], c[1]);
    if |c| == 4 {
      BytesOfUnit(c[2], c[3]);
      var high, low := Unit(c[0], c[1]), Unit(c[2], c[3]);
      hide Unit, UnitBytes;
      assert PairValue(high, low) - 0x10000 == (high - 0xD800) * 1024 + (low - 0xDC00);
      assert c == UnitBytes(high) + UnitBytes(low);
    }
  }

  lemma {:induction false} DecodeLeEncoded(text: seq<Scalar>)
    ensures DecodeLeIgnore(EncodeAllLe(text)) == text
  {
    if text != [] {
      EncodeLeIsChar(text[0]);
      HeadOfUnits(EncodeLe(text[0]), EncodeAllLe(text[1..]));
      hide EncodeLe, DecodeUnits, IsUtf16Char, HeadLengthLe;
      DecodeLeEncoded(text[1..]);
    }
  }

  predicate NoUnitDropped(s: Bytes) {
    s == [] || (HeadLengthLe(s) > 0 && NoUnitDropped(s[HeadLengthLe(s)..]))
  }

  lemma {:induction false} UnitsAreNotDropped(chars: seq<Bytes>)
    requires AllUtf16Chars(chars)
    ensures NoUnitDropped(Flatten(chars))
  {
    if chars != [] {
      UnitsAreNotDropped(chars[1..]);
      HeadOfUnits(chars[0], Flatten(chars[1..]));
    }
  }

  lemma {:induction false} PartitionIntoUnits(s: Bytes) returns (chars: seq<Bytes>)
    requires NoUnitDropped(s)
    ensures AllUtf16Chars(chars) && Flatten(chars) == s
  {
    if s == [] {
      chars := [];
    } else {
      var n := HeadLengthLe(s);
      var rest := PartitionIntoUnits(s[n..]);
      chars := [s[..n]] + rest;
      assert chars[1..] == rest;
    }
  }

  lemma ReencodeLeStep(s: Bytes)
    requires |s| >= 2
    ensures var n := HeadLengthLe(s);
            EncodeAllLe(DecodeLeIgnore(s)) ==
            if n > 0 then s[..n] + EncodeAllLe(DecodeLeIgnore(s[n..])) else EncodeAllLe(DecodeLeIgnore(s[2..]))
  {
    hide EncodeLe, DecodeUnits, IsUtf16Char, HeadLengthLe;
    var n := HeadLengthLe(s);
    if n > 0 {
      EncodeUndoesDecodeUnits(s[..n]);
      var text := DecodeLeIgnore(s);
      assert text[0] == DecodeUnits(s[..n]) && text[1..] == DecodeLeIgnore(s[n..]);
    }
  }

  lemma {:induction false} ReencodeLeLength(s: Bytes)
    ensures |EncodeAllLe(DecodeLeIgnore(s))| <= |s|
    ensures NoUnitDropped(s) ==> EncodeAllLe(DecodeLeIgnore(s)) == s
    ensures !NoUnitDropped(s) ==> |EncodeAllLe(DecodeLeIgnore(s))| < |s|
  {
    if |s| >= 2 {
      hide EncodeAllLe, DecodeLeIgnore, HeadLengthLe;
      ReencodeLeStep(s);
      var n := HeadLengthLe(s);
      ReencodeLeLength(s[if n > 0 then n else 2..]);
    }
  }

  /** The bytes survive decode-then-encode exactly when they are well-formed UTF-16LE. */
  lemma WellFormedLeIffReencodes(s: Bytes)
    ensures WellFormedLe(s) <==> EncodeAllLe(DecodeLeIgnore(s)) == s
  {
    ReencodeLeLength(s);
    if WellFormedLe(s) {
      var chars: seq<Bytes> :| AllUtf16Chars(chars) && Flatten(chars) == s;
      UnitsAreNotDropped(chars);
    }
    if NoUnitDropped(s) {
      var chars := PartitionIntoUnits(s);
    }
  }

  /** Whatever was dropped, what is left re-encodes to well-formed bytes with the same reading. */
  lemma DecodingLeSettles(s: Bytes)
    ensures WellFormedLe(EncodeAllLe(DecodeLeIgnore(s))) && DecodeLeIgnore(EncodeAllLe(DecodeLeIgnore(s))) == DecodeLeIgnore(s)
  {
    DecodeLeEncoded(DecodeLeIgnore(s));
    WellFormedLeIffReencodes(EncodeAllLe(DecodeLeIgnore(s)));
  }
}
