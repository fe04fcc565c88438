/**
 * Lines of decoded text: decoding a file line by line against decoding it whole and
 * splitting the text, in `strict` and in `ignore` mode.
 */
module DecodedLines {
  import opened Sequences
  import opened Utf8
  import opened LineText
  import opened FileReading
  import opened TailReading

  type Text = seq<Scalar>

  const LINE_FEED: Scalar := 0x0A
  const BOM: Scalar := 0xFEFF
  const BOM_BYTES: Bytes := [0xEF, 0xBB, 0xBF]

  datatype Errors = Strict | Ignore

  function StripBom(text: Text): Text {
    if text != [] && text[0] == BOM then text[1..] else text
  }

  /** `decodeTextWithErrors` for UTF-8; None is the error `strict` throws. */
  function DecodeText(data: Bytes, errors: Errors, ignoreBom: bool): Option<Text> {
    match errors
    case Ignore => Some(DecodeIgnore(data))
    case Strict =>
      if !NothingDropped(data) then None
      else Some(if ignoreBom then DecodeIgnore(data) else StripBom(DecodeIgnore(data)))
  }

  /** What the line reader yields for the lines it was handed. */
  function Yielded(located: seq<LocatedLine>, errors: Errors): seq<Option<Text>> {
    seq(|located|, i requires 0 <= i < |located| => DecodeText(located[i].line, errors, located[i].offset != 0))
  }

  function DecodeEach(lines: seq<Bytes>): seq<Text> {
    if lines == [] then [] else [DecodeIgnore(lines[0])] + DecodeEach(lines[1..])
  }

  lemma {:induction false} DecodeEachAt(lines: seq<Bytes>)
    ensures |DecodeEach(lines)| == |lines|
    ensures forall i | 0 <= i < |lines| :: DecodeEach(lines)[i] == DecodeIgnore(lines[i])
  {
    if lines != [] {
      DecodeEachAt(lines[1..]);
      assert forall i | 1 <= i < |lines| :: lines[i] == lines[1..][i - 1];
    }
  }

  // ----- an ASCII byte separates what is decoded before it from what comes after -----

  lemma HeadStopsAtAscii(a: Bytes, b: Byte, rest: Bytes)
    requires a != [] && b < 0x80
    ensures HeadLength(a + [b] + rest) == HeadLength(a)
  {
  }

  /** What decoding and the check do with the first character, or the first stray byte. */
  lemma FirstStep(s: Bytes, n: nat)
    requires s != [] && n == HeadLength(s)
    ensures n > 0 ==> DecodeIgnore(s) == [DecodeChar(s[..n])] + DecodeIgnore(s[n..])
    ensures n == 0 ==> DecodeIgnore(s) == DecodeIgnore(s[1..])
    ensures NothingDropped(s) <==> n > 0 && NothingDropped(s[n..])
  {
    hide IsUtf8Char, DecodeChar, HeadLength;
  }

  lemma {:induction false} AsciiSeparates(a: Bytes, b: Byte, rest: Bytes)
    requires b < 0x80
    ensures DecodeIgnore(a + [b] + rest) == DecodeIgnore(a) + [b] + DecodeIgnore(rest)
    ensures NothingDropped(a + [b] + rest) <==> NothingDropped(a) && NothingDropped(rest)
  {
    hide HeadLength, IsUtf8Char, DecodeChar, DecodeIgnore, NothingDropped;
    var s := a + [b] + rest;
    if a == [] {
      AsciiFirst(a, b, rest);
    } else {
      HeadStopsAtAscii(a, b, rest);
      var n := HeadLength(a);
      var k := if n > 0 then n else 1;
      assert s[..n] == a[..n] && s[k..] == a[k..] + [b] + rest;
      FirstStep(s, n);
      FirstStep(a, n);
      AsciiSeparates(a[k..], b, rest);
      var head, tail: Text := if n > 0 then [DecodeChar(a[..n])] else [], DecodeIgnore(a[k..]);
      var after: Text := DecodeIgnore(rest);
      assert DecodeIgnore(a) == head + tail;
      assert DecodeIgnore(s) == head + (tail + [b] + after) == (head + tail) + [b] + after;
    }
  }

  lemma AsciiFirst(a: Bytes, b: Byte, rest: Bytes)
    requires b < 0x80 && a == []
    ensures DecodeIgnore(a + [b] + rest) == DecodeIgnore(a) + [b] + DecodeIgnore(rest)
    ensures NothingDropped(a + [b] + rest) <==> NothingDropped(a) && NothingDropped(rest)
  {
    assert a + [b] + rest == [b] + rest;
    AsciiHead(b, rest);
  }

  lemma AsciiHead(b: Byte, rest: Bytes)
    requires b < 0x80
    ensures DecodeIgnore([b] + rest) == [b] + DecodeIgnore(rest)
    ensures NothingDropped([b] + rest) <==> NothingDropped(rest)
  {
  }

  lemma {:induction false} NoLineFeedDecoded(s: Bytes)
    requires LF !in s
    ensures LINE_FEED !in DecodeIgnore(s)
  {
    hide HeadLength, IsUtf8Char, DecodeChar;
    if s != [] {
      var n := HeadLength(s);
      if n > 0 {
        NoLineFeedDecoded(s[n..]);
        LineFeedIsOneByte(s[..n]);
      } else {
        NoLineFeedDecoded(s[1..]);
      }
    }
  }

  lemma LineFeedIsOneByte(c: Bytes)
    requires IsUtf8Char(c) && LF !in c
    ensures DecodeChar(c) != LINE_FEED
  {
  }

  // ----- line by line against whole -----

  function WithoutEmptyTail(texts: seq<Text>): seq<Text> {
    if texts != [] && texts[|texts| - 1] == [] then texts[..|texts| - 1] else texts
  }

  lemma FirstLineDecoded(line: Bytes, rest: seq<Bytes>)
    ensures DecodeEach([line] + rest) == [DecodeIgnore(line)] + DecodeEach(rest)
    ensures Flatten(DecodeEach([line] + rest)) == DecodeIgnore(line) + Flatten(DecodeEach(rest))
    ensures DecodeIgnore(line) != [] ==>
      WithoutEmptyTail(DecodeEach([line] + rest)) == [DecodeIgnore(line)] + WithoutEmptyTail(DecodeEach(rest))
  {
  }

  /**
   * Every line decoded on its own, for any bytes at all: together they are the decoded
   * whole, and they are its lines but for a last one that decodes to nothing.
   */
  lemma {:induction false} DecodeByLine(s: Bytes)
    ensures Flatten(DecodeEach(Lines(s, LF))) == DecodeIgnore(s)
    ensures Lines(DecodeIgnore(s), LINE_FEED) == WithoutEmptyTail(DecodeEach(Lines(s, LF)))
  {
    if s == [] {
      NothingDecoded();
    } else {
      var n := LineLength(s, LF);
      var lines := Lines(s[n..], LF);
      assert Lines(s, LF) == [s[..n]] + lines;
      hide Lines, DecodeIgnore, DecodeEach, LineLength, WithoutEmptyTail;
      FirstLineDecoded(s[..n], lines);
      if s[n - 1] == LF {
        DecodeByLine(s[n..]);
        TerminatedLineDecoded(s, n);
        LinesOfConcat(DecodeIgnore(s[..n]), DecodeIgnore(s[n..]), LINE_FEED);
        LinesOfOne(DecodeIgnore(s[..n]), LINE_FEED);
      } else {
        assert s[..n] == s && s[n..] == [];
        NothingDecoded();
        LastLineDecoded(s);
      }
    }
  }

  lemma NothingDecoded()
    ensures Lines<Byte>([], LF) == [] && DecodeEach([]) == [] && DecodeIgnore([]) == []
    ensures Lines<Scalar>([], LINE_FEED) == [] && WithoutEmptyTail([]) == []
  {
  }

  lemma TerminatedLineDecoded(s: Bytes, n: nat)
    requires 0 < n <= |s| && s[n - 1] == LF
    requires forall i | 0 <= i < n - 1 :: s[i] != LF
    ensures IsLine(DecodeIgnore(s[..n]), LINE_FEED) && Terminated(DecodeIgnore(s[..n]), LINE_FEED)
    ensures DecodeIgnore(s) == DecodeIgnore(s[..n]) + DecodeIgnore(s[n..])
  {
    hide DecodeIgnore, DecodeEach, Lines, WithoutEmptyTail, NothingDropped;
    var a, rest := s[..n - 1], s[n..];
    assert s == a + [LF] + rest;
    assert s[..n] == a + [LF] + [];
    AsciiSeparates(a, LF, rest);
    AsciiSeparates(a, LF, []);
    NothingDecoded();
    NoLineFeedDecoded(a);
    assert DecodeIgnore(s[..n]) == DecodeIgnore(a) + [LINE_FEED];
  }

  lemma LastLineDecoded(s: Bytes)
    requires LF !in s
    ensures Flatten<Scalar>([]) == []
    ensures Lines(DecodeIgnore(s), LINE_FEED) == WithoutEmptyTail([DecodeIgnore(s)])
  {
    hide DecodeIgnore;
    NoLineFeedDecoded(s);
    if DecodeIgnore(s) != [] {
      LinesOfOne(DecodeIgnore(s), LINE_FEED);
    }
  }

  lemma {:induction false} LocatedAt(lines: seq<Bytes>, offset: nat)
    requires forall i | 0 <= i < |lines| :: lines[i] != []
    ensures forall i | 0 <= i < |lines| :: Located(lines, offset)[i].line == lines[i]
    ensures forall i | 0 < i < |lines| :: Located(lines, offset)[i].offset > 0
    ensures lines != [] ==> Located(lines, offset)[0].offset == offset
  {
    if lines != [] {
      LocatedAt(lines[1..], offset + |lines[0]|);
      assert forall i | 1 <= i < |lines| :: lines[i] == lines[1..][i - 1];
    }
  }

  lemma AllLinesAt(content: Bytes)
    ensures |AllLines(content)| == |Lines(content, LF)|
    ensures forall i | 0 <= i < |AllLines(content)| ::
      AllLines(content)[i].line == Lines(content, LF)[i] && (AllLines(content)[i].offset == 0 <==> i == 0)
  {
    LinesPartition(content, LF);
    LocatedAt(Lines(content, LF), 0);
  }

  // ----- ignore mode -----

  function Somes(texts: seq<Text>): seq<Option<Text>> {
    seq(|texts|, i requires 0 <= i < |texts| => Some(texts[i]))
  }

  lemma YieldedIgnored(content: Bytes)
    ensures Yielded(AllLines(content), Ignore) == Somes(DecodeEach(Lines(content, LF)))
  {
    AllLinesAt(content);
    DecodeEachAt(Lines(content, LF));
  }

  /** Is there a well-formed character somewhere in the bytes? */
  ghost predicate HoldsChar(s: Bytes) {
    exists i, j :: 0 <= i <= j <= |s| && IsUtf8Char(s[i..j])
  }

  lemma NoCharFirst(s: Bytes, i: nat, j: nat)
    requires HeadLength(s) == 0 && i <= j <= |s| && IsUtf8Char(s[i..j])
    ensures i > 0
  {
    hide IsUtf8Char;
    assert s[0..j] == s[..j];
  }

  lemma HoldsCharLater(s: Bytes)
    requires s != [] && HeadLength(s) == 0
    ensures HoldsChar(s) <==> HoldsChar(s[1..])
  {
    hide HeadLength, IsUtf8Char;
    var tail := s[1..|s|];
    assert tail == s[1..];
    if i, j :| 0 <= i <= j <= |s| && IsUtf8Char(s[i..j]) {
      NoCharFirst(s, i, j);
      SliceOfSlice(s, 1, |s|, i - 1, j - 1);
      assert IsUtf8Char(tail[i - 1..j - 1]);
    }
    if i, j :| 0 <= i <= j <= |tail| && IsUtf8Char(tail[i..j]) {
      SliceOfSlice(s, 1, |s|, i, j);
      assert IsUtf8Char(s[i + 1..j + 1]);
    }
  }

  lemma {:induction false} HoldsCharIfDecoded(s: Bytes)
    ensures HoldsChar(s) <==> DecodeIgnore(s) != []
  {
    hide IsUtf8Char, DecodeChar;
    if s == [] {
      EmptyIsNoChar();
    } else {
      var n := HeadLength(s);
      FirstStep(s, n);
      if n > 0 {
        assert s[0..n] == s[..n];
      } else {
        hide HoldsChar;
        HoldsCharLater(s);
        HoldsCharIfDecoded(s[1..]);
      }
    }
  }

  lemma EmptyIsNoChar()
    ensures !IsUtf8Char([])
  {
  }

  /** Does the last line, if there is one, hold a well-formed character? */
  ghost predicate LastLineVisible(content: Bytes) {
    var lines := Lines(content, LF);
    lines == [] || HoldsChar(lines[|lines| - 1])
  }

  lemma VisibleIfDecoded(content: Bytes)
    ensures LastLineVisible(content) <==>
            var lines := Lines(content, LF); lines == [] || DecodeIgnore(lines[|lines| - 1]) != []
  {
    var lines := Lines(content, LF);
    if lines != [] {
      HoldsCharIfDecoded(lines[|lines| - 1]);
    }
  }

  /** The one byte 0xFF is a line that decodes to nothing, while the decoded whole has no line. */
  lemma InvisibleLine()
    ensures !LastLineVisible([0xFF])
    ensures Yielded(AllLines([0xFF]), Ignore) == [Some([])] && Lines(DecodeIgnore([0xFF]), LINE_FEED) == []
  {
    LinesOfOne([0xFF], LF);
    assert DecodeIgnore([0xFF]) == [] by {
      assert HeadLength([0xFF]) == 0;
      assert [0xFF][1..] == [] && DecodeIgnore([]) == [];
    }
    YieldedIgnored([0xFF]);
    VisibleIfDecoded([0xFF]);
    assert DecodeEach([[0xFF]]) == [DecodeIgnore([0xFF])] + DecodeEach([]);
  }

  /**
   * `readLines` in ignore mode, for every content: nothing is lost or added, and the
   * lines are those of the decoded whole exactly when the last line is visible.
   */
  lemma IgnoredLines(content: Bytes)
    ensures Yielded(AllLines(content), Ignore) == Somes(DecodeEach(Lines(content, LF)))
    ensures Flatten(DecodeEach(Lines(content, LF))) == DecodeIgnore(content)
    ensures Yielded(AllLines(content), Ignore) == Somes(Lines(DecodeIgnore(content), LINE_FEED)) <==> LastLineVisible(content)
  {
    var lines := Lines(content, LF);
    var texts := DecodeEach(lines);
    YieldedIgnored(content);
    VisibleIfDecoded(content);
    DecodeByLine(content);
    DecodeEachAt(lines);
    hide HoldsChar, Lines, DecodeEach, DecodeIgnore, Yielded, AllLines;
    if !LastLineVisible(content) {
      assert |Somes(Lines(DecodeIgnore(content), LINE_FEED))| != |Somes(texts)|;
    }
  }

  // ----- strict mode -----

  ghost predicate AllWellFormed(lines: seq<Bytes>) {
    forall i | 0 <= i < |lines| :: NothingDropped(lines[i])
  }

  lemma AllWellFormedFirst(line: Bytes, rest: seq<Bytes>)
    ensures AllWellFormed([line] + rest) <==> NothingDropped(line) && AllWellFormed(rest)
  {
    hide NothingDropped;
    var lines := [line] + rest;
    assert lines[0] == line && forall i | 0 <= i < |rest| :: rest[i] == lines[i + 1];
    assert forall i | 1 <= i < |lines| :: lines[i] == rest[i - 1];
  }

  lemma WellFormedAfterLine(line: Bytes, rest: Bytes)
    requires line != [] && (line[|line| - 1] == LF || rest == [])
    ensures NothingDropped(line + rest) <==> NothingDropped(line) && NothingDropped(rest)
  {
    hide NothingDropped, DecodeIgnore;
    if rest == [] {
      assert line + rest == line;
      EmptyIsWellFormed();
    } else {
      var body := line[..|line| - 1];
      assert body + [LF] + rest == line + rest && body + [LF] + [] == line;
      AsciiSeparates(body, LF, rest);
      AsciiSeparates(body, LF, []);
      EmptyIsWellFormed();
    }
  }

  lemma {:induction false} WellFormedByLine(s: Bytes)
    ensures NothingDropped(s) <==> AllWellFormed(Lines(s, LF))
  {
    if s != [] {
      hide Lines, LineLength, NothingDropped, AllWellFormed;
      LinesFromFirst(s, LF);
      var n := LineLength(s, LF);
      assert s == s[..n] + s[n..];
      AllWellFormedFirst(s[..n], Lines(s[n..], LF));
      WellFormedByLine(s[n..]);
      WellFormedAfterLine(s[..n], s[n..]);
    }
  }

  lemma EmptyIsWellFormed()
    ensures NothingDropped([])
  {
  }

  /** `readLines` in strict mode throws at some line exactly when the file is ill-formed. */
  lemma StrictLinesThrow(content: Bytes)
    ensures (forall i | 0 <= i < |AllLines(content)| :: Yielded(AllLines(content), Strict)[i].Some?) <==> WellFormed(content)
  {
    AllLinesAt(content);
    WellFormedByLine(content);
    WellFormedIffNothingDropped(content);
    var all, lines := AllLines(content), Lines(content, LF);
    var yielded := Yielded(all, Strict);
    assert forall i | 0 <= i < |lines| :: yielded[i].Some? <==> NothingDropped(lines[i]);
  }

  /** Every line of a well-formed file is visible. */
  lemma VisibleLines(content: Bytes)
    requires NothingDropped(content)
    ensures forall i | 0 <= i < |Lines(content, LF)| :: DecodeIgnore(Lines(content, LF)[i]) != []
    ensures Lines(DecodeIgnore(content), LINE_FEED) == DecodeEach(Lines(content, LF))
  {
    LinesPartition(content, LF);
    WellFormedByLine(content);
    DecodeByLine(content);
    DecodeEachAt(Lines(content, LF));
  }

  function StripFirst(texts: seq<Text>): seq<Text> {
    if texts == [] then [] else [StripBom(texts[0])] + texts[1..]
  }

  /** Only the line at offset 0 may lose a byte order mark. */
  lemma StrictLineText(line: Bytes, ignoreBom: bool)
    requires NothingDropped(line)
    ensures DecodeText(line, Strict, ignoreBom) == Some(if ignoreBom then DecodeIgnore(line) else StripBom(DecodeIgnore(line)))
  {
  }

  lemma YieldedStrictly(content: Bytes)
    requires NothingDropped(content)
    ensures Yielded(AllLines(content), Strict) == Somes(StripFirst(DecodeEach(Lines(content, LF))))
  {
    hide Lines, AllLines, DecodeEach, DecodeIgnore, NothingDropped, DecodeText, StripBom;
    var lines := Lines(content, LF);
    var texts := DecodeEach(lines);
    AllLinesAt(content);
    WellFormedByLine(content);
    DecodeEachAt(lines);
    var y, t := Yielded(AllLines(content), Strict), Somes(StripFirst(texts));
    assert |y| == |t| == |lines|;
    forall i | 0 <= i < |y| ensures y[i] == t[i] {
      StrictLineText(lines[i], i != 0);
    }
  }

  /** Removing a byte order mark changes the first line only, unless it is all there is. */
  lemma LinesAfterBom(texts: seq<Text>)
    requires IsLineList(texts, LINE_FEED)
    ensures Lines(StripBom(Flatten(texts)), LINE_FEED) == if texts == [[BOM]] then [] else StripFirst(texts)
  {
    hide Lines;
    NothingDecoded();
    if texts != [] {
      BomInFirst(texts);
      if StripBom(texts[0]) == [] {
        BomAlone(texts);
        assert Flatten(texts[1..]) == [];
      } else {
        hide IsLineList;
        LinesOfStripped(texts);
      }
    }
  }

  lemma BomInFirst(texts: seq<Text>)
    requires texts != [] && texts[0] != []
    ensures StripBom(Flatten(texts)) == StripBom(texts[0]) + Flatten(texts[1..])
  {
  }

  lemma BomAlone(texts: seq<Text>)
    requires IsLineList(texts, LINE_FEED) && texts != [] && StripBom(texts[0]) == []
    ensures texts == [[BOM]]
  {
    assert texts[0] == [BOM];
    assert |texts| == 1;
  }

  lemma LinesOfStripped(texts: seq<Text>)
    requires IsLineList(texts, LINE_FEED) && texts != [] && StripBom(texts[0]) != []
    ensures Lines(StripBom(texts[0]) + Flatten(texts[1..]), LINE_FEED) == [StripBom(texts[0])] + texts[1..]
  {
    hide Lines, IsLineList;
    var stripped := [StripBom(texts[0])] + texts[1..];
    StripKeepsLines(texts);
    assert stripped[1..] == texts[1..];
    assert Flatten(stripped) == StripBom(texts[0]) + Flatten(texts[1..]);
    LinesUnique(stripped, LINE_FEED);
  }

  lemma StripKeepsLines(texts: seq<Text>)
    requires IsLineList(texts, LINE_FEED) && texts != [] && StripBom(texts[0]) != []
    ensures IsLineList([StripBom(texts[0])] + texts[1..], LINE_FEED)
  {
  }

  lemma BomOnly(content: Bytes)
    requires NothingDropped(content)
    ensures DecodeIgnore(content) == [BOM] <==> content == BOM_BYTES
  {
    hide DecodeIgnore, NothingDropped, HeadLength;
    var bom: Text := [BOM];
    assert EncodeAll(bom) == BOM_BYTES by {
      assert bom[1..] == [];
      assert EncodeAll(bom) == Encode(BOM) + EncodeAll([]);
    }
    hide EncodeAll, Encode;
    ReencodeLength(content);
    DecodeUndoesEncode(bom);
  }

  /**
   * `readLines` in strict mode on a well-formed file, byte order mark or not: the same
   * lines as splitting the whole text, unless the file is nothing but the mark.
   */
  lemma StrictLines(content: Bytes)
    requires WellFormed(content)
    ensures DecodeText(content, Strict, false).Some?
    ensures Yielded(AllLines(content), Strict) == Somes(Lines(DecodeText(content, Strict, false).value, LINE_FEED))
            <==> content != BOM_BYTES
  {
    WellFormedIffNothingDropped(content);
    YieldedStrictly(content);
    StrictText(content);
    var texts := DecodeEach(Lines(content, LF));
    var expected := Lines(StripBom(DecodeIgnore(content)), LINE_FEED);
    assert |Somes(StripFirst(texts))| == |texts| && |Somes(expected)| == |expected|;
  }

  lemma StrictText(content: Bytes)
    requires NothingDropped(content)
    ensures var texts := DecodeEach(Lines(content, LF));
            && (texts == [[BOM]] <==> content == BOM_BYTES)
            && Lines(StripBom(DecodeIgnore(content)), LINE_FEED) == if content == BOM_BYTES then [] else StripFirst(texts)
  {
    var texts := DecodeEach(Lines(content, LF));
    VisibleLines(content);
    DecodeByLine(content);
    LinesPartition(DecodeIgnore(content), LINE_FEED);
    LinesAfterBom(texts);
    BomOnly(content);
    if texts == [[BOM]] {
      assert Flatten(texts) == [BOM];
    }
    if content == BOM_BYTES {
      LinesOfOne([BOM], LINE_FEED);
    }
  }

  // ----- readTailLines -----

  /** The lines yielded for a tail that starts at `start`. */
  function TailText(content: Bytes, start: nat, errors: Errors): Option<seq<Text>>
    requires start <= |content|
  {
    match DecodeText(content[start..], errors, start != 0)
    case None => None
    case Some(text) => Some(Lines(text, LINE_FEED))
  }

  /** What `ReadTailLines` promises of the offset it finds where its reads fill their buffers. */
  ghost predicate IsTailStart(content: Bytes, start: nat, count: int) {
    && start <= |content| && (start == 0 || content[start - 1] == LF)
    && Lines(content[start..], LF) == LastLines(Lines(content, LF), count)
  }

  lemma {:induction false} DecodeEachConcat(a: seq<Bytes>, b: seq<Bytes>)
    ensures DecodeEach(a + b) == DecodeEach(a) + DecodeEach(b)
  {
    if a == [] {
      assert a + b == b;
    } else {
      assert (a + b)[1..] == a[1..] + b;
      hide DecodeIgnore;
      DecodeEachConcat(a[1..], b);
    }
  }

  lemma DecodeLast(lines: seq<Bytes>, count: int)
    ensures DecodeEach(LastLines(lines, count)) == LastLines(DecodeEach(lines), count)
  {
    hide DecodeIgnore, DecodeEach;
    var tail := LastLines(lines, count);
    var head := lines[..|lines| - |tail|];
    assert lines == head + tail;
    DecodeEachConcat(head, tail);
    DecodeEachAt(lines);
    DecodeEachAt(head);
  }

  lemma TailIsAll(content: Bytes, start: nat)
    requires start <= |content| && (start == 0 || content[start - 1] == LF)
    ensures start == 0 <==> |Lines(content[start..], LF)| == |Lines(content, LF)|
  {
    hide Lines;
    if start == 0 {
      assert content[0..] == content;
    } else {
      assert content == content[..start] + content[start..];
      LinesOfConcat(content[..start], content[start..], LF);
      LastLineOf(content[..start], LF);
    }
  }

  lemma DecodeTail(content: Bytes, start: nat, count: int)
    requires IsTailStart(content, start, count)
    ensures DecodeEach(Lines(content[start..], LF)) == LastLines(DecodeEach(Lines(content, LF)), count)
    ensures start == 0 <==> |Lines(content[start..], LF)| == |Lines(content, LF)|
  {
    hide Lines, DecodeEach, LastLines;
    DecodeLast(Lines(content, LF), count);
    TailIsAll(content, start);
  }

  lemma WellFormedTail(content: Bytes, start: nat)
    requires NothingDropped(content) && start <= |content| && (start == 0 || content[start - 1] == LF)
    ensures NothingDropped(content[start..])
  {
    hide NothingDropped, DecodeIgnore, HeadLength;
    if start == 0 {
      assert content[0..] == content;
    } else {
      assert content == content[..start - 1] + [LF] + content[start..];
      AsciiSeparates(content[..start - 1], LF, content[start..]);
    }
  }

  lemma LastOfStripped(texts: seq<Text>, count: int)
    requires 1 <= count < |texts|
    ensures LastLines(StripFirst(texts), count) == LastLines(texts, count)
  {
  }

  lemma LastOfVisible(texts: seq<Text>, count: int)
    requires 1 <= count < |texts|
    ensures WithoutEmptyTail(LastLines(texts, count)) == LastLines(WithoutEmptyTail(texts), count)
            <==> texts[|texts| - 1] != []
  {
  }

  lemma AllAreLast<T>(lines: seq<T>, count: int)
    requires |lines| <= count
    ensures LastLines(lines, count) == lines
  {
  }

  lemma TailLength(content: Bytes, start: nat, count: int)
    requires count >= 1 && IsTailStart(content, start, count)
    ensures if start == 0 then |Lines(content, LF)| <= count else count < |Lines(content, LF)|
  {
    DecodeTail(content, start, count);
  }

  /** On a well-formed file, the last lines of the text `strict` decodes from the whole. */
  lemma StrictTail(content: Bytes, start: nat, count: int)
    requires WellFormed(content) && count >= 1 && IsTailStart(content, start, count)
    ensures DecodeText(content, Strict, false).Some?
    ensures TailText(content, start, Strict) ==
            Some(LastLines(Lines(DecodeText(content, Strict, false).value, LINE_FEED), count))
  {
    hide Lines, DecodeEach, DecodeIgnore, LastLines, StripBom, StripFirst, HeadLength, NothingDropped, WellFormed;
    WellFormedIffNothingDropped(content);
    WellFormedTail(content, start);
    StrictText(content);
    TailLength(content, start, count);
    DecodeEachAt(Lines(content, LF));
    var texts := DecodeEach(Lines(content, LF));
    if start == 0 {
      assert content[0..] == content;
      StripFirstLength(texts);
      AllAreLast(Lines(StripBom(DecodeIgnore(content)), LINE_FEED), count);
    } else {
      DecodeTail(content, start, count);
      VisibleLines(content[start..]);
      BomIsOneLine();
      LastOfStripped(texts, count);
    }
  }

  lemma StripFirstLength(texts: seq<Text>)
    ensures |StripFirst(texts)| == |texts|
  {
  }

  lemma BomIsOneLine()
    ensures |Lines(BOM_BYTES, LF)| == 1
  {
  }

  /**
   * In ignore mode the tail is the last lines of the decoded whole exactly when the last
   * line is visible or the tail is the whole file.
   */
  lemma IgnoredTail(content: Bytes, start: nat, count: int)
    requires count >= 1 && IsTailStart(content, start, count)
    ensures TailText(content, start, Ignore) == Some(LastLines(Lines(DecodeIgnore(content), LINE_FEED), count))
            <==> LastLineVisible(content) || start == 0
  {
    hide Lines, DecodeEach, DecodeIgnore, LastLines, WithoutEmptyTail, HoldsChar;
    VisibleIfDecoded(content);
    var lines := Lines(content, LF);
    var texts := DecodeEach(lines);
    DecodeByLine(content);
    DecodeByLine(content[start..]);
    DecodeEachAt(lines);
    TailLength(content, start, count);
    if start == 0 {
      assert content[0..] == content;
      WithoutEmptyTailLength(texts);
      AllAreLast(Lines(DecodeIgnore(content), LINE_FEED), count);
    } else {
      DecodeTail(content, start, count);
      LastOfVisible(texts, count);
    }
  }

  lemma WithoutEmptyTailLength(texts: seq<Text>)
    ensures |WithoutEmptyTail(texts)| <= |texts|
  {
  }
}
