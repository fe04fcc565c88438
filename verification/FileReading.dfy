/**
 * The readers of LocalKaos that go through a file handle block by block.  How many bytes
 * one `read` delivers is left open, so every result holds for every block size and every
 * sequence of short reads.
 */
module FileReading {
  import opened Sequences
  import opened Utf8
  import opened LineText

  /** An open file whose content does not change while it is read. */
  class FileHandle {
    const content: Bytes
    var position: nat

    constructor (content: Bytes)
      ensures this.content == content && position == 0
    {
      this.content := content;
      position := 0;
    }

    /** `fh.read(buf, 0, buf.length, null)`: some bytes, none only at the end of the file. */
    method Read(buf: array<Byte>) returns (bytesRead: nat)
      requires position <= |content| && buf.Length > 0
      modifies this`position, buf
      ensures bytesRead <= buf.Length && position == old(position) + bytesRead <= |content|
      ensures bytesRead == 0 <==> old(position) == |content|
      ensures buf[..bytesRead] == content[old(position)..position]
      ensures buf[bytesRead..] == old(buf[bytesRead..])
    {
      bytesRead := ReadAt(buf, 0, buf.Length, position);
      position := position + bytesRead;
      assert buf[..bytesRead] == buf[0..bytesRead];
    }

    /** `fh.read(buf, offset, length, at)`, which may also deliver less than asked for. */
    method ReadAt(buf: array<Byte>, offset: nat, length: nat, at: nat) returns (bytesRead: nat)
      requires offset + length <= buf.Length && at <= |content| && length > 0
      modifies buf
      ensures bytesRead <= length && at + bytesRead <= |content|
      ensures bytesRead == 0 <==> at == |content|
      ensures buf[offset..offset + bytesRead] == content[at..at + bytesRead]
      ensures forall k | 0 <= k < buf.Length && !(offset <= k < offset + bytesRead) :: buf[k] == old(buf[k])
    {
      var available := Min(length, |content| - at);
      bytesRead := 0;
      if available > 0 {
        bytesRead :| 1 <= bytesRead <= available;
      }
      forall k | 0 <= k < bytesRead {
        buf[offset + k] := content[at + k];
      }
    }
  }

  // ----- readLines and readLineRange -----

  /** What the reader hands to the decoder: the bytes of a line and where they start. */
  datatype LocatedLine = LocatedLine(line: Bytes, offset: nat)

  function Located(lines: seq<Bytes>, offset: nat): (located: seq<LocatedLine>)
    ensures |located| == |lines|
  {
    if lines == [] then []
    else [LocatedLine(lines[0], offset)] + Located(lines[1..], offset + |lines[0]|)
  }

  lemma {:induction false} LocatedConcat(a: seq<Bytes>, b: seq<Bytes>, offset: nat)
    ensures Located(a + b, offset) == Located(a, offset) + Located(b, offset + |Flatten(a)|)
  {
    if a == [] {
      assert a + b == b;
    } else {
      assert (a + b)[1..] == a[1..] + b;
      assert |Flatten(a)| == |a[0]| + |Flatten(a[1..])|;
      hide Flatten;
      LocatedConcat(a[1..], b, offset + |a[0]|);
    }
  }

  /** All lines of a file with their offsets. */
  function AllLines(content: Bytes): seq<LocatedLine> {
    Located(Lines(content, LF), 0)
  }

  /** Drop the lines before `startLine` (counted from 1). */
  function FromLine(all: seq<LocatedLine>, startLine: int): seq<LocatedLine> {
    all[Min(Max(startLine, 1) - 1, |all|)..]
  }

  /** At most `maxLines` lines, where a limit below 1 counts as 1 and None as no limit. */
  function AtMost(all: seq<LocatedLine>, maxLines: Option<int>): seq<LocatedLine> {
    if maxLines.None? then all else all[..Min(Max(maxLines.value, 1), |all|)]
  }

  /** Each line starts where the lines before it end. */
  lemma {:induction false} LineOffset(lines: seq<Bytes>, offset: nat, i: nat)
    requires i < |lines|
    ensures Located(lines, offset)[i] == LocatedLine(lines[i], offset + |Flatten(lines[..i])|)
  {
    if i == 0 {
      assert lines[..0] == [];
    } else {
      LineOffset(lines[1..], offset + |lines[0]|, i - 1);
      FlattenCons(lines[0], lines[1..][..i - 1]);
      assert lines[..i] == [lines[0]] + lines[1..][..i - 1];
    }
  }

  /** The lines asked for: from `startLine`, counted from 1, and so many of them. */
  lemma LinesAskedFor(content: Bytes, startLine: int, maxLines: Option<int>)
    ensures var lines, found := Lines(content, LF), AtMost(FromLine(AllLines(content), startLine), maxLines);
            var first := if startLine <= 1 then 0 else startLine - 1;
            var rest := if first <= |lines| then |lines| - first else 0;
            var most := if maxLines == None then rest else if maxLines.value <= 1 then 1 else maxLines.value;
            && |found| == (if most < rest then most else rest)
            && forall i | 0 <= i < |found| :: found[i] == LocatedLine(lines[first + i], |Flatten(lines[..first + i])|)
  {
    hide Lines, Flatten, Located;
    var lines, found := Lines(content, LF), AtMost(FromLine(AllLines(content), startLine), maxLines);
    var first := if startLine <= 1 then 0 else startLine - 1;
    forall i | 0 <= i < |found| ensures found[i] == LocatedLine(lines[first + i], |Flatten(lines[..first + i])|) {
      assert found[i] == AllLines(content)[first + i];
      LineOffset(lines, 0, first + i);
    }
  }

  predicate Full(yielded: nat, maxLines: Option<int>) {
    maxLines.Some? && yielded >= maxLines.value && yielded >= 1
  }

  /** Lines already found in the file up to `base`, a line start. */
  lemma NextLine(content: Bytes, base: nat, end: nat)
    requires base < end <= |content|
    requires base == 0 || content[base - 1] == LF
    requires forall k | base <= k < end - 1 :: content[k] != LF
    ensures AllLines(content[..end]) == AllLines(content[..base]) + [LocatedLine(content[base..end], base)]
  {
    hide Lines, IsLineList;
    ExtendLines(content, base, end, LF);
    var before := Lines(content[..base], LF);
    LinesPartition(content[..base], LF);
    LocatedConcat(before, [content[base..end]], 0);
  }

  lemma FromLineSnoc(all: seq<LocatedLine>, next: LocatedLine, startLine: int)
    ensures FromLine(all + [next], startLine) ==
            FromLine(all, startLine) + if |all| + 1 >= startLine then [next] else []
  {
  }

  lemma FromLinePrefix(found: seq<LocatedLine>, more: seq<LocatedLine>, startLine: int, maxLines: Option<int>)
    requires FromLine(found, startLine) != []
    requires maxLines.Some? && |FromLine(found, startLine)| == Max(maxLines.value, 1)
    ensures AtMost(FromLine(found + more, startLine), maxLines) == FromLine(found, startLine)
  {
  }

  lemma AllLinesSplit(content: Bytes, base: nat)
    requires base <= |content|
    requires base == 0 || content[base - 1] == LF
    ensures AllLines(content) == AllLines(content[..base]) + Located(Lines(content[base..], LF), base)
  {
    hide Lines, IsLineList, Flatten, Located;
    var head, tail := content[..base], content[base..];
    assert content == head + tail;
    LinesOfConcat(head, tail, LF);
    LinesPartition(head, LF);
    LocatedConcat(Lines(head, LF), Lines(tail, LF), 0);
  }

  function Joined(pending: seq<array<Byte>>): (joined: Bytes)
    reads pending
  {
    if pending == [] then [] else pending[0][..] + Joined(pending[1..])
  }

  lemma {:induction false} JoinedSnoc(pending: seq<array<Byte>>, tail: array<Byte>)
    ensures Joined(pending + [tail]) == Joined(pending) + tail[..]
  {
    if pending == [] {
      assert pending + [tail] == [tail];
      assert Joined([tail]) == tail[..] + [];
    } else {
      assert (pending + [tail])[1..] == pending[1..] + [tail];
      JoinedSnoc(pending[1..], tail);
    }
  }

  /** `Buffer.from(buf.subarray(from, to))`: a copy, not a view. */
  method CopyOf(buf: array<Byte>, from: nat, to: nat) returns (copy: array<Byte>)
    requires from <= to <= buf.Length
    ensures fresh(copy) && copy[..] == buf[from..to]
  {
    copy := new Byte[to - from](k requires 0 <= k < to - from reads buf => buf[from + k]);
  }

  /** Pieces that are not overwritten still join to the same bytes. */
  twostate lemma {:induction false} PendingSurvives(pending: seq<array<Byte>>)
    requires forall k | 0 <= k < |pending| :: pending[k][..] == old(pending[k][..])
    ensures Joined(pending) == old(Joined(pending))
  {
    if pending != [] {
      forall k | 0 <= k < |pending[1..]|
        ensures pending[1..][k][..] == old(pending[1..][k][..])
      {
        assert pending[1..][k] == pending[k + 1];
      }
      PendingSurvives(pending[1..]);
    }
  }

  /** The rest of a block joins the pieces of the unfinished line, as a copy. */
  method KeepTail(buf: array<Byte>, lineStart: nat, bytesRead: nat, pending: seq<array<Byte>>, ghost fileOffset: nat,
                  ghost content: Bytes, ghost base: nat) returns (pending': seq<array<Byte>>)
    requires lineStart < bytesRead <= buf.Length && fileOffset + bytesRead <= |content|
    requires buf[..bytesRead] == content[fileOffset..fileOffset + bytesRead]
    requires (pending == [] && base == fileOffset + lineStart)
             || (lineStart == 0 && base <= fileOffset && Joined(pending) == content[base..fileOffset])
    ensures |pending'| == |pending| + 1 && pending'[..|pending|] == pending && fresh(pending'[|pending|])
    ensures Joined(pending') == content[base..fileOffset + bytesRead]
  {
    hide Joined;
    var tail := CopyOf(buf, lineStart, bytesRead);
    assert tail[..] == buf[..bytesRead][lineStart..bytesRead];
    NothingJoined();
    LineAcrossBlocks(content, base, fileOffset, buf[..bytesRead], lineStart, bytesRead, Joined(pending));
    JoinedSnoc(pending, tail);
    pending' := pending + [tail];
  }

  /** The reader's account of the lines that end at or before `base`. */
  ghost predicate Found(content: Bytes, base: nat, startLine: int, maxLines: Option<int>, lineNo: int, yielded: seq<LocatedLine>) {
    && base <= |content|
    && (base == 0 || content[base - 1] == LF)
    && lineNo == |AllLines(content[..base])| + 1
    && yielded == FromLine(AllLines(content[..base]), startLine)
    && !Full(|yielded|, maxLines)
  }

  lemma NothingFound(content: Bytes, startLine: int, maxLines: Option<int>)
    ensures Found(content, 0, startLine, maxLines, 1, [])
    ensures Joined([]) == []
  {
  }

  /** A terminated line is found: the reader goes on, or it has all it was asked for. */
  lemma FinishLine(content: Bytes, base: nat, end: nat, startLine: int, maxLines: Option<int>, lineNo: int,
                   yielded: seq<LocatedLine>, yielded': seq<LocatedLine>)
    requires Found(content, base, startLine, maxLines, lineNo, yielded)
    requires base < end <= |content| && content[end - 1] == LF
    requires forall k | base <= k < end - 1 :: content[k] != LF
    requires yielded' == yielded + if lineNo >= startLine then [LocatedLine(content[base..end], base)] else []
    ensures Full(|yielded'|, maxLines) ==> lineNo >= startLine
    ensures if Full(|yielded'|, maxLines)
            then yielded' == AtMost(FromLine(AllLines(content), startLine), maxLines)
            else Found(content, end, startLine, maxLines, lineNo + 1, yielded')
  {
    hide AllLines, FromLine, AtMost;
    NextLine(content, base, end);
    FromLineSnoc(AllLines(content[..base]), LocatedLine(content[base..end], base), startLine);
    if Full(|yielded'|, maxLines) {
      AllLinesSplit(content, end);
      FromLinePrefix(AllLines(content[..end]), Located(Lines(content[end..], LF), end), startLine, maxLines);
    }
  }

  /** The end of the file: what is left is the unterminated last line. */
  lemma FinishFile(content: Bytes, base: nat, startLine: int, maxLines: Option<int>, lineNo: int,
                   yielded: seq<LocatedLine>, yielded': seq<LocatedLine>)
    requires Found(content, base, startLine, maxLines, lineNo, yielded)
    requires forall k | base <= k < |content| :: content[k] != LF
    requires yielded' == yielded + if base < |content| && lineNo >= startLine then [LocatedLine(content[base..], base)] else []
    ensures yielded' == AtMost(FromLine(AllLines(content), startLine), maxLines)
  {
    hide AllLines, FromLine;
    assert content[..|content|] == content;
    if base < |content| {
      NextLine(content, base, |content|);
      FromLineSnoc(AllLines(content[..base]), LocatedLine(content[base..], base), startLine);
    }
  }

  /** The bytes kept from earlier blocks followed by the piece of this block are the line. */
  lemma LineAcrossBlocks(content: Bytes, base: nat, fileOffset: nat, chunk: Bytes, from: nat, to: nat, kept: Bytes)
    requires fileOffset + |chunk| <= |content| && chunk == content[fileOffset..fileOffset + |chunk|]
    requires from <= to <= |chunk|
    requires (kept == [] && base == fileOffset + from) || (from == 0 && base <= fileOffset && kept == content[base..fileOffset])
    ensures kept + chunk[from..to] == content[base..fileOffset + to]
  {
    SliceOfSlice(content, fileOffset, fileOffset + |chunk|, from, to);
  }

  /**
   * The inner loop of `_readUtf8Lines`: the terminators of one block, the bytes of `buf`
   * that were read at `fileOffset`.  `base` is where the unfinished line starts; its bytes from earlier
   * blocks are in `pending`.
   */
  method TakeLines(chunk: Bytes, fileOffset: nat, pending: seq<array<Byte>>, pendingOffset: nat,
                   lineNo: int, yielded: seq<LocatedLine>, startLine: int, maxLines: Option<int>,
                   ghost content: Bytes, ghost base: nat)
    returns (pending': seq<array<Byte>>, lineStart: nat, lineNo': int, yielded': seq<LocatedLine>, done: bool,
             ghost base': nat)
    requires fileOffset + |chunk| <= |content| && chunk == content[fileOffset..fileOffset + |chunk|]
    requires base <= fileOffset && Joined(pending) == content[base..fileOffset]
    requires pending == [] <==> base == fileOffset
    requires pending != [] ==> pendingOffset == base
    requires forall k | base <= k < fileOffset :: content[k] != LF
    requires Found(content, base, startLine, maxLines, lineNo, yielded)
    ensures done ==> yielded' == AtMost(FromLine(AllLines(content), startLine), maxLines)
    ensures !done ==>
      && lineStart <= |chunk| && base' <= fileOffset + lineStart
      && ((pending' == pending && base' == base && lineStart == 0) || (pending' == [] && base' == fileOffset + lineStart))
      && (forall k | base' <= k < fileOffset + |chunk| :: content[k] != LF)
      && Found(content, base', startLine, maxLines, lineNo', yielded')
  {
    hide AllLines, FromLine, AtMost, Found, Joined;
    pending', lineStart, lineNo', yielded', done, base' := pending, 0, lineNo, yielded, false, base;
    for i := 0 to |chunk|
      invariant lineStart <= i && base' <= fileOffset + lineStart
      invariant forall k | base' <= k < fileOffset + i :: content[k] != LF
      invariant (pending' == pending && base' == base && lineStart == 0) || (pending' == [] && base' == fileOffset + lineStart)
      invariant Found(content, base', startLine, maxLines, lineNo', yielded')
    {
      if chunk[i] == LF {
        ghost var end, before := fileOffset + i + 1, yielded';
        var piece := chunk[lineStart..i + 1];
        var lineOffset, line := pendingOffset, piece;
        if |pending'| == 0 {
          lineOffset := fileOffset + lineStart;
          LineAcrossBlocks(content, base', fileOffset, chunk, lineStart, i + 1, []);
          assert [] + piece == piece;
        } else {
          line := Joined(pending') + piece;
          LineAcrossBlocks(content, base', fileOffset, chunk, lineStart, i + 1, Joined(pending'));
        }
        if lineNo' >= startLine {
          yielded' := yielded' + [LocatedLine(line, lineOffset)];
          if maxLines.Some? && |yielded'| >= maxLines.value {
            FinishLine(content, base', end, startLine, maxLines, lineNo', before, yielded');
            done := true;
            return;
          }
        }
        FinishLine(content, base', end, startLine, maxLines, lineNo', before, yielded');
        pending' := [];
        lineStart := i + 1;
        lineNo' := lineNo' + 1;
        base' := end;
      }
    }
  }

  /**
   * `_readUtf8Lines`, with the lines it decodes and yields collected.  One buffer of
   * `blockSize` bytes is overwritten by every read, so an unfinished line survives a
   * block boundary only because its pieces are copied into `pending`.
   */
  method ReadUtf8Lines(fh: FileHandle, blockSize: nat, startLine: int, maxLines: Option<int>)
    returns (yielded: seq<LocatedLine>)
    requires fh.position == 0 && blockSize > 0
    modifies fh`position
    ensures yielded == AtMost(FromLine(AllLines(fh.content), startLine), maxLines)
  {
    hide AllLines, FromLine, AtMost, Joined, Found;
    var content := fh.content;
    var buf := new Byte[blockSize];
    var pending: seq<array<Byte>> := [];
    var pendingOffset: nat := 0;
    var fileOffset: nat := 0;
    var lineNo := 1;
    yielded := [];
    ghost var base: nat := 0;
    NothingFound(content, startLine, maxLines);
    while true
      invariant fresh(buf) && buf.Length == blockSize
      invariant forall k | 0 <= k < |pending| :: fresh(pending[k]) && pending[k] != buf
      invariant fh.position == fileOffset && base <= fileOffset <= |content|
      invariant forall k | base <= k < fileOffset :: content[k] != LF
      invariant Joined(pending) == content[base..fileOffset]
      invariant pending == [] <==> base == fileOffset
      invariant pending != [] ==> pendingOffset == base
      invariant Found(content, base, startLine, maxLines, lineNo, yielded)
      decreases |content| - fileOffset
    {
      label beforeRead:
      var bytesRead := fh.Read(buf);
      if bytesRead == 0 {
        break;
      }
      PendingSurvives@beforeRead(pending);
      var lineStart, done;
      pending, lineStart, lineNo, yielded, done, base :=
        TakeLines(buf[..bytesRead], fileOffset, pending, pendingOffset, lineNo, yielded, startLine, maxLines, content, base);
      if done {
        return;
      }
      NothingJoined();
      if lineStart < bytesRead {
        if |pending| == 0 {
          pendingOffset := fileOffset + lineStart;
        }
        pending := KeepTail(buf, lineStart, bytesRead, pending, fileOffset, content, base);
      }
      fileOffset := fileOffset + bytesRead;
    }
    ghost var before := yielded;
    assert content[base..fileOffset] == content[base..];
    if |pending| > 0 {
      var line := Joined(pending);
      if lineNo >= startLine {
        yielded := yielded + [LocatedLine(line, pendingOffset)];
      }
    }
    FinishFile(content, base, startLine, maxLines, lineNo, before, yielded);
  }

  lemma NothingJoined()
    ensures Joined([]) == []
  {
  }
}
