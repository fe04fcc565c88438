/**
 * `readTailLines`: find the start of the last lines by scanning a file backwards, block
 * by block, and read from there.
 */
module TailReading {
  import opened Sequences
  import opened Utf8
  import opened LineText
  import opened FileReading

  /** `readRange`: positioned reads until `length` bytes or the end of the file. */
  method ReadRange(fh: FileHandle, start: nat, length: nat) returns (data: Bytes)
    requires start <= |fh.content|
    ensures data == fh.content[start..Min(start + length, |fh.content|)]
  {
    var buf := new Byte[length];
    var offset: nat := 0;
    while offset < length
      invariant offset <= length && start + offset <= |fh.content|
      invariant fresh(buf) && buf[..offset] == fh.content[start..start + offset]
    {
      ghost var before := buf[..offset];
      var bytesRead := fh.ReadAt(buf, offset, length - offset, start + offset);
      if bytesRead == 0 {
        break;
      }
      assert buf[..offset + bytesRead] == buf[..offset] + buf[offset..offset + bytesRead];
      assert buf[..offset] == before;
      assert fh.content[start..start + offset] + fh.content[start + offset..start + offset + bytesRead]
          == fh.content[start..start + offset + bytesRead];
      offset := offset + bytesRead;
    }
    data := buf[..offset];
  }

  /**
   * A positioned read of a block into a zeroed buffer.  The caller does not look at how much was
   * read, so what a short read leaves out stays zero; `whole` says that reads inside a file are never
   * short.
   */
  method ReadBlock(fh: FileHandle, pos: nat, size: nat, whole: bool) returns (buf: array<Byte>, ghost bytesRead: nat)
    requires pos + size <= |fh.content| && size > 0
    ensures fresh(buf) && buf.Length == size && bytesRead <= size && (whole ==> bytesRead == size)
    ensures forall k | 0 <= k < size :: buf[k] == if k < bytesRead then fh.content[pos + k] else 0
  {
    buf := new Byte[size](k => 0);
    var n := fh.ReadAt(buf, 0, size, pos);
    assert forall k | 0 <= k < n :: buf[0..n][k] == fh.content[pos..pos + n][k];
    if whole {
      forall k | n <= k < size {
        buf[k] := fh.content[pos + k];
      }
      n := size;
    }
    bytesRead := n;
  }

  /** The bytes decoded for a tail, and where in the file they start. */
  datatype Tail = Tail(data: Bytes, startOffset: nat)

  function LastLines<T>(lines: seq<T>, count: int): seq<T> {
    lines[|lines| - Min(Max(count, 0), |lines|)..]
  }

  /** How many terminators mark the start of the last `count` lines. */
  function Needed(content: Bytes, count: int): int {
    if Terminated(content, LF) then count + 1 else count
  }

  lemma SuffixIsTail(content: Bytes, start: nat, count: int)
    requires content != [] && count >= 1 && start <= |content|
    requires if start == 0 then Count(content, LF) < Needed(content, count)
             else content[start - 1] == LF && Count(content[start..], LF) == Needed(content, count) - 1
    ensures Lines(content[start..], LF) == LastLines(Lines(content, LF), count)
    ensures content[..start] == Flatten(Lines(content, LF)[..|Lines(content, LF)| - |Lines(content[start..], LF)|])
  {
    hide Lines, Count, Flatten;
    var head, tail := content[..start], content[start..];
    assert content == head + tail;
    LineCount(tail, LF);
    assert tail != [] ==> tail[|tail| - 1] == content[|content| - 1];
    LinesOfConcat(head, tail, LF);
    LinesPartition(head, LF);
    if start == 0 {
      assert tail == content;
      NoLinesOfNothing<Byte>(LF);
    } else {
      assert |Lines(tail, LF)| == count;
    }
    assert Lines(content, LF)[..|Lines(head, LF)|] == Lines(head, LF);
  }

  /** Terminators from `from` up to `limit`. */
  function CountBetween(content: Bytes, from: nat, limit: nat): nat
    requires limit <= |content|
  {
    if from < limit then Count(content[from..limit], LF) else 0
  }

  lemma CountStep(content: Bytes, i: nat, limit: nat)
    requires i < |content| && limit <= |content|
    ensures CountBetween(content, i, limit) == CountBetween(content, i + 1, limit) + if i < limit && content[i] == LF then 1 else 0
  {
    if i < limit {
      assert content[i..limit][1..] == content[i + 1..limit];
    }
  }

  lemma CountToEnd(content: Bytes, from: nat)
    requires from <= |content|
    ensures CountBetween(content, from, |content|) == Count(content[from..], LF)
    ensures from < |content| ==>
      Count(content[from..], LF) == CountBetween(content, from, |content| - 1) + if content[|content| - 1] == LF then 1 else 0
  {
    if from < |content| {
      var body, last := content[from..|content| - 1], content[|content| - 1..];
      assert content[from..] == body + last == content[from..|content|];
      assert last == [content[|content| - 1]] && last[1..] == [];
      CountConcat(body, last, LF);
    }
  }

  /** Where terminators may have been missed, the suffix holds at least the lines asked for. */
  lemma SuffixHoldsTail(content: Bytes, start: nat, count: int, limit: nat)
    requires content != [] && count >= 1 && |content| - 1 <= limit <= |content|
    requires 0 < start <= limit && content[start - 1] == LF
    requires CountBetween(content, start, limit) >= (if limit == |content| then Needed(content, count) else count) - 1
    ensures |Lines(content[start..], LF)| >= count
  {
    hide Lines, Count;
    CountToEnd(content, start);
    LineCount(content[start..], LF);
    assert start < |content| ==> content[start..][|content| - start - 1] == content[|content| - 1];
  }

  /**
   * The start that is found is a line start and the data runs from it to the end.  It is exactly the
   * last `tailCount` lines where block reads fill their buffer (`whole`), and never fewer otherwise.
   */
  method ReadTailLines(fh: FileHandle, blockSize: nat, tailCount: int, whole: bool) returns (found: Option<Tail>)
    requires blockSize > 0
    ensures found == None <==> tailCount <= 0 || fh.content == []
    ensures found.Some? ==>
      var lines, start := Lines(fh.content, LF), found.value.startOffset;
      && start <= |fh.content| && (start == 0 || fh.content[start - 1] == LF)
      && found.value.data == fh.content[start..]
      && |Lines(found.value.data, LF)| >= |LastLines(lines, tailCount)|
      && (whole ==> Lines(found.value.data, LF) == LastLines(lines, tailCount)
                       && fh.content[..start] == Flatten(lines[..|lines| - |LastLines(lines, tailCount)|]))
  {
    hide Lines, Count, LastLines, Flatten, CountBetween;
    var content := fh.content;
    var size := |content|;
    if tailCount <= 0 || size == 0 {
      return None;
    }
    var pos: nat := size;
    var foundLf := 0;
    var startOffset: nat := 0;
    var needLf := tailCount;
    var sawTailBlock := false;
    ghost var limit := size;
    CountFromEnd(content);
    while pos > 0 && foundLf < needLf
      invariant pos <= size && foundLf <= needLf && size - 1 <= limit <= size
      invariant sawTailBlock ==> needLf == if limit == size then Needed(content, tailCount) else tailCount
      invariant !sawTailBlock ==> pos == size && foundLf == 0 && needLf == tailCount && limit == size
      invariant (whole ==> limit == size) && (sawTailBlock ==> pos < size)
      invariant foundLf < needLf ==> foundLf <= CountBetween(content, pos, limit)
      invariant foundLf < needLf && whole ==> foundLf == CountBetween(content, pos, limit)
      invariant foundLf == needLf ==> StartsTail(content, startOffset, needLf, limit, whole)
    {
      var readSize := Min(blockSize, pos);
      pos := pos - readSize;
      var buf, m := ReadBlock(fh, pos, readSize, whole);
      if !sawTailBlock {
        sawTailBlock := true;
        limit := if m == readSize then size else size - 1;
        CountFromEnd(content);
        assert m == readSize ==> buf[readSize - 1] == content[size - 1];
        var endsWithNewline := buf[readSize - 1] == LF;
        needLf := if endsWithNewline then tailCount + 1 else tailCount;
      }
      assert pos + m <= limit && (whole ==> m == readSize);
      var i := readSize - 1;
      while i >= 0
        invariant -1 <= i < readSize
        invariant forall k | 0 <= k < readSize :: buf[k] == if k < m then content[pos + k] else 0
        invariant foundLf < needLf && foundLf <= CountBetween(content, pos + i + 1, limit)
        invariant whole ==> foundLf == CountBetween(content, pos + i + 1, limit)
      {
        CountStep(content, pos + i, limit);
        if buf[i] == LF {
          foundLf := foundLf + 1;
          if foundLf == needLf {
            startOffset := pos + i + 1;
            break;
          }
        }
        i := i - 1;
      }
    }
    if foundLf < needLf {
      startOffset := 0;
      assert content[0..] == content;
    }
    LastLinesLength(Lines(content, LF), tailCount);
    CountToEnd(content, startOffset);
    if whole {
      SuffixIsTail(content, startOffset, tailCount);
    } else if startOffset > 0 {
      SuffixHoldsTail(content, startOffset, tailCount, limit);
    }
    var data := ReadRange(fh, startOffset, size - startOffset);
    found := Some(Tail(data, startOffset));
  }

  ghost predicate StartsTail(content: Bytes, start: nat, needLf: int, limit: nat, exact: bool) {
    && 0 < start <= limit <= |content| && content[start - 1] == LF
    && CountBetween(content, start, limit) >= needLf - 1
    && (exact ==> CountBetween(content, start, limit) == needLf - 1)
  }

  lemma CountFromEnd(content: Bytes)
    ensures forall limit | 0 <= limit <= |content| :: CountBetween(content, |content|, limit) == 0
  {
  }

  lemma LastLinesLength<T>(lines: seq<T>, count: int)
    ensures |LastLines(lines, count)| == Min(Max(count, 0), |lines|)
  {
  }

  /** The last lines, counted out. */
  lemma LastLinesAre<T>(lines: seq<T>, count: int)
    ensures var last := LastLines(lines, count);
            && |last| == (if count <= 0 then 0 else if count < |lines| then count else |lines|)
            && forall i | 0 <= i < |last| :: last[i] == lines[|lines| - |last| + i]
  {
  }
}
