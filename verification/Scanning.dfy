/** `scanTextFile`: one pass that validates, counts lines and classifies line endings. */
module Scanning {
  import opened Sequences
  import opened Utf8
  import opened LineText
  import opened FileReading

  // ----- the three kinds of line ending, as facts about the whole file -----

  ghost predicate HasCrLf(s: Bytes) {
    exists i :: 0 <= i < |s| - 1 && s[i] == CR && s[i + 1] == LF
  }

  /** A line feed that is not the second half of a CR LF pair. */
  ghost predicate HasBareLf(s: Bytes) {
    exists i :: 0 <= i < |s| && s[i] == LF && (i == 0 || s[i - 1] != CR)
  }

  /** A carriage return followed by something other than a line feed. */
  ghost predicate HasFollowedCr(s: Bytes) {
    exists i :: 0 <= i < |s| - 1 && s[i] == CR && s[i + 1] != LF
  }

  predicate EndsWithCr(s: Bytes) { s != [] && s[|s| - 1] == CR }

  /** A carriage return that is not the first half of a CR LF pair. */
  ghost predicate HasLoneCr(s: Bytes) {
    exists i :: 0 <= i < |s| && s[i] == CR && (i == |s| - 1 || s[i + 1] != LF)
  }

  /** Every line feed and every carriage return is of one of the three kinds. */
  lemma EveryEndingIsClassified(s: Bytes)
    ensures LF in s <==> HasCrLf(s) || HasBareLf(s)
    ensures CR in s <==> HasCrLf(s) || HasLoneCr(s)
  {
    if i :| 0 <= i < |s| && s[i] == LF {
      assert i > 0 && s[i - 1] == CR ==> HasCrLf(s);
    }
    if i :| 0 <= i < |s| && s[i] == CR {
      assert i + 1 < |s| && s[i + 1] == LF ==> HasCrLf(s);
    }
  }

  lemma OneMoreByte(s: Bytes, b: Byte)
    ensures HasCrLf(s + [b]) <==> HasCrLf(s) || (EndsWithCr(s) && b == LF)
    ensures HasBareLf(s + [b]) <==> HasBareLf(s) || (!EndsWithCr(s) && b == LF)
    ensures HasFollowedCr(s + [b]) <==> HasFollowedCr(s) || (EndsWithCr(s) && b != LF)
  {
    var t := s + [b];
    assert forall i | 0 <= i < |s| :: t[i] == s[i];
    assert t[|s|] == b;
    if HasCrLf(s) { var i :| 0 <= i < |s| - 1 && s[i] == CR && s[i + 1] == LF; assert t[i] == CR && t[i + 1] == LF; }
    if HasFollowedCr(s) { var i :| 0 <= i < |s| - 1 && s[i] == CR && s[i + 1] != LF; assert t[i] == CR && t[i + 1] != LF; }
    if HasBareLf(s) { var i :| 0 <= i < |s| && s[i] == LF && (i == 0 || s[i - 1] != CR); assert t[i] == LF; }
    if EndsWithCr(s) { assert t[|s| - 1] == CR && t[|s| - 1 + 1] == b; }
  }

  lemma LoneCr(s: Bytes)
    ensures HasLoneCr(s) <==> HasFollowedCr(s) || EndsWithCr(s)
  {
  }

  class LineEndingFlags {
    var hasCrLf: bool
    var hasLf: bool
    var hasLoneCr: bool

    constructor ()
      ensures !hasCrLf && !hasLf && !hasLoneCr
    {
      hasCrLf, hasLf, hasLoneCr := false, false, false;
    }

    /** The flags describe every line ending that is complete in `seen`. */
    ghost predicate Describes(seen: Bytes)
      reads this
    {
      && (hasCrLf <==> HasCrLf(seen))
      && (hasLf <==> HasBareLf(seen))
      && (hasLoneCr <==> HasFollowedCr(seen))
    }
  }

  /** `seen` is what earlier chunks held; only its last byte is carried over, as `prevWasCr`. */
  method UpdateLineEndingFlagsFromBytes(flags: LineEndingFlags, chunk: Bytes, prevWasCr: bool, ghost seen: Bytes)
    returns (wasCr: bool)
    requires flags.Describes(seen) && prevWasCr == EndsWithCr(seen)
    modifies flags
    ensures flags.Describes(seen + chunk) && wasCr == EndsWithCr(seen + chunk)
  {
    hide HasCrLf, HasBareLf, HasFollowedCr;
    wasCr := prevWasCr;
    assert seen + chunk[..0] == seen;
    for i := 0 to |chunk|
      invariant flags.Describes(seen + chunk[..i]) && wasCr == EndsWithCr(seen + chunk[..i])
    {
      var byte := chunk[i];
      OneMoreByte(seen + chunk[..i], byte);
      assert seen + chunk[..i + 1] == (seen + chunk[..i]) + [byte];
      if byte == CR {
        if wasCr {
          flags.hasLoneCr := true;
        }
        wasCr := true;
      } else if byte == LF {
        if wasCr {
          flags.hasCrLf := true;
        } else {
          flags.hasLf := true;
        }
        wasCr := false;
      } else {
        if wasCr {
          flags.hasLoneCr := true;
        }
        wasCr := false;
      }
    }
    assert chunk[..|chunk|] == chunk;
  }

  datatype TextFileScan = TextFileScan(
    totalLines: nat, endsWithNewline: bool, hasNul: bool, hasCrLf: bool, hasLf: bool, hasLoneCr: bool)

  /** Terminators and NUL bytes of one chunk. */
  method CountChunk(chunk: Bytes, totalLines: nat, hasNul: bool) returns (totalLines': nat, hasNul': bool)
    ensures totalLines' == totalLines + Count(chunk, LF)
    ensures hasNul' == (hasNul || 0 in chunk)
  {
    totalLines', hasNul' := totalLines, hasNul;
    for i := 0 to |chunk|
      invariant totalLines' + Count(chunk[i..], LF) == totalLines + Count(chunk, LF)
      invariant hasNul' == (hasNul || 0 in chunk[..i])
    {
      var byte := chunk[i];
      assert chunk[i..][1..] == chunk[i + 1..];
      if byte == 0 { hasNul' := true; }
      if byte == LF { totalLines' := totalLines' + 1; }
    }
    assert chunk[..|chunk|] == chunk;
  }

  /** None is the thrown `Invalid UTF-8 data`. */
  method ScanTextFile(fh: FileHandle, blockSize: nat) returns (scan: Option<TextFileScan>)
    requires fh.position == 0 && blockSize > 0
    modifies fh`position
    ensures scan.Some? <==> WellFormed(fh.content)
    ensures scan.Some? ==>
      && scan.value.totalLines == |Lines(fh.content, LF)|
      && scan.value.endsWithNewline == Terminated(fh.content, LF)
      && scan.value.hasNul == (0 in fh.content)
      && (scan.value.hasCrLf <==> HasCrLf(fh.content))
      && (scan.value.hasLf <==> HasBareLf(fh.content))
      && (scan.value.hasLoneCr <==> HasLoneCr(fh.content))
  {
    hide Lines, Count, ValidatorRun, HasCrLf, HasBareLf, HasFollowedCr, HasLoneCr, WellFormed;
    var content := fh.content;
    var buf := new Byte[blockSize];
    var flags := new LineEndingFlags();
    var validator := new Utf8Validator();
    var totalLines, endsWithNewline, hasNul, prevWasCr := 0, false, false, false;
    var totalBytes: nat := 0;
    AcceptsIffWellFormed(content);
    NothingSeen(content);
    while true
      invariant fh.position == totalBytes <= |content| && fresh(buf) && buf.Length == blockSize
      invariant fresh(flags) && fresh(validator)
      invariant ValidatorRun(FreshValidator, content[..totalBytes]) == Some(validator.State())
      invariant flags.Describes(content[..totalBytes]) && prevWasCr == EndsWithCr(content[..totalBytes])
      invariant totalLines == Count(content[..totalBytes], LF) && hasNul == (0 in content[..totalBytes])
      invariant endsWithNewline == Terminated(content[..totalBytes], LF)
      decreases |content| - totalBytes
    {
      var bytesRead := fh.Read(buf);
      if bytesRead == 0 {
        break;
      }
      var chunk := buf[..bytesRead];
      ghost var seen, rest := content[..totalBytes], content[totalBytes + bytesRead..];
      assert content[..totalBytes + bytesRead] == seen + chunk;
      assert content == (seen + chunk) + rest;
      ValidatorRunConcat(FreshValidator, seen, chunk);
      ValidatorRunConcat(FreshValidator, seen + chunk, rest);
      CountConcat(seen, chunk, LF);
      var valid := validator.Write(chunk);
      if !valid {
        return None;
      }
      totalLines, hasNul := CountChunk(chunk, totalLines, hasNul);
      prevWasCr := UpdateLineEndingFlagsFromBytes(flags, chunk, prevWasCr, seen);
      totalBytes := totalBytes + bytesRead;
      endsWithNewline := chunk[bytesRead - 1] == LF;
    }
    assert content[..totalBytes] == content;
    if prevWasCr {
      flags.hasLoneCr := true;
    }
    LoneCr(content);
    var valid := validator.End();
    if !valid {
      return None;
    }
    LineCount(content, LF);
    if totalBytes > 0 && !endsWithNewline {
      totalLines := totalLines + 1;
    }
    scan := Some(TextFileScan(totalLines, endsWithNewline, hasNul, flags.hasCrLf, flags.hasLf, flags.hasLoneCr));
  }

  lemma NothingSeen(content: Bytes)
    ensures content[..0] == []
    ensures !HasCrLf([]) && !HasBareLf([]) && !HasFollowedCr([])
    ensures Count<Byte>([], LF) == 0 && ValidatorRun(FreshValidator, []) == Some(FreshValidator)
  {
  }
}
