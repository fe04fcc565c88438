/**
 * Lines that keep their terminator: the reference definition every reader of LocalKaos
 * is measured against, for bytes and for decoded text alike.
 */
module LineText {
  import opened Sequences

  /** Length of the first line of `s`, its terminator included. */
  function LineLength<T(==)>(s: seq<T>, lf: T): (n: nat)
    ensures n <= |s| && (s != [] ==> n > 0)
    ensures forall i | 0 <= i < n - 1 :: s[i] != lf
    ensures n < |s| ==> n > 0 && s[n - 1] == lf
  {
    if s == [] then 0
    else if s[0] == lf then 1
    else 1 + LineLength(s[1..], lf)
  }

  function Lines<T(==)>(s: seq<T>, lf: T): (lines: seq<seq<T>>)
    ensures |lines| <= |s|
  {
    if s == [] then []
    else var n := LineLength(s, lf); [s[..n]] + Lines(s[n..], lf)
  }

  // ----- what the definition means -----

  predicate IsLine<T(==)>(line: seq<T>, lf: T) {
    line != [] && forall i | 0 <= i < |line| - 1 :: line[i] != lf
  }

  predicate Terminated<T(==)>(line: seq<T>, lf: T) {
    line != [] && line[|line| - 1] == lf
  }

  /** Non-empty lines without an inner terminator; only the last may lack one. */
  predicate IsLineList<T(==)>(lines: seq<seq<T>>, lf: T) {
    && (forall k | 0 <= k < |lines| :: IsLine(lines[k], lf))
    && (forall k | 0 <= k < |lines| - 1 :: Terminated(lines[k], lf))
  }

  lemma PrependLine<T>(line: seq<T>, rest: seq<seq<T>>, lf: T)
    requires IsLine(line, lf) && IsLineList(rest, lf)
    requires rest != [] ==> Terminated(line, lf)
    ensures IsLineList([line] + rest, lf)
  {
  }

  lemma CutLine<T>(s: seq<T>, n: nat, lf: T)
    requires 0 < n <= |s| && (n == |s| || s[n - 1] == lf)
    requires forall i | 0 <= i < n - 1 :: s[i] != lf
    ensures IsLine(s[..n], lf) && (n == |s| || Terminated(s[..n], lf))
  {
    var line := s[..n];
    assert forall i | 0 <= i < n :: line[i] == s[i];
  }

  lemma LinesFromFirst<T>(s: seq<T>, lf: T)
    requires s != []
    ensures Lines(s, lf) == [s[..LineLength(s, lf)]] + Lines(s[LineLength(s, lf)..], lf)
  {
    hide LineLength;
  }

  lemma {:induction false} LinesPartition<T>(s: seq<T>, lf: T)
    ensures IsLineList(Lines(s, lf), lf) && Flatten(Lines(s, lf)) == s
  {
    hide IsLineList;
    if s == [] {
      NoLines(lf);
    } else {
      hide Lines, LineLength, IsLine, Terminated;
      var n := LineLength(s, lf);
      CutLine(s, n, lf);
      LinesFromFirst(s, lf);
      LinesPartition(s[n..], lf);
      NoLinesOfNothing(lf);
      PrependLine(s[..n], Lines(s[n..], lf), lf);
    }
  }

  lemma NoLines<T>(lf: T)
    ensures IsLineList<T>([], lf)
  {
  }

  lemma LineLengthOf<T>(line: seq<T>, rest: seq<T>, lf: T)
    requires IsLine(line, lf)
    requires rest == [] || Terminated(line, lf)
    ensures LineLength(line + rest, lf) == |line|
    decreases |line|
  {
    var s := line + rest;
    if |line| > 1 {
      assert s[1..] == line[1..] + rest;
      LineLengthOf(line[1..], rest, lf);
    } else if rest == [] {
      assert s == line;
    }
  }

  /** Only one list of lines flattens to a given sequence. */
  lemma {:induction false} LinesUnique<T>(lines: seq<seq<T>>, lf: T)
    requires IsLineList(lines, lf)
    ensures Lines(Flatten(lines), lf) == lines
  {
    if lines != [] {
      var rest := Flatten(lines[1..]);
      assert lines[1..] == [] ==> rest == [];
      LinesUnique(lines[1..], lf);
      LineLengthOf(lines[0], rest, lf);
      assert (lines[0] + rest)[..|lines[0]|] == lines[0];
      assert (lines[0] + rest)[|lines[0]|..] == rest;
    }
  }

  lemma JoinLineLists<T>(la: seq<seq<T>>, lb: seq<seq<T>>, lf: T)
    requires IsLineList(la, lf) && IsLineList(lb, lf)
    requires la == [] || Terminated(la[|la| - 1], lf)
    ensures IsLineList(la + lb, lf)
  {
  }

  lemma LastLineOf<T>(s: seq<T>, lf: T)
    requires s != []
    ensures var lines := Lines(s, lf); lines != [] && (Terminated(lines[|lines| - 1], lf) <==> Terminated(s, lf))
  {
  }

  lemma LinesOfConcat<T>(a: seq<T>, b: seq<T>, lf: T)
    requires a == [] || Terminated(a, lf)
    ensures Lines(a + b, lf) == Lines(a, lf) + Lines(b, lf)
  {
    LinesPartition(a, lf);
    LinesPartition(b, lf);
    var la, lb := Lines(a, lf), Lines(b, lf);
    if a != [] {
      LastLineOf(a, lf);
    }
    JoinLineLists(la, lb, lf);
    FlattenConcat(la, lb);
    hide IsLineList, Terminated, Lines;
    LinesUnique(la + lb, lf);
  }

  lemma LinesOfOne<T>(line: seq<T>, lf: T)
    requires IsLine(line, lf)
    ensures Lines(line, lf) == [line]
  {
    LinesUnique([line], lf);
    assert Flatten([line]) == line;
  }

  // ----- counting terminators -----

  function Count<T(==)>(s: seq<T>, x: T): nat {
    if s == [] then 0 else (if s[0] == x then 1 else 0) + Count(s[1..], x)
  }

  lemma {:induction false} CountConcat<T>(a: seq<T>, b: seq<T>, x: T)
    ensures Count(a + b, x) == Count(a, x) + Count(b, x)
  {
    if a == [] {
      assert a + b == b;
    } else {
      assert (a + b)[1..] == a[1..] + b;
      CountConcat(a[1..], b, x);
    }
  }

  lemma CountInLine<T>(line: seq<T>, lf: T)
    requires IsLine(line, lf)
    ensures Count(line, lf) == if Terminated(line, lf) then 1 else 0
  {
  }

  /** As many lines as terminators, and one more for an unterminated rest. */
  lemma {:induction false} LineCount<T>(s: seq<T>, lf: T)
    ensures |Lines(s, lf)| == Count(s, lf) + if s == [] || Terminated(s, lf) then 0 else 1
  {
    if s != [] {
      var n := LineLength(s, lf);
      var head, tail := s[..n], s[n..];
      assert s == head + tail;
      LineCount(tail, lf);
      CountConcat(head, tail, lf);
      CountInLine(head, lf);
      assert tail != [] ==> Terminated(head, lf) && s[|s| - 1] == tail[|tail| - 1];
      hide Count, LineLength;
    }
  }

  lemma NoLinesOfNothing<T>(lf: T)
    ensures Lines<T>([], lf) == []
  {
  }

  /** `splitLinesKeepingTerminator`, with the yielded pieces collected. */
  method SplitLinesKeepingTerminator<T(==)>(text: seq<T>, lf: T) returns (lines: seq<seq<T>>)
    ensures lines == Lines(text, lf)
  {
    hide Lines;
    lines := [];
    NoLinesOfNothing(lf);
    if |text| == 0 {
      return;
    }
    var start := 0;
    for i := 0 to |text|
      invariant 0 <= start <= i
      invariant forall k | start <= k < i :: text[k] != lf
      invariant start == 0 || text[start - 1] == lf
      invariant lines == Lines(text[..start], lf)
    {
      if text[i] == lf {
        ExtendLines(text, start, i + 1, lf);
        lines := lines + [text[start..i + 1]];
        start := i + 1;
      }
    }
    if start < |text| {
      ExtendLines(text, start, |text|, lf);
      lines := lines + [text[start..]];
    }
    assert text[..|text|] == text;
  }

  lemma ExtendLines<T>(text: seq<T>, start: nat, end: nat, lf: T)
    requires start < end <= |text|
    requires start == 0 || text[start - 1] == lf
    requires forall k | start <= k < end - 1 :: text[k] != lf
    ensures Lines(text[..end], lf) == Lines(text[..start], lf) + [text[start..end]]
  {
    assert text[..end] == text[..start] + text[start..end];
    LinesOfConcat(text[..start], text[start..end], lf);
    LinesOfOne(text[start..end], lf);
  }
}
