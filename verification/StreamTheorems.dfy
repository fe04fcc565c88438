/** What the assembled message keeps of the stream. */
module StreamTheorems {
  import opened Sequences
  import opened StreamAssembly

  // ----- any stream: nothing streamed as content is lost, moved or invented -----

  datatype Atom = TextChar(c: char) | ThinkChar(c: char) | Signature(s: string) | MediaAtom(part: Part)

  function TextAtoms(s: string): seq<Atom> {
    seq(|s|, i requires 0 <= i < |s| => TextChar(s[i]))
  }

  function ThinkAtoms(s: string): seq<Atom> {
    seq(|s|, i requires 0 <= i < |s| => ThinkChar(s[i]))
  }

  /** What a part contributes to the visible message, character by character. */
  function PartAtoms(part: Part): seq<Atom> {
    match part
    case Text(text) => TextAtoms(text)
    case Think(think, encrypted) => ThinkAtoms(think) + if encrypted.Some? then [Signature(encrypted.value)] else []
    case Media(_, _, _) => [MediaAtom(part)]
    case _ => []
  }

  function Atoms(parts: seq<Part>): seq<Atom> {
    if parts == [] then [] else Atoms(parts[..|parts| - 1]) + PartAtoms(parts[|parts| - 1])
  }

  lemma MergeKeepsAtoms(target: Part, source: Part)
    requires Merge(target, source).Some?
    ensures PartAtoms(Merge(target, source).value) == PartAtoms(target) + PartAtoms(source)
  {
  }

  lemma FlushKeepsAtoms(st: State, part: Part)
    ensures Atoms(Flush(st, part).content) == Atoms(st.content) + PartAtoms(part)
  {
  }

  function StateAtoms(st: State): seq<Atom> {
    Atoms(st.content) + if st.pending.Some? then PartAtoms(st.pending.value) else []
  }

  lemma FeedKeepsAtoms(st: State, part: Part)
    ensures StateAtoms(Feed(st, part)) == StateAtoms(st) + PartAtoms(part)
  {
    if !IsRouted(st, part) && st.pending.Some? {
      hide PartAtoms, Atoms;
      if Merge(st.pending.value, part).Some? {
        MergeKeepsAtoms(st.pending.value, part);
      } else {
        FlushKeepsAtoms(st, st.pending.value);
      }
    }
  }

  lemma {:induction false} RunKeepsAtoms(parts: seq<Part>)
    ensures StateAtoms(Run(parts)) == Atoms(parts)
  {
    if parts != [] {
      RunKeepsAtoms(parts[..|parts| - 1]);
      FeedKeepsAtoms(Run(parts[..|parts| - 1]), parts[|parts| - 1]);
    }
  }

  /**
   * For any stream, orphaned deltas included: the content read character by character,
   * each signature right after the thinking it closes, is the stream read that way.
   */
  lemma ContentKeepsEverything(parts: seq<Part>)
    ensures Atoms(Assemble(parts).content) == Atoms(parts)
  {
    RunKeepsAtoms(parts);
    var st := Run(parts);
    if st.pending.Some? {
      FlushKeepsAtoms(st, st.pending.value);
    }
  }

  /** The calls of a stream, in the order of their headers. */
  function Headers(parts: seq<Part>): seq<Part>
    ensures forall k | 0 <= k < |Headers(parts)| :: Headers(parts)[k].Call?
  {
    if parts == [] then []
    else
      var last := parts[|parts| - 1];
      if last.Call? then Headers(parts[..|parts| - 1]) + [last] else Headers(parts[..|parts| - 1])
  }

  predicate SameCall(call: StoredCall, header: Part) {
    header.Call? && call.id == header.id && call.name == header.name && call.extras == header.extras
  }

  function StateCalls(st: State): seq<StoredCall> {
    st.calls + if st.pending.Some? && st.pending.value.Call? then [Stored(st.pending.value)] else []
  }

  ghost predicate CallsFollow(calls: seq<StoredCall>, headers: seq<Part>) {
    |calls| == |headers| && forall k | 0 <= k < |calls| :: SameCall(calls[k], headers[k])
  }

  lemma {:induction false} RunKeepsCalls(parts: seq<Part>)
    ensures CallsFollow(StateCalls(Run(parts)), Headers(parts))
  {
    if parts != [] {
      RunKeepsCalls(parts[..|parts| - 1]);
    }
  }

  /** For any stream: one call per header, in header order, with its id, name and extras. */
  lemma {:induction false} CallsFollowHeaders(parts: seq<Part>)
    ensures CallsFollow(Assemble(parts).calls, Headers(parts))
  {
    RunKeepsCalls(parts);
  }

  // ----- well-routed streams -----

  /** Headers have distinct indices; every delta has an index and follows its header. */
  ghost predicate WellRouted(parts: seq<Part>) {
    && (forall i, j | 0 <= i < j < |parts| && parts[i].Call? && parts[j].Call? && parts[i].index.Some? ::
          parts[i].index != parts[j].index)
    && (forall j | 0 <= j < |parts| && parts[j].Delta? ::
          parts[j].target.Some? && exists i | 0 <= i < j :: parts[i].Call? && parts[i].index == parts[j].target)
  }

  /** The argument text of all deltas for one index, in order; None if there is none. */
  function DeltaText(parts: seq<Part>, index: Option<Index>): Option<string> {
    if parts == [] then None
    else
      var last := parts[|parts| - 1];
      Append(DeltaText(parts[..|parts| - 1], index),
             if last.Delta? && last.target == index && index.Some? then last.argumentsPart else None)
  }

  /** A header completed by the deltas for its index. */
  function Completed(parts: seq<Part>, header: Part): StoredCall
    requires header.Call?
  {
    Stored(header).(arguments := Append(header.arguments, DeltaText(parts, header.index)))
  }

  function CompletedCalls(parts: seq<Part>): seq<StoredCall> {
    var headers := Headers(parts);
    seq(|headers|, k requires 0 <= k < |headers| => Completed(parts, headers[k]))
  }

  lemma WellRoutedInit(parts: seq<Part>)
    requires parts != [] && WellRouted(parts)
    ensures WellRouted(parts[..|parts| - 1])
  {
  }

  /** Every header is somewhere in the stream, and every call of the stream is a header. */
  lemma {:induction false} HeaderAt(parts: seq<Part>, i: nat) returns (k: nat)
    requires i < |parts| && parts[i].Call?
    ensures k < |Headers(parts)| && Headers(parts)[k] == parts[i]
  {
    var init := parts[..|parts| - 1];
    if i == |parts| - 1 {
      k := |Headers(init)|;
    } else {
      k := HeaderAt(init, i);
    }
  }

  lemma {:induction false} HeaderFrom(parts: seq<Part>, k: nat) returns (i: nat)
    requires k < |Headers(parts)|
    ensures i < |parts| && parts[i] == Headers(parts)[k]
  {
    var init := parts[..|parts| - 1];
    if k == |Headers(init)| {
      i := |parts| - 1;
    } else {
      i := HeaderFrom(init, k);
    }
  }

  ghost predicate DistinctHeaders(headers: seq<Part>) {
    && (forall k | 0 <= k < |headers| :: headers[k].Call?)
    && forall j, k | 0 <= j < k < |headers| && headers[j].index.Some? :: headers[j].index != headers[k].index
  }

  lemma {:induction false} HeadersAreDistinct(parts: seq<Part>)
    requires WellRouted(parts)
    ensures DistinctHeaders(Headers(parts))
  {
    if parts != [] {
      var init, last := parts[..|parts| - 1], parts[|parts| - 1];
      WellRoutedInit(parts);
      HeadersAreDistinct(init);
      if last.Call? {
        forall j | 0 <= j < |Headers(init)| && Headers(init)[j].index.Some?
          ensures Headers(init)[j].index != last.index
        {
          var i := HeaderFrom(init, j);
          assert parts[i] == init[i];
        }
      }
    }
  }

  /** Before a header there is no delta for its index. */
  lemma {:induction false} NoEarlyDeltas(parts: seq<Part>, index: Option<Index>)
    requires WellRouted(parts)
    requires forall k | 0 <= k < |Headers(parts)| :: Headers(parts)[k].index != index
    ensures DeltaText(parts, index) == None
  {
    if parts != [] && index.Some? {
      var init, last := parts[..|parts| - 1], parts[|parts| - 1];
      WellRoutedInit(parts);
      assert forall k | 0 <= k < |Headers(init)| :: Headers(init)[k] == Headers(parts)[k];
      NoEarlyDeltas(init, index);
      if last.Delta? && last.target == index {
        var i :| 0 <= i < |parts| - 1 && parts[i].Call? && parts[i].index == last.target;
        var k := HeaderAt(parts, i);
        assert false;
      }
    } else if parts != [] {
      NoIndexNoText(parts);
    }
  }

  lemma {:induction false} NoIndexNoText(parts: seq<Part>)
    ensures DeltaText(parts, None) == None
  {
    if parts != [] {
      NoIndexNoText(parts[..|parts| - 1]);
    }
  }

  /** The index map knows the position of each of the first `n` calls, and nothing else. */
  ghost predicate Positioned(positions: map<Index, nat>, headers: seq<Part>, n: nat) {
    && n <= |headers|
    && (forall k | 0 <= k < |headers| :: headers[k].Call?)
    && (forall k | 0 <= k < n && headers[k].index.Some? ::
          headers[k].index.value in positions && positions[headers[k].index.value] == k)
    && (forall i | i in positions :: positions[i] < n && headers[positions[i]].index == Some(i))
  }

  /** How the loop's state reflects the well-routed stream read so far. */
  ghost predicate Reflects(st: State, parts: seq<Part>) {
    var headers := Headers(parts);
    && StateCalls(st) == CompletedCalls(parts)
    && (st.pending.Some? ==> !st.pending.value.Delta?)
    && (st.pending.Some? && st.pending.value.Call? ==> |headers| > 0 && st.pending.value.index == headers[|headers| - 1].index)
    && Positioned(st.positions, headers, |st.calls|)
  }

  lemma AppendAssociates(a: Option<string>, b: Option<string>, c: Option<string>)
    ensures Append(a, Append(b, c)) == Append(Append(a, b), c)
  {
    if a.Some? && b.Some? && c.Some? {
      assert a.value + (b.value + c.value) == (a.value + b.value) + c.value;
    }
  }

  lemma DeltaTextSnoc(parts: seq<Part>, part: Part, index: Option<Index>)
    ensures DeltaText(parts + [part], index) ==
            Append(DeltaText(parts, index), if part.Delta? && part.target == index && index.Some? then part.argumentsPart else None)
  {
    assert (parts + [part])[..|parts|] == parts;
  }

  lemma HeadersSnoc(parts: seq<Part>, part: Part)
    ensures Headers(parts + [part]) == if part.Call? then Headers(parts) + [part] else Headers(parts)
  {
    assert (parts + [part])[..|parts|] == parts;
  }

  lemma CompletedByContent(parts: seq<Part>, part: Part)
    requires IsContentPart(part)
    ensures CompletedCalls(parts + [part]) == CompletedCalls(parts)
  {
  }

  lemma CompletedByHeader(parts: seq<Part>, header: Part)
    requires header.Call? && WellRouted(parts + [header])
    ensures CompletedCalls(parts + [header]) == CompletedCalls(parts) + [Stored(header)]
  {
    var all, headers := parts + [header], Headers(parts);
    HeadersSnoc(parts, header);
    HeadersAreDistinct(all);
    assert all[..|all| - 1] == parts;
    WellRoutedInit(all);
    forall k | 0 <= k < |headers|
      ensures Completed(all, headers[k]) == Completed(parts, headers[k])
    {
      DeltaTextSnoc(parts, header, headers[k].index);
    }
    DeltaTextSnoc(parts, header, header.index);
    if header.index.None? {
      NoIndexNoText(parts);
    } else {
      assert Headers(all)[|headers|] == header;
      forall k | 0 <= k < |headers|
        ensures headers[k].index != header.index
      {
        assert headers[k] == Headers(all)[k];
      }
      NoEarlyDeltas(parts, header.index);
    }
    assert Completed(all, header) == Stored(header);
  }

  lemma CompletedByDelta(parts: seq<Part>, delta: Part, k: nat)
    requires delta.Delta? && delta.target.Some? && WellRouted(parts + [delta])
    requires k < |Headers(parts)| && Headers(parts)[k].index == delta.target
    ensures k < |CompletedCalls(parts)|
    ensures var call := CompletedCalls(parts)[k];
            CompletedCalls(parts + [delta]) ==
            CompletedCalls(parts)[k := call.(arguments := Append(call.arguments, delta.argumentsPart))]
  {
    var all, headers := parts + [delta], Headers(parts);
    HeadersSnoc(parts, delta);
    assert all[..|all| - 1] == parts;
    WellRoutedInit(all);
    HeadersAreDistinct(parts);
    forall j | 0 <= j < |headers|
      ensures Completed(all, headers[j]).arguments ==
              if j == k then Append(Completed(parts, headers[j]).arguments, delta.argumentsPart)
              else Completed(parts, headers[j]).arguments
    {
      DeltaTextSnoc(parts, delta, headers[j].index);
      AppendAssociates(headers[j].arguments, DeltaText(parts, headers[j].index), delta.argumentsPart);
    }
  }

  lemma DeltaHasHeader(parts: seq<Part>, delta: Part) returns (k: nat)
    requires delta.Delta? && WellRouted(parts + [delta])
    ensures delta.target.Some? && k < |Headers(parts)| && Headers(parts)[k].index == delta.target
  {
    var all := parts + [delta];
    assert all[|parts|].Delta?;
    var i :| 0 <= i < |parts| && all[i].Call? && all[i].index == delta.target;
    assert parts[i] == all[i];
    k := HeaderAt(parts, i);
  }

  /** Once the pending part is flushed, every call is stored at its position. */
  ghost predicate Settled(st: State, parts: seq<Part>) {
    var headers := Headers(parts);
    && st.calls == CompletedCalls(parts)
    && Positioned(st.positions, headers, |headers|)
  }

  lemma FlushSettles(st: State, parts: seq<Part>)
    requires Reflects(st, parts) && WellRouted(parts)
    ensures Settled(Finished(st), parts)
  {
    HeadersAreDistinct(parts);
    assert |CompletedCalls(parts)| == |Headers(parts)|;
    hide CompletedCalls, Headers;
  }

  lemma FeedReflectsContent(st: State, parts: seq<Part>, part: Part)
    requires Reflects(st, parts) && IsContentPart(part) && WellRouted(parts)
    ensures Reflects(Feed(st, part), parts + [part])
  {
    CompletedByContent(parts, part);
    HeadersSnoc(parts, part);
    FlushSettles(st, parts);
    hide CompletedCalls, Headers, WellRouted, Settled, Reflects;
    if st.pending.Some? && Merge(st.pending.value, part).Some? {
      MergedReflects(st, parts, part);
    } else {
      assert Feed(st, part) == Finished(st).(pending := Some(part));
      SettledReflects(Finished(st), parts, part);
    }
  }

  lemma SettledReflects(st: State, parts: seq<Part>, part: Part)
    requires Settled(st, parts) && IsContentPart(part)
    requires Headers(parts + [part]) == Headers(parts) && CompletedCalls(parts + [part]) == CompletedCalls(parts)
    ensures Reflects(st.(pending := Some(part)), parts + [part])
  {
  }

  lemma MergedReflects(st: State, parts: seq<Part>, part: Part)
    requires Reflects(st, parts) && IsContentPart(part) && st.pending.Some? && Merge(st.pending.value, part).Some?
    requires Headers(parts + [part]) == Headers(parts) && CompletedCalls(parts + [part]) == CompletedCalls(parts)
    ensures Reflects(Feed(st, part), parts + [part])
  {
  }

  lemma FeedReflectsHeader(st: State, parts: seq<Part>, header: Part)
    requires Reflects(st, parts) && header.Call? && WellRouted(parts + [header]) && WellRouted(parts)
    ensures Reflects(Feed(st, header), parts + [header])
  {
    CompletedByHeader(parts, header);
    HeadersSnoc(parts, header);
    FlushSettles(st, parts);
    assert |CompletedCalls(parts)| == |Headers(parts)|;
    hide CompletedCalls, Headers, WellRouted;
    assert Feed(st, header) == Finished(st).(pending := Some(header));
    hide Flush, Finished, Feed;
  }

  lemma FeedReflectsDelta(st: State, parts: seq<Part>, delta: Part)
    requires Reflects(st, parts) && delta.Delta? && WellRouted(parts + [delta]) && WellRouted(parts)
    ensures Reflects(Feed(st, delta), parts + [delta])
    ensures Feed(st, delta).content == st.content
  {
    var k := DeltaHasHeader(parts, delta);
    CompletedByDelta(parts, delta, k);
    HeadersSnoc(parts, delta);
    HeadersAreDistinct(parts);
    var headers := Headers(parts);
    assert |CompletedCalls(parts)| == |headers|;
    hide CompletedCalls, Headers;
    if IsPendingAt(st.pending, delta.target.value) {
      assert headers[|headers| - 1].index == headers[k].index;
      assert k == |headers| - 1 == |st.calls|;
    } else {
      assert k < |st.calls|;
    }
  }

  lemma {:induction false} RunReflects(parts: seq<Part>)
    requires WellRouted(parts)
    ensures Reflects(Run(parts), parts)
  {
    if parts != [] {
      var init, last := parts[..|parts| - 1], parts[|parts| - 1];
      assert parts == init + [last];
      WellRoutedInit(parts);
      RunReflects(init);
      if last.Call? {
        FeedReflectsHeader(Run(init), init, last);
      } else if last.Delta? {
        FeedReflectsDelta(Run(init), init, last);
      } else {
        FeedReflectsContent(Run(init), init, last);
      }
    }
  }

  /**
   * However the calls are interleaved: each final call has its header's arguments followed
   * by exactly its own deltas, in order.
   */
  lemma ArgumentsAreReassembled(parts: seq<Part>)
    requires WellRouted(parts)
    ensures Assemble(parts).calls == CompletedCalls(parts)
  {
    RunReflects(parts);
  }

  // ----- deltas leave no trace in the content -----

  function NonDeltas(parts: seq<Part>): seq<Part> {
    if parts == [] then []
    else
      var last := parts[|parts| - 1];
      if last.Delta? then NonDeltas(parts[..|parts| - 1]) else NonDeltas(parts[..|parts| - 1]) + [last]
  }

  /** The states agree on everything but the arguments of a pending call and the stored calls. */
  ghost predicate SameSegmentation(a: State, b: State) {
    && a.content == b.content
    && (a.pending.Some? <==> b.pending.Some?)
    && (a.pending.Some? ==>
          a.pending == b.pending || (a.pending.value.Call? && b.pending.value.Call?))
  }

  lemma FeedSegments(a: State, b: State, part: Part)
    requires SameSegmentation(a, b) && !part.Delta?
    requires a.pending.Some? ==> !a.pending.value.Delta?
    ensures SameSegmentation(Feed(a, part), Feed(b, part))
  {
  }

  lemma DeltaSegments(st: State, parts: seq<Part>, delta: Part)
    requires Reflects(st, parts) && delta.Delta? && WellRouted(parts + [delta]) && WellRouted(parts)
    ensures SameSegmentation(Feed(st, delta), st)
  {
    var k := DeltaHasHeader(parts, delta);
    HeadersAreDistinct(parts);
    var headers := Headers(parts);
    assert |CompletedCalls(parts)| == |headers|;
    hide CompletedCalls, Headers;
    if !IsPendingAt(st.pending, delta.target.value) {
      assert k < |st.calls|;
    }
  }

  lemma {:induction false} RunSegments(parts: seq<Part>)
    requires WellRouted(parts)
    ensures SameSegmentation(Run(parts), Run(NonDeltas(parts)))
  {
    if parts != [] {
      var init, last := parts[..|parts| - 1], parts[|parts| - 1];
      assert parts == init + [last];
      WellRoutedInit(parts);
      RunSegments(init);
      RunReflects(init);
      hide WellRouted, Feed, Headers;
      if last.Delta? {
        DeltaSegments(Run(init), init, last);
        SegmentationIsTransitive(Run(parts), Run(init), Run(NonDeltas(init)));
      } else {
        RunSnoc(NonDeltas(init), last);
        FeedSegments(Run(init), Run(NonDeltas(init)), last);
      }
    }
  }

  lemma SegmentationIsTransitive(a: State, b: State, c: State)
    requires SameSegmentation(a, b) && SameSegmentation(b, c)
    ensures SameSegmentation(a, c)
  {
  }

  /** Leaving out the deltas of a well-routed stream does not change its content. */
  lemma ContentIgnoresDeltas(parts: seq<Part>)
    requires WellRouted(parts)
    ensures Assemble(parts).content == Assemble(NonDeltas(parts)).content
  {
    RunSegments(parts);
    RunReflects(parts);
  }

  lemma {:induction false} HeadersOfNonDeltas(parts: seq<Part>)
    ensures Headers(NonDeltas(parts)) == Headers(parts)
  {
    if parts != [] {
      var init, last := parts[..|parts| - 1], parts[|parts| - 1];
      HeadersOfNonDeltas(init);
      if !last.Delta? {
        HeadersSnoc(NonDeltas(init), last);
      }
    }
  }

  /**
   * Interleaving independence: the message is a function of the parts that are not deltas
   * and of the argument text of each call.  Reordering deltas of different calls, or
   * cutting one delta into several, changes nothing.
   */
  lemma InterleavingIsIrrelevant(a: seq<Part>, b: seq<Part>)
    requires WellRouted(a) && WellRouted(b)
    requires NonDeltas(a) == NonDeltas(b)
    requires forall index: Option<Index> :: DeltaText(a, index) == DeltaText(b, index)
    ensures Assemble(a).content == Assemble(b).content && Assemble(a).calls == Assemble(b).calls
  {
    ContentIgnoresDeltas(a);
    ContentIgnoresDeltas(b);
    ArgumentsAreReassembled(a);
    ArgumentsAreReassembled(b);
    HeadersOfNonDeltas(a);
    HeadersOfNonDeltas(b);
    assert CompletedCalls(a) == CompletedCalls(b) by {
      var headers := Headers(a);
      assert forall k | 0 <= k < |headers| :: Completed(a, headers[k]) == Completed(b, headers[k]);
    }
  }

  // ----- how content is cut into parts -----

  /** Nothing that could be merged is left apart. */
  ghost predicate FullyMerged(parts: seq<Part>) {
    forall i | 0 <= i < |parts| - 1 :: Merge(parts[i], parts[i + 1]).None?
  }

  ghost predicate OnlyContent(parts: seq<Part>) {
    forall i | 0 <= i < |parts| :: IsContentPart(parts[i])
  }

  lemma {:induction false} RunMerges(parts: seq<Part>)
    requires OnlyContent(parts)
    ensures var st := Run(parts);
            && (st.pending.Some? <==> parts != [])
            && (st.pending.Some? ==> IsContentPart(st.pending.value) && FullyMerged(st.content + [st.pending.value]))
            && (st.pending.None? ==> st.content == [])
            && OnlyContent(st.content)
  {
    if parts != [] {
      var init, last := parts[..|parts| - 1], parts[|parts| - 1];
      RunMerges(init);
      var st, st' := Run(init), Run(parts);
      if init != [] {
        var before, after := st.content + [st.pending.value], st'.content + [st'.pending.value];
        assert forall i | 0 <= i < |st.content| :: before[i] == after[i] == st.content[i];
        if Merge(st.pending.value, last).Some? {
          assert |st.content| > 0 ==> Merge(before[|st.content| - 1], before[|st.content|]).None?;
        } else {
          assert after == before + [last];
        }
      }
    }
  }

  /** A stream of content alone comes out fully merged. */
  lemma ContentIsFullyMerged(parts: seq<Part>)
    requires OnlyContent(parts)
    ensures FullyMerged(Assemble(parts).content)
  {
    RunMerges(parts);
  }

  /** `st` is `st0` behind a header that had `before` as its content. */
  ghost predicate Behind(st: State, st0: State, before: seq<Part>, header: Part) {
    && st.pending.Some?
    && (st0.pending.Some? ==> st.pending == st0.pending && st.content == before + st0.content)
    && (st0.pending.None? ==> st.pending == Some(header) && st.content == before && st0.content == [])
  }

  lemma FeedBehind(st: State, st0: State, before: seq<Part>, header: Part, part: Part)
    requires Behind(st, st0, before, header) && header.Call? && !part.Delta?
    ensures Behind(Feed(st, part), Feed(st0, part), before, header)
  {
    if st0.pending.None? {
      assert before + [] == before;
    } else if Merge(st.pending.value, part).None? && IsContentPart(st.pending.value) {
      assert before + (st0.content + [st.pending.value]) == before + st0.content + [st.pending.value];
    }
  }

  lemma {:induction false} RunAfterHeader(before: seq<Part>, header: Part, after: seq<Part>)
    requires header.Call?
    requires forall i | 0 <= i < |after| :: !after[i].Delta?
    ensures Behind(Run(before + [header] + after), Run(after), Assemble(before).content, header)
  {
    if after == [] {
      assert before + [header] + after == before + [header];
      RunSnoc(before, header);
    } else {
      hide Feed, Behind, Assemble;
      var init, last := after[..|after| - 1], after[|after| - 1];
      RunAfterHeader(before, header, init);
      assert before + [header] + after == before + [header] + init + [last];
      assert after == init + [last];
      RunSnoc(before + [header] + init, last);
      RunSnoc(init, last);
      FeedBehind(Run(before + [header] + init), Run(init), Assemble(before).content, header, last);
    }
  }

  /** A header ends the content part before it. */
  lemma HeaderSeparates(before: seq<Part>, header: Part, after: seq<Part>)
    requires header.Call?
    requires forall i | 0 <= i < |after| :: !after[i].Delta?
    ensures Assemble(before + [header] + after).content == Assemble(before).content + Assemble(after).content
  {
    RunAfterHeader(before, header, after);
  }

  // ----- the content of a well-routed stream, section by section -----

  /** The content parts before, between and after the headers. */
  function Sections(parts: seq<Part>): (sections: seq<seq<Part>>)
    ensures |sections| > 0 && forall i | 0 <= i < |sections| :: OnlyContent(sections[i])
  {
    if parts == [] then [[]]
    else
      var before, last := Sections(parts[..|parts| - 1]), parts[|parts| - 1];
      if last.Call? then before + [[]]
      else if last.Delta? then before
      else before[..|before| - 1] + [before[|before| - 1] + [last]]
  }

  function Contents(sections: seq<seq<Part>>): seq<seq<Part>> {
    seq(|sections|, i requires 0 <= i < |sections| => Assemble(sections[i]).content)
  }

  lemma SectionsSnoc(parts: seq<Part>, part: Part)
    ensures var before := Sections(parts);
            Sections(parts + [part]) ==
            if part.Call? then before + [[]]
            else if part.Delta? then before
            else before[..|before| - 1] + [before[|before| - 1] + [part]]
  {
    assert (parts + [part])[..|parts|] == parts;
  }

  lemma {:induction false} SectionsOfNonDeltas(parts: seq<Part>)
    ensures Sections(NonDeltas(parts)) == Sections(parts)
  {
    if parts != [] {
      var init, last := parts[..|parts| - 1], parts[|parts| - 1];
      SectionsOfNonDeltas(init);
      if !last.Delta? {
        SectionsSnoc(NonDeltas(init), last);
      }
    }
  }

  lemma {:induction false} SectionsOfContent(parts: seq<Part>)
    requires OnlyContent(parts)
    ensures Sections(parts) == [parts]
  {
    if parts != [] {
      SectionsOfContent(parts[..|parts| - 1]);
      assert parts == parts[..|parts| - 1] + [parts[|parts| - 1]];
    }
  }

  lemma {:induction false} SectionsAfterHeader(before: seq<Part>, header: Part, after: seq<Part>)
    requires header.Call? && OnlyContent(after)
    ensures Sections(before + [header] + after) == Sections(before) + [after]
  {
    if after == [] {
      assert before + [header] + after == before + [header];
      SectionsSnoc(before, header);
    } else {
      var init, last := after[..|after| - 1], after[|after| - 1];
      SectionsAfterHeader(before, header, init);
      assert before + [header] + after == before + [header] + init + [last];
      SectionsSnoc(before + [header] + init, last);
      assert after == init + [last];
    }
  }

  /** Cuts a stream without deltas at its last header. */
  lemma {:induction false} LastHeader(parts: seq<Part>) returns (i: int)
    requires forall k | 0 <= k < |parts| :: !parts[k].Delta?
    ensures -1 <= i < |parts| && (i >= 0 ==> parts[i].Call?) && OnlyContent(parts[i + 1..])
  {
    i := |parts| - 1;
    while i >= 0 && !parts[i].Call?
      invariant -1 <= i < |parts| && OnlyContent(parts[i + 1..])
    {
      assert parts[i..] == [parts[i]] + parts[i + 1..];
      i := i - 1;
    }
  }

  lemma {:induction false} SectionsAssemble(parts: seq<Part>)
    requires forall k | 0 <= k < |parts| :: !parts[k].Delta?
    ensures Assemble(parts).content == Flatten(Contents(Sections(parts)))
    decreases |parts|
  {
    hide Assemble, Sections;
    var i := LastHeader(parts);
    var after := parts[i + 1..];
    if i < 0 {
      assert after == parts;
      SectionsOfContent(parts);
      assert Contents([parts]) == [Assemble(parts).content];
      assert Flatten([Assemble(parts).content]) == Assemble(parts).content;
    } else {
      var before, header := parts[..i], parts[i];
      assert parts == before + [header] + after;
      SectionsAssemble(before);
      HeaderSeparates(before, header, after);
      SectionsAfterHeader(before, header, after);
      assert Contents(Sections(before) + [after]) == Contents(Sections(before)) + [Assemble(after).content];
      FlattenSnoc(Contents(Sections(before)), Assemble(after).content);
    }
  }

  lemma {:induction false} NonDeltasHaveNone(parts: seq<Part>)
    ensures forall k | 0 <= k < |NonDeltas(parts)| :: !NonDeltas(parts)[k].Delta?
  {
    if parts != [] {
      NonDeltasHaveNone(parts[..|parts| - 1]);
    }
  }

  /**
   * The content of a well-routed stream is, section by section between its headers, what was
   * streamed there: every character kept in order, and neighbours merged wherever they can be.
   */
  lemma ContentBySections(parts: seq<Part>)
    requires WellRouted(parts)
    ensures var sections := Sections(parts);
            && Assemble(parts).content == Flatten(Contents(sections))
            && (forall i | 0 <= i < |sections| ::
                  FullyMerged(Contents(sections)[i]) && Atoms(Contents(sections)[i]) == Atoms(sections[i]))
  {
    hide Assemble, Sections, WellRouted, Atoms, FullyMerged;
    ContentIgnoresDeltas(parts);
    NonDeltasHaveNone(parts);
    SectionsAssemble(NonDeltas(parts));
    SectionsOfNonDeltas(parts);
    var sections := Sections(parts);
    forall i | 0 <= i < |sections|
      ensures FullyMerged(Contents(sections)[i]) && Atoms(Contents(sections)[i]) == Atoms(sections[i])
    {
      ContentIsFullyMerged(sections[i]);
      ContentKeepsEverything(sections[i]);
    }
  }
}
