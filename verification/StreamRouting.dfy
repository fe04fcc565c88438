/**
 * Where the argument fragments of any stream end up, by position in the stream alone: headers may
 * share an index, and fragments may carry no index or one that no header has.
 */
module StreamRouting {
  import opened Sequences
  import opened StreamAssembly
  import opened StreamTheorems

  /** The last header before `n` with the given index. */
  function LatestHeader(parts: seq<Part>, n: nat, index: Index): (h: Option<nat>)
    requires n <= |parts|
    ensures h.Some? ==> h.value < n && parts[h.value].Call? && parts[h.value].index == Some(index)
    ensures h.Some? ==> forall k | h.value < k < n && parts[k].Call? :: parts[k].index != Some(index)
    ensures h.None? ==> forall k | 0 <= k < n && parts[k].Call? :: parts[k].index != Some(index)
  {
    if n == 0 then None
    else if parts[n - 1].Call? && parts[n - 1].index == Some(index) then Some(n - 1)
    else LatestHeader(parts, n - 1, index)
  }

  /** The header that everything since has been a fragment after. */
  function OpenHeader(parts: seq<Part>, n: nat): (h: Option<nat>)
    requires n <= |parts|
    ensures h.Some? ==> h.value < n && parts[h.value].Call? && forall k | h.value < k < n :: parts[k].Delta?
  {
    if n == 0 then None
    else if parts[n - 1].Call? then Some(n - 1)
    else if parts[n - 1].Delta? then OpenHeader(parts, n - 1)
    else None
  }

  /**
   * The header a fragment belongs to: the last one with its index or, without an index that any
   * header before it has, the open one.  A fragment that belongs to none is dropped.
   */
  function Destination(parts: seq<Part>, j: nat): (h: Option<nat>)
    requires j < |parts| && parts[j].Delta?
    ensures h.Some? ==> h.value < j && parts[h.value].Call?
  {
    var indexed := if parts[j].target.Some? then LatestHeader(parts, j, parts[j].target.value) else None;
    if indexed.Some? then indexed else OpenHeader(parts, j)
  }

  /** The texts of the fragments among the first `n` parts that belong to header `h`, in order. */
  function Fragments(parts: seq<Part>, n: nat, h: nat): seq<string>
    requires n <= |parts|
  {
    if n == 0 then []
    else
      var before := Fragments(parts, n - 1, h);
      var part := parts[n - 1];
      if part.Delta? && Destination(parts, n - 1) == Some(h) && part.argumentsPart.Some? then before + [part.argumentsPart.value]
      else before
  }

  /** A header's own text followed by its fragments; none if it has neither. */
  function ArgumentText(own: Option<string>, fragments: seq<string>): Option<string> {
    if own.None? && fragments == [] then None
    else Some((if own.Some? then own.value else "") + Flatten(fragments))
  }

  /** Where the headers among the first `n` parts are. */
  function HeaderPositions(parts: seq<Part>, n: nat): (pos: seq<nat>)
    requires n <= |parts|
    ensures forall k | 0 <= k < |pos| :: pos[k] < n && parts[pos[k]].Call?
    ensures forall k, l | 0 <= k < l < |pos| :: pos[k] < pos[l]
    ensures forall h | 0 <= h < n && parts[h].Call? :: h in pos
  {
    if n == 0 then []
    else if parts[n - 1].Call? then HeaderPositions(parts, n - 1) + [n - 1]
    else HeaderPositions(parts, n - 1)
  }

  /** The call of header `h` after `n` parts. */
  function CallOf(parts: seq<Part>, n: nat, h: nat): StoredCall
    requires h < |parts| && parts[h].Call? && n <= |parts|
  {
    StoredCall(parts[h].id, parts[h].name, ArgumentText(parts[h].arguments, Fragments(parts, n, h)), parts[h].extras)
  }

  function CallsOf(parts: seq<Part>, n: nat): (calls: seq<StoredCall>)
    requires n <= |parts|
    ensures |calls| == |HeaderPositions(parts, n)|
  {
    var pos := HeaderPositions(parts, n);
    seq(|pos|, k requires 0 <= k < |pos| => CallOf(parts, n, pos[k]))
  }

  // ----- the loop against these definitions -----

  predicate PendingCall(st: State) { st.pending.Some? && st.pending.value.Call? }

  /** Among the first `m` headers, the map knows the last one of each index. */
  ghost predicate MapsLatest(positions: map<Index, nat>, parts: seq<Part>, pos: seq<nat>, m: nat)
    requires m <= |pos| && forall k | 0 <= k < |pos| :: pos[k] < |parts| && parts[pos[k]].Call?
  {
    && (forall i | i in positions :: positions[i] < m && parts[pos[positions[i]]].index == Some(i)
                                     && forall k | positions[i] < k < m :: parts[pos[k]].index != Some(i))
    && (forall i | i !in positions :: forall k | 0 <= k < m :: parts[pos[k]].index != Some(i))
  }

  ghost predicate Tracks(st: State, parts: seq<Part>, n: nat)
    requires n <= |parts|
  {
    var pos := HeaderPositions(parts, n);
    && StateCalls(st) == CallsOf(parts, n)
    && (PendingCall(st) <==> OpenHeader(parts, n).Some?)
    && (PendingCall(st) ==> pos != [] && pos[|pos| - 1] == OpenHeader(parts, n).value
                            && st.pending.value.index == parts[pos[|pos| - 1]].index)
    && |st.calls| <= |pos|
    && MapsLatest(st.positions, parts, pos, |st.calls|)
  }

  lemma {:induction false} FlattenLast(fragments: seq<string>, last: string)
    ensures Flatten(fragments + [last]) == Flatten(fragments) + last
  {
    FlattenSnoc(fragments, last);
  }

  /** One more fragment goes behind the text so far. */
  lemma TextGrows(own: Option<string>, fragments: seq<string>, more: string)
    ensures ArgumentText(own, fragments + [more]) == Append(ArgumentText(own, fragments), Some(more))
  {
    FlattenLast(fragments, more);
    if own.None? && fragments == [] {
      assert "" + Flatten([more]) == more;
    } else {
      var text := if own.Some? then own.value else "";
      Associates(text, Flatten(fragments), more);
    }
  }

  /** A part that is no header leaves positions alone, and a fragment changes one call. */
  lemma CallsAfterDelta(parts: seq<Part>, n: nat)
    requires n < |parts| && parts[n].Delta?
    ensures var before, pos := CallsOf(parts, n), HeaderPositions(parts, n);
            && HeaderPositions(parts, n + 1) == pos
            && (Destination(parts, n).None? ==> CallsOf(parts, n + 1) == before)
            && (forall k | 0 <= k < |pos| && Destination(parts, n) == Some(pos[k]) ::
                  CallsOf(parts, n + 1) == before[k := before[k].(arguments := Append(before[k].arguments, parts[n].argumentsPart))])
  {
    hide LatestHeader, OpenHeader;
    var before, after, pos := CallsOf(parts, n), CallsOf(parts, n + 1), HeaderPositions(parts, n);
    forall k | 0 <= k < |pos|
      ensures after[k] == if Destination(parts, n) == Some(pos[k])
                          then before[k].(arguments := Append(before[k].arguments, parts[n].argumentsPart)) else before[k]
    {
      if parts[n].argumentsPart.Some? {
        TextGrows(parts[pos[k]].arguments, Fragments(parts, n, pos[k]), parts[n].argumentsPart.value);
      }
    }
  }

  lemma CallsAfterContent(parts: seq<Part>, n: nat)
    requires n < |parts| && IsContentPart(parts[n])
    ensures HeaderPositions(parts, n + 1) == HeaderPositions(parts, n) && CallsOf(parts, n + 1) == CallsOf(parts, n)
  {
  }

  lemma {:induction false} NoEarlyFragments(parts: seq<Part>, n: nat, h: nat)
    requires n <= |parts| && n <= h
    ensures Fragments(parts, n, h) == []
  {
    if n > 0 {
      NoEarlyFragments(parts, n - 1, h);
    }
  }

  lemma CallsAfterHeader(parts: seq<Part>, n: nat)
    requires n < |parts| && parts[n].Call?
    ensures HeaderPositions(parts, n + 1) == HeaderPositions(parts, n) + [n]
    ensures CallsOf(parts, n + 1) == CallsOf(parts, n) + [Stored(parts[n])]
  {
    NoEarlyFragments(parts, n, n);
    assert ArgumentText(parts[n].arguments, []) == parts[n].arguments by {
      if parts[n].arguments.Some? {
        assert parts[n].arguments.value + "" == parts[n].arguments.value;
      }
    }
    var before, after, pos := CallsOf(parts, n), CallsOf(parts, n + 1), HeaderPositions(parts, n + 1);
    assert after[|before|] == CallOf(parts, n + 1, n);
    assert Fragments(parts, n + 1, n) == Fragments(parts, n, n);
    assert forall k | 0 <= k < |before| :: after[k] == before[k];
  }

  // ----- one step of the loop -----

  lemma LatestIs(parts: seq<Part>, n: nat, index: Index, k: nat)
    requires n <= |parts| && k < |HeaderPositions(parts, n)|
    requires parts[HeaderPositions(parts, n)[k]].index == Some(index)
    requires forall l | k < l < |HeaderPositions(parts, n)| :: parts[HeaderPositions(parts, n)[l]].index != Some(index)
    ensures LatestHeader(parts, n, index) == Some(HeaderPositions(parts, n)[k])
  {
    hide LatestHeader, HeaderPositions;
    var pos, latest := HeaderPositions(parts, n), LatestHeader(parts, n, index);
    assert parts[pos[k]].Call?;
    var l :| 0 <= l < |pos| && pos[l] == latest.value;
  }

  lemma NoneIsLatest(parts: seq<Part>, n: nat, index: Index)
    requires n <= |parts|
    requires forall l | 0 <= l < |HeaderPositions(parts, n)| :: parts[HeaderPositions(parts, n)[l]].index != Some(index)
    ensures LatestHeader(parts, n, index) == None
  {
    hide LatestHeader, HeaderPositions;
    var latest := LatestHeader(parts, n, index);
    assert latest.Some? ==> latest.value in HeaderPositions(parts, n);
  }

  lemma CallCount(st: State, parts: seq<Part>, n: nat)
    requires n <= |parts| && Tracks(st, parts, n)
    ensures |HeaderPositions(parts, n)| == |st.calls| + if PendingCall(st) then 1 else 0
  {
    hide HeaderPositions, MapsLatest;
    assert |StateCalls(st)| == |CallsOf(parts, n)|;
  }

  /** The loop takes a fragment where it belongs. */
  lemma FragmentGoesHome(st: State, parts: seq<Part>, n: nat)
    requires n < |parts| && parts[n].Delta? && Tracks(st, parts, n)
    ensures var pos, home := HeaderPositions(parts, n), Destination(parts, n);
            && |pos| == |st.calls| + (if PendingCall(st) then 1 else 0)
            && (IsRouted(st, parts[n]) ==>
                  var at := st.positions[parts[n].target.value]; at < |st.calls| && home == Some(pos[at]))
            && (!IsRouted(st, parts[n]) ==> home == if PendingCall(st) then Some(pos[|pos| - 1]) else None)
  {
    CallCount(st, parts, n);
    hide HeaderPositions, LatestHeader, OpenHeader, CallsOf, StateCalls;
    var pos, part := HeaderPositions(parts, n), parts[n];
    if IsRouted(st, part) {
      LatestIs(parts, n, part.target.value, st.positions[part.target.value]);
    } else if part.target.Some? {
      if IsPendingAt(st.pending, part.target.value) {
        LatestIs(parts, n, part.target.value, |pos| - 1);
      } else {
        NoneIsLatest(parts, n, part.target.value);
      }
    }
  }

  /** What one fragment does to the calls, the map and the pending part. */
  lemma FeedDelta(st: State, delta: Part)
    requires delta.Delta? && (IsRouted(st, delta) ==> st.positions[delta.target.value] < |st.calls|)
    ensures var next, calls := Feed(st, delta), StateCalls(st);
            && next.positions == st.positions && |next.calls| == |st.calls|
            && (PendingCall(next) <==> PendingCall(st))
            && (PendingCall(st) ==> next.pending.value.index == st.pending.value.index)
            && |calls| == |st.calls| + (if PendingCall(st) then 1 else 0)
            && var more := (call: StoredCall) => call.(arguments := Append(call.arguments, delta.argumentsPart));
               StateCalls(next) ==
               if IsRouted(st, delta) then
                 var at := st.positions[delta.target.value]; calls[at := more(calls[at])]
               else if PendingCall(st) then calls[|calls| - 1 := more(calls[|calls| - 1])]
               else calls
  {
    if st.pending.Some? && !st.pending.value.Call? && !IsRouted(st, delta) {
      assert Merge(st.pending.value, delta).None?;
    }
  }

  lemma TrackDelta(st: State, parts: seq<Part>, n: nat)
    requires n < |parts| && parts[n].Delta? && Tracks(st, parts, n)
    ensures Tracks(Feed(st, parts[n]), parts, n + 1)
  {
    FragmentGoesHome(st, parts, n);
    FeedDelta(st, parts[n]);
    CallsAfterDelta(parts, n);
    assert OpenHeader(parts, n + 1) == OpenHeader(parts, n);
    hide HeaderPositions, Destination, CallsOf, OpenHeader, MapsLatest, Feed, StateCalls, PendingCall, IsRouted, Append;
  }

  /** One more stored header. */
  lemma MapsMore(positions: map<Index, nat>, parts: seq<Part>, pos: seq<nat>, m: nat)
    requires m < |pos| && forall k | 0 <= k < |pos| :: pos[k] < |parts| && parts[pos[k]].Call?
    requires MapsLatest(positions, parts, pos, m)
    ensures var index := parts[pos[m]].index;
            MapsLatest(if index.Some? then positions[index.value := m] else positions, parts, pos, m + 1)
  {
  }

  /** Content and headers store what is pending, or merge into it. */
  lemma FeedOther(st: State, part: Part)
    requires !part.Delta?
    ensures var next := Feed(st, part);
            && next.calls == StateCalls(st)
            && next.positions == (if PendingCall(st) && st.pending.value.index.Some?
                                  then st.positions[st.pending.value.index.value := |st.calls|] else st.positions)
            && next.pending.Some? && (next.pending.value.Call? <==> part.Call?) && (part.Call? ==> next.pending.value == part)
  {
  }

  /** Then the map knows about every header so far. */
  lemma AllMapped(st: State, parts: seq<Part>, n: nat, part: Part)
    requires n <= |parts| && Tracks(st, parts, n) && !part.Delta?
    ensures var next, pos := Feed(st, part), HeaderPositions(parts, n);
            |next.calls| == |pos| && MapsLatest(next.positions, parts, pos, |pos|)
  {
    CallCount(st, parts, n);
    FeedOther(st, part);
    var pos := HeaderPositions(parts, n);
    hide HeaderPositions, CallsOf, OpenHeader, MapsLatest, Feed, StateCalls;
    if PendingCall(st) {
      MapsMore(st.positions, parts, pos, |st.calls|);
    }
  }

  lemma MapsPrefix(positions: map<Index, nat>, parts: seq<Part>, pos: seq<nat>, more: seq<nat>, m: nat)
    requires m <= |pos| <= |more| && more[..|pos|] == pos
    requires forall k | 0 <= k < |more| :: more[k] < |parts| && parts[more[k]].Call?
    requires forall k | 0 <= k < |pos| :: pos[k] < |parts| && parts[pos[k]].Call?
    requires MapsLatest(positions, parts, pos, m)
    ensures MapsLatest(positions, parts, more, m)
  {
    assert forall k | 0 <= k < |pos| :: more[k] == pos[k];
  }

  lemma TrackHeader(st: State, parts: seq<Part>, n: nat)
    requires n < |parts| && parts[n].Call? && Tracks(st, parts, n)
    ensures Tracks(Feed(st, parts[n]), parts, n + 1)
  {
    FeedOther(st, parts[n]);
    AllMapped(st, parts, n, parts[n]);
    CallsAfterHeader(parts, n);
    MapsPrefix(Feed(st, parts[n]).positions, parts, HeaderPositions(parts, n), HeaderPositions(parts, n + 1), |HeaderPositions(parts, n)|);
    hide HeaderPositions, CallsOf, Feed, MapsLatest;
  }

  lemma TrackContent(st: State, parts: seq<Part>, n: nat)
    requires n < |parts| && IsContentPart(parts[n]) && Tracks(st, parts, n)
    ensures Tracks(Feed(st, parts[n]), parts, n + 1)
  {
    FeedOther(st, parts[n]);
    AllMapped(st, parts, n, parts[n]);
    CallsAfterContent(parts, n);
    hide HeaderPositions, CallsOf, Feed, MapsLatest;
  }

  lemma NothingTracked(parts: seq<Part>)
    ensures Tracks(Run([]), parts, 0)
  {
  }

  lemma {:induction false} RunTracks(parts: seq<Part>, n: nat)
    requires n <= |parts|
    ensures Tracks(Run(parts[..n]), parts, n)
  {
    hide Tracks, Feed, Run;
    if n == 0 {
      NothingTracked(parts);
      assert parts[..0] == [];
    } else {
      RunTracks(parts, n - 1);
      assert parts[..n] == parts[..n - 1] + [parts[n - 1]];
      RunSnoc(parts[..n - 1], parts[n - 1]);
      if parts[n - 1].Delta? {
        TrackDelta(Run(parts[..n - 1]), parts, n - 1);
      } else if parts[n - 1].Call? {
        TrackHeader(Run(parts[..n - 1]), parts, n - 1);
      } else {
        TrackContent(Run(parts[..n - 1]), parts, n - 1);
      }
    }
  }

  /**
   * For any stream at all: the final calls are the headers in order, each with its own text followed
   * by exactly the fragments that belong to it, in stream order.
   */
  lemma FragmentsReachTheirCalls(parts: seq<Part>)
    ensures var pos, calls := HeaderPositions(parts, |parts|), Assemble(parts).calls;
            && |calls| == |pos|
            && forall k | 0 <= k < |pos| ::
                 var header := parts[pos[k]];
                 calls[k] == StoredCall(header.id, header.name,
                                        ArgumentText(header.arguments, Fragments(parts, |parts|, pos[k])), header.extras)
  {
    RunTracks(parts, |parts|);
    assert parts[..|parts|] == parts;
    hide HeaderPositions, Fragments, ArgumentText;
    assert Assemble(parts).calls == StateCalls(Run(parts)) == CallsOf(parts, |parts|);
  }

  // ----- well-routed streams -----

  /** In a well-routed stream a fragment belongs to the one header with its index. */
  lemma RoutedHome(parts: seq<Part>, j: nat)
    requires WellRouted(parts) && j < |parts| && parts[j].Delta?
    ensures Destination(parts, j).Some? && parts[j].target.Some?
    ensures forall h | 0 <= h < |parts| && parts[h].Call? :: Destination(parts, j) == Some(h) <==> parts[h].index == parts[j].target
  {
    hide LatestHeader, OpenHeader;
    var home: nat :| home < j && parts[home].Call? && parts[home].index == parts[j].target;
    var index := parts[j].target.value;
    forall h | 0 <= h < |parts| && parts[h].Call? && parts[h].index == Some(index) ensures h == home {
    }
    var latest := LatestHeader(parts, j, index);
    assert latest.Some? && latest.value == home;
    assert Destination(parts, j) == Some(home);
  }

  /** The texts of the fragments with the given index, in stream order. */
  function TextsOf(parts: seq<Part>, n: nat, index: Index): seq<string>
    requires n <= |parts|
  {
    if n == 0 then []
    else
      var before, part := TextsOf(parts, n - 1, index), parts[n - 1];
      if part.Delta? && part.target == Some(index) && part.argumentsPart.Some? then before + [part.argumentsPart.value] else before
  }

  lemma {:induction false} FragmentsByIndex(parts: seq<Part>, n: nat, h: nat)
    requires WellRouted(parts) && n <= |parts| && h < |parts| && parts[h].Call?
    ensures Fragments(parts, n, h) == if parts[h].index.Some? then TextsOf(parts, n, parts[h].index.value) else []
  {
    hide WellRouted, Destination;
    if n > 0 {
      FragmentsByIndex(parts, n - 1, h);
      if parts[n - 1].Delta? {
        RoutedHome(parts, n - 1);
      }
    }
  }

  /**
   * However the calls of a well-routed stream are interleaved: the text of each call is its header's
   * followed by the texts of the fragments with its index, in order.
   */
  lemma ArgumentsByIndex(parts: seq<Part>)
    requires WellRouted(parts)
    ensures var pos, calls := HeaderPositions(parts, |parts|), Assemble(parts).calls;
            && |calls| == |pos|
            && forall k | 0 <= k < |pos| ::
                 var header := parts[pos[k]];
                 calls[k].arguments == if header.index.None? then header.arguments
                                       else ArgumentText(header.arguments, TextsOf(parts, |parts|, header.index.value))
  {
    hide WellRouted, Fragments, TextsOf, HeaderPositions, Assemble;
    FragmentsReachTheirCalls(parts);
    var pos := HeaderPositions(parts, |parts|);
    forall k | 0 <= k < |pos|
      ensures var header := parts[pos[k]];
              && Fragments(parts, |parts|, pos[k]) == (if header.index.Some? then TextsOf(parts, |parts|, header.index.value) else [])
              && ArgumentText(header.arguments, []) == header.arguments
    {
      FragmentsByIndex(parts, |parts|, pos[k]);
      OwnTextAlone(parts[pos[k]].arguments);
    }
  }

  lemma OwnTextAlone(own: Option<string>)
    ensures ArgumentText(own, []) == own
  {
    if own.Some? {
      assert own.value + "" == own.value;
    }
  }
}
