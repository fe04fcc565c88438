/**
 * `generate` in kosong: putting a streamed assistant message back together, with argument
 * fragments of parallel tool calls arriving interleaved.
 */
module StreamAssembly {
  import opened Sequences

  /** A provider's streaming index: a number or a string. */
  datatype Index = Number(n: int) | Name(s: string)

  datatype MediaKind = Image | Audio | Video

  datatype Part =
    | Text(text: string)
    | Think(think: string, encrypted: Option<string>)
    | Media(kind: MediaKind, url: string, mediaId: Option<string>)
    | Call(id: string, name: string, arguments: Option<string>, extras: Option<string>, index: Option<Index>)
    | Delta(argumentsPart: Option<string>, target: Option<Index>)

  /** A tool call of the final message; the streaming index is stripped. */
  datatype StoredCall = StoredCall(id: string, name: string, arguments: Option<string>, extras: Option<string>)

  predicate IsContentPart(part: Part) { part.Text? || part.Think? || part.Media? }

  function Append(arguments: Option<string>, more: Option<string>): Option<string> {
    if more.None? then arguments
    else if arguments.None? then more
    else Some(arguments.value + more.value)
  }

  // ----- the loop as a state machine -----

  datatype State = State(content: seq<Part>, calls: seq<StoredCall>, positions: map<Index, nat>, pending: Option<Part>)

  const Start := State([], [], map[], None)

  /** `mergeInPlace`: the merged target, or None where the source returns false. */
  function Merge(target: Part, source: Part): Option<Part> {
    if target.Text? && source.Text? then Some(Text(target.text + source.text))
    else if target.Think? && source.Think? then
      if target.encrypted.Some? then None
      else Some(Think(target.think + source.think, source.encrypted))
    else if target.Call? && source.Delta? then
      Some(target.(arguments := Append(target.arguments, source.argumentsPart)))
    else None
  }

  function Stored(call: Part): StoredCall
    requires call.Call?
  {
    StoredCall(call.id, call.name, call.arguments, call.extras)
  }

  /** `flushPart`: content and calls are kept, an orphaned delta is dropped. */
  function Flush(st: State, part: Part): State {
    if IsContentPart(part) then st.(content := st.content + [part])
    else if part.Call? then
      st.(calls := st.calls + [Stored(part)],
          positions := if part.index.Some? then st.positions[part.index.value := |st.calls|] else st.positions)
    else st
  }

  predicate IsPendingAt(pending: Option<Part>, index: Index) {
    pending.Some? && pending.value.Call? && pending.value.index == Some(index)
  }

  /** Is this a delta for a call that is already stored? */
  predicate IsRouted(st: State, part: Part) {
    part.Delta? && part.target.Some? && !IsPendingAt(st.pending, part.target.value) && part.target.value in st.positions
  }

  function Feed(st: State, part: Part): State {
    if IsRouted(st, part) then
      var at := st.positions[part.target.value];
      if at < |st.calls| then
        var call := st.calls[at];
        st.(calls := st.calls[at := call.(arguments := Append(call.arguments, part.argumentsPart))])
      else st
    else if st.pending.None? then st.(pending := Some(part))
    else match Merge(st.pending.value, part)
      case Some(merged) => st.(pending := Some(merged))
      case None => Flush(st, st.pending.value).(pending := Some(part))
  }

  function Run(parts: seq<Part>): State {
    if parts == [] then Start else Feed(Run(parts[..|parts| - 1]), parts[|parts| - 1])
  }

  function Finished(st: State): State {
    if st.pending.None? then st else Flush(st, st.pending.value).(pending := None)
  }

  function Assemble(parts: seq<Part>): State {
    Finished(Run(parts))
  }

  lemma RunSnoc(parts: seq<Part>, part: Part)
    ensures Run(parts + [part]) == Feed(Run(parts), part)
  {
    assert (parts + [part])[..|parts|] == parts;
  }

  // ----- the imperative loop -----

  /** A streamed part, updated in place while later fragments are merged into it. */
  class PartCell {
    var part: Part

    constructor (part: Part)
      ensures this.part == part
    {
      this.part := part;
    }

    method MergeInPlace(source: Part) returns (merged: bool)
      modifies this
      ensures merged <==> Merge(old(part), source).Some?
      ensures part == if merged then Merge(old(part), source).value else old(part)
    {
      if part.Text? && source.Text? {
        part := part.(text := part.text + source.text);
        return true;
      }
      if part.Think? && source.Think? {
        if part.encrypted.Some? {
          return false;
        }
        part := part.(think := part.think + source.think);
        if source.encrypted.Some? {
          part := part.(encrypted := source.encrypted);
        }
        return true;
      }
      if part.Call? && source.Delta? {
        if source.argumentsPart.Some? {
          part := part.(arguments :=
            if part.arguments.None? then source.argumentsPart
            else Some(part.arguments.value + source.argumentsPart.value));
        }
        return true;
      }
      return false;
    }
  }

  class Message {
    var content: seq<Part>
    var toolCalls: seq<StoredCall>
    var toolCallIndexMap: map<Index, nat>

    constructor ()
      ensures content == [] && toolCalls == [] && toolCallIndexMap == map[]
    {
      content, toolCalls, toolCallIndexMap := [], [], map[];
    }

    function View(pending: Option<Part>): State
      reads this
    {
      State(content, toolCalls, toolCallIndexMap, pending)
    }

    method FlushPart(part: Part)
      modifies this
      ensures forall pending :: View(pending) == Flush(old(View(pending)), part)
    {
      if IsContentPart(part) {
        content := content + [part];
        return;
      }
      if part.Call? {
        var ordinal := |toolCalls|;
        toolCalls := toolCalls + [StoredCall(part.id, part.name, part.arguments, part.extras)];
        if part.index.Some? {
          toolCallIndexMap := toolCallIndexMap[part.index.value := ordinal];
        }
      }
    }

    method AppendArguments(at: nat, argumentsPart: Option<string>)
      requires at < |toolCalls|
      modifies this
      ensures content == old(content) && toolCallIndexMap == old(toolCallIndexMap)
      ensures toolCalls == old(toolCalls)[at := old(toolCalls)[at].(
                arguments := Append(old(toolCalls)[at].arguments, argumentsPart))]
    {
      if argumentsPart.Some? {
        var target := toolCalls[at];
        var arguments := if target.arguments.None? then argumentsPart
                         else Some(target.arguments.value + argumentsPart.value);
        toolCalls := toolCalls[at := target.(arguments := arguments)];
      }
    }
  }

  /** White space and line terminators removed by `String.prototype.trim`. */
  predicate IsBlank(c: char) {
    c in "\t\n\r \U{B}\U{C}\U{A0}\U{1680}\U{2028}\U{2029}\U{202F}\U{205F}\U{3000}\U{FEFF}" || '\U{2000}' <= c <= '\U{200A}'
  }

  /** By number: WhiteSpace and LineTerminator of ECMA-262, sections 12.2 and 12.3. */
  lemma BlankCharacters(c: char)
    ensures IsBlank(c) <==>
            c as int in {0x9, 0xA, 0xB, 0xC, 0xD, 0x20, 0xA0, 0x1680, 0x2028, 0x2029, 0x202F, 0x205F, 0x3000, 0xFEFF}
            || 0x2000 <= c as int <= 0x200A
  {
    var blanks := "\t\n\r \U{B}\U{C}\U{A0}\U{1680}\U{2028}\U{2029}\U{202F}\U{205F}\U{3000}\U{FEFF}";
    assert blanks[0] == '\t' && blanks[1] == '\n' && blanks[2] == '\r' && blanks[3] == ' ';
    assert blanks[4] == '\U{B}' && blanks[5] == '\U{C}' && blanks[6] == '\U{A0}' && blanks[7] == '\U{1680}';
    assert blanks[8] == '\U{2028}' && blanks[9] == '\U{2029}' && blanks[10] == '\U{202F}' && blanks[11] == '\U{205F}';
    assert blanks[12] == '\U{3000}' && blanks[13] == '\U{FEFF}';
  }

  datatype GenerateResult = Generated(content: seq<Part>, toolCalls: seq<StoredCall>)
    | EmptyResponse | OnlyThinking | Interrupted

  predicate HasText(content: seq<Part>) {
    exists i | 0 <= i < |content| :: content[i].Text? && exists k | 0 <= k < |content[i].text| :: !IsBlank(content[i].text[k])
  }

  predicate HasThink(content: seq<Part>) {
    exists i | 0 <= i < |content| :: content[i].Think?
  }

  /** `generate` after the request: `finished` says whether a finish reason arrived. */
  method Generate(stream: seq<Part>, finished: bool) returns (result: GenerateResult)
    ensures var m := Assemble(stream);
            var thinks := exists i :: 0 <= i < |m.content| && m.content[i].Think?;
            var says := exists i, k :: 0 <= i < |m.content| && m.content[i].Text? && 0 <= k < |m.content[i].text|
                                       && !IsBlank(m.content[i].text[k]);
            result ==
            if m.content == [] && m.calls == [] then EmptyResponse
            else if thinks && !says && m.calls == [] then OnlyThinking
            else if !finished then Interrupted
            else Generated(m.content, m.calls)
  {
    var message := new Message();
    var pendingPart: PartCell? := null;
    assert stream[..0] == [];
    for i := 0 to |stream|
      invariant fresh(message)
      invariant pendingPart != null ==> fresh(pendingPart)
      invariant message.View(if pendingPart == null then None else Some(pendingPart.part)) == Run(stream[..i])
    {
      var part := stream[i];
      assert stream[..i + 1] == stream[..i] + [part];
      RunSnoc(stream[..i], part);
      if part.Delta? && part.target.Some? &&
         !(pendingPart != null && IsPendingAt(Some(pendingPart.part), part.target.value)) &&
         part.target.value in message.toolCallIndexMap
      {
        var arrayIdx := message.toolCallIndexMap[part.target.value];
        if arrayIdx < |message.toolCalls| {
          message.AppendArguments(arrayIdx, part.argumentsPart);
        }
      } else if pendingPart == null {
        pendingPart := new PartCell(part);
      } else {
        var merged := pendingPart.MergeInPlace(part);
        if !merged {
          message.FlushPart(pendingPart.part);
          pendingPart := new PartCell(part);
        }
      }
    }
    assert stream[..|stream|] == stream;
    if pendingPart != null {
      message.FlushPart(pendingPart.part);
    }
    if |message.content| == 0 && |message.toolCalls| == 0 {
      return EmptyResponse;
    }
    if HasThink(message.content) && !HasText(message.content) && |message.toolCalls| == 0 {
      return OnlyThinking;
    }
    if !finished {
      return Interrupted;
    }
    result := Generated(message.content, message.toolCalls);
  }
}
