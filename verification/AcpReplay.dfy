/**
 * `replayHistory`: a stored conversation is sent again as session updates. Tool results carry only
 * a raw id, so a map remembers the synthetic turn of the message that issued each call.
 */
module AcpReplay {
  import opened Sequences
  import opened WireIds
  import Cards = AcpToolStream

  datatype ContentPart = TextPart(text: string) | ThinkPart(think: string) | OtherPart

  /** A stored call; `args` is its argument text after parsing. */
  datatype ToolCall = ToolCall(id: string, name: string, args: string)

  datatype Message =
    | User(parts: seq<ContentPart>)
    | Assistant(parts: seq<ContentPart>, toolCalls: seq<ToolCall>)
    | ToolResult(toolCallId: Option<string>, isError: bool, output: string)
    | OtherRole

  datatype Note =
    | UserChunk(text: string)
    | AgentChunk(text: string)
    | ThoughtChunk(text: string)
    | Create(wireId: string, card: Cards.Card)
    | Update(wireId: string, failed: bool, output: string)

  /** The notes pushed so far include those whose push failed. */
  datatype State = State(turnId: nat, owners: map<string, nat>, pushes: seq<Note>)

  const Fresh := State(0, map[], [])

  /** A step of the replay, and whether it ended without a failed push. */
  datatype Outcome = Outcome(st: State, ok: bool)

  function UserNotes(part: ContentPart): seq<Note> {
    if part.TextPart? && part.text != "" then [UserChunk(part.text)] else []
  }

  function AssistantNotes(part: ContentPart): seq<Note> {
    if part.TextPart? && part.text != "" then [AgentChunk(part.text)]
    else if part.ThinkPart? && part.think != "" then [ThoughtChunk(part.think)]
    else []
  }

  function CreateNote(turnId: nat, call: ToolCall): Note {
    Create(AcpToolCallId(turnId, call.id),
           Cards.StartedCard(Cards.Started(None, turnId, call.id, call.name, None, call.args, None, None)))
  }

  /** Pushes notes until one fails; `accepts(i)` says whether the push numbered `i` succeeds. */
  function PushAll(st: State, notes: seq<Note>, accepts: nat -> bool): Outcome
    decreases |notes|
  {
    if notes == [] then Outcome(st, true)
    else
      var next := st.(pushes := st.pushes + [notes[0]]);
      if accepts(|st.pushes|) then PushAll(next, notes[1..], accepts) else Outcome(next, false)
  }

  function ContentNotes(parts: seq<ContentPart>, user: bool): seq<Note> {
    if parts == [] then []
    else
      ContentNotes(parts[..|parts| - 1], user)
      + if user then UserNotes(parts[|parts| - 1]) else AssistantNotes(parts[|parts| - 1])
  }

  /** Each call is recorded before it is pushed. */
  function IssueAll(st: State, calls: seq<ToolCall>, accepts: nat -> bool): State
    decreases |calls|
  {
    if calls == [] then st
    else
      var next := st.(owners := st.owners[calls[0].id := st.turnId], pushes := st.pushes + [CreateNote(st.turnId, calls[0])]);
      if accepts(|st.pushes|) then IssueAll(next, calls[1..], accepts) else next
  }

  function ReplayMessage(st: State, message: Message, accepts: nat -> bool): State {
    match message
    case User(parts) => PushAll(st, ContentNotes(parts, true), accepts).st
    case Assistant(parts, calls) =>
      var spoken := PushAll(st.(turnId := st.turnId + 1), ContentNotes(parts, false), accepts);
      if spoken.ok then IssueAll(spoken.st, calls, accepts) else spoken.st
    case ToolResult(id, isError, output) =>
      if id.None? || id.value == "" || id.value !in st.owners then st
      else st.(pushes := st.pushes + [Update(AcpToolCallId(st.owners[id.value], id.value), isError, output)])
    case OtherRole => st
  }

  function Replay(history: seq<Message>, accepts: nat -> bool): State {
    if history == [] then Fresh
    else ReplayMessage(Replay(history[..|history| - 1], accepts), history[|history| - 1], accepts)
  }

  // ----- the imperative replay -----

  class Replayer {
    var turnId: nat
    var toolCallTurnIds: map<string, nat>
    var pushes: seq<Note>

    constructor ()
      ensures View() == Fresh
    {
      turnId, toolCallTurnIds, pushes := 0, map[], [];
    }

    function View(): State
      reads this
    {
      State(turnId, toolCallTurnIds, pushes)
    }

    /** `conn.sessionUpdate`: false where the push rejects. */
    method SessionUpdate(note: Note, accepts: nat -> bool) returns (ok: bool)
      modifies this`pushes
      ensures pushes == old(pushes) + [note] && ok == accepts(|old(pushes)|)
    {
      ok := accepts(|pushes|);
      pushes := pushes + [note];
    }

    method ReplayContent(parts: seq<ContentPart>, user: bool, accepts: nat -> bool) returns (ok: bool)
      modifies this`pushes
      ensures Outcome(View(), ok) == PushAll(old(View()), ContentNotes(parts, user), accepts)
    {
      assert parts[..0] == [];
      for i := 0 to |parts|
        invariant Outcome(View(), true) == PushAll(old(View()), ContentNotes(parts[..i], user), accepts)
      {
        assert parts[..i + 1][..i] == parts[..i];
        var before := ContentNotes(parts[..i], user);
        var notes := if user then UserNotes(parts[i]) else AssistantNotes(parts[i]);
        if |notes| > 0 {
          PushOneMore(old(View()), before, notes[0], accepts);
          assert ContentNotes(parts[..i + 1], user) == before + [notes[0]];
          var pushed := SessionUpdate(notes[0], accepts);
          if !pushed {
            FailureEnds(old(View()), parts, i + 1, user, accepts);
            return false;
          }
        } else {
          assert ContentNotes(parts[..i + 1], user) == before;
        }
      }
      assert parts[..|parts|] == parts;
      ok := true;
    }

    method IssueCalls(calls: seq<ToolCall>, accepts: nat -> bool)
      modifies this
      ensures View() == IssueAll(old(View()), calls, accepts)
    {
      hide CreateNote;
      for i := 0 to |calls|
        invariant IssueAll(View(), calls[i..], accepts) == IssueAll(old(View()), calls, accepts)
      {
        assert calls[i..][0] == calls[i] && calls[i..][1..] == calls[i + 1..];
        toolCallTurnIds := toolCallTurnIds[calls[i].id := turnId];
        var ok := SessionUpdate(CreateNote(turnId, calls[i]), accepts);
        if !ok {
          return;
        }
      }
    }

    method ReplayOne(message: Message, accepts: nat -> bool)
      modifies this
      ensures View() == ReplayMessage(old(View()), message, accepts)
    {
      match message {
        case User(parts) =>
          var ok := ReplayContent(parts, true, accepts);
        case Assistant(parts, calls) =>
          turnId := turnId + 1;
          var ok := ReplayContent(parts, false, accepts);
          if ok {
            IssueCalls(calls, accepts);
          }
        case ToolResult(id, isError, output) =>
          if id.None? || id.value == "" || id.value !in toolCallTurnIds {
            return;
          }
          var ok := SessionUpdate(Update(AcpToolCallId(toolCallTurnIds[id.value], id.value), isError, output), accepts);
        case OtherRole =>
      }
    }
  }

  method ReplayHistory(history: seq<Message>, accepts: nat -> bool) returns (pushes: seq<Note>)
    ensures pushes == Replay(history, accepts).pushes
  {
    var replayer := new Replayer();
    assert history[..0] == [];
    for i := 0 to |history|
      invariant fresh(replayer) && replayer.View() == Replay(history[..i], accepts)
    {
      assert history[..i + 1][..i] == history[..i];
      replayer.ReplayOne(history[i], accepts);
    }
    assert history[..|history|] == history;
    pushes := replayer.pushes;
  }

  lemma {:induction false} PushOneMore(st: State, notes: seq<Note>, note: Note, accepts: nat -> bool)
    requires PushAll(st, notes, accepts).ok
    ensures var before := PushAll(st, notes, accepts).st;
            PushAll(st, notes + [note], accepts)
            == Outcome(before.(pushes := before.pushes + [note]), accepts(|before.pushes|))
    decreases |notes|
  {
    if notes != [] {
      assert (notes + [note])[1..] == notes[1..] + [note];
      PushOneMore(st.(pushes := st.pushes + [notes[0]]), notes[1..], note, accepts);
    }
  }

  /** Nothing is pushed after a failure, whatever was still to come. */
  lemma {:induction false} PushStops(st: State, notes: seq<Note>, more: seq<Note>, accepts: nat -> bool)
    requires !PushAll(st, notes, accepts).ok
    ensures PushAll(st, notes + more, accepts) == PushAll(st, notes, accepts)
    decreases |notes|
  {
    if accepts(|st.pushes|) {
      assert (notes + more)[1..] == notes[1..] + more;
      PushStops(st.(pushes := st.pushes + [notes[0]]), notes[1..], more, accepts);
    }
  }

  lemma {:induction false} FailureEnds(st: State, parts: seq<ContentPart>, n: nat, user: bool, accepts: nat -> bool)
    requires n <= |parts| && !PushAll(st, ContentNotes(parts[..n], user), accepts).ok
    ensures PushAll(st, ContentNotes(parts, user), accepts) == PushAll(st, ContentNotes(parts[..n], user), accepts)
    decreases |parts| - n
  {
    if n == |parts| {
      assert parts[..n] == parts;
    } else {
      assert parts[..n + 1][..n] == parts[..n];
      PushStops(st, ContentNotes(parts[..n], user), if user then UserNotes(parts[n]) else AssistantNotes(parts[n]), accepts);
      FailureEnds(st, parts, n + 1, user, accepts);
    }
  }
}
