/** What a replayed conversation looks like on the wire. */
module AcpReplayTheorems {
  import opened Sequences
  import opened WireIds
  import opened AcpReplay
  import Cards = AcpToolStream
  import AcpToolTheorems

  /** The note creates the card of raw id `r` in turn `t`. */
  predicate Issues(note: Note, t: int, r: string) {
    note.Create? && note.wireId == AcpToolCallId(t, r)
  }

  ghost predicate CreatesUnique(notes: seq<Note>) {
    forall i, j | 0 <= i < j < |notes| && notes[i].Create? && notes[j].Create? :: notes[i].wireId != notes[j].wireId
  }

  ghost predicate CreatedBefore(notes: seq<Note>, n: nat, wireId: string)
    requires n <= |notes|
  {
    exists i | 0 <= i < n :: notes[i].Create? && notes[i].wireId == wireId
  }

  ghost predicate UpdatesFollowCreates(notes: seq<Note>) {
    forall j | 0 <= j < |notes| && notes[j].Update? :: CreatedBefore(notes, j, notes[j].wireId)
  }

  ghost predicate DistinctIds(calls: seq<ToolCall>) {
    forall i, j | 0 <= i < j < |calls| :: calls[i].id != calls[j].id
  }

  ghost predicate DistinctCalls(history: seq<Message>) {
    forall m | 0 <= m < |history| && history[m].Assistant? :: DistinctIds(history[m].toolCalls)
  }

  // ----- updates, whatever pushes fail -----

  /** Every recorded call was created in its recorded turn, and updates only name created cards. */
  ghost predicate Sound(st: State) {
    && UpdatesFollowCreates(st.pushes)
    && (forall r | r in st.owners :: CreatedBefore(st.pushes, |st.pushes|, AcpToolCallId(st.owners[r], r)))
  }

  lemma CreatedStays(notes: seq<Note>, note: Note, n: nat, wireId: string)
    requires n <= |notes| && CreatedBefore(notes, n, wireId)
    ensures CreatedBefore(notes + [note], n, wireId) && CreatedBefore(notes + [note], |notes| + 1, wireId)
  {
    var i :| 0 <= i < n && notes[i].Create? && notes[i].wireId == wireId;
    assert (notes + [note])[i] == notes[i];
  }

  lemma SoundSnoc(st: State, note: Note)
    requires Sound(st)
    requires note.Update? ==> CreatedBefore(st.pushes, |st.pushes|, note.wireId)
    ensures Sound(st.(pushes := st.pushes + [note]))
  {
    hide CreatedBefore, AcpToolCallId;
    var all := st.pushes + [note];
    forall j | 0 <= j < |all| && all[j].Update? ensures CreatedBefore(all, j, all[j].wireId) {
      CreatedStays(st.pushes, note, j, all[j].wireId);
    }
    forall r | r in st.owners ensures CreatedBefore(all, |all|, AcpToolCallId(st.owners[r], r)) {
      CreatedStays(st.pushes, note, |st.pushes|, AcpToolCallId(st.owners[r], r));
    }
  }

  lemma IssueSound(st: State, call: ToolCall)
    requires Sound(st)
    ensures Sound(st.(owners := st.owners[call.id := st.turnId], pushes := st.pushes + [CreateNote(st.turnId, call)]))
  {
    hide AcpToolCallId;
    var note := CreateNote(st.turnId, call);
    SoundSnoc(st, note);
    var all := st.pushes + [note];
    assert all[|st.pushes|] == note;
    assert CreatedBefore(all, |all|, AcpToolCallId(st.turnId, call.id));
  }

  lemma {:induction false} PushAllSound(st: State, notes: seq<Note>, accepts: nat -> bool)
    requires Sound(st) && forall i | 0 <= i < |notes| :: !notes[i].Update?
    ensures Sound(PushAll(st, notes, accepts).st)
    decreases |notes|
  {
    hide Sound;
    if notes != [] {
      SoundSnoc(st, notes[0]);
      PushAllSound(st.(pushes := st.pushes + [notes[0]]), notes[1..], accepts);
    }
  }

  lemma {:induction false} IssueAllSound(st: State, calls: seq<ToolCall>, accepts: nat -> bool)
    requires Sound(st)
    ensures Sound(IssueAll(st, calls, accepts))
    decreases |calls|
  {
    hide Sound, CreateNote;
    if calls != [] {
      IssueSound(st, calls[0]);
      IssueAllSound(st.(owners := st.owners[calls[0].id := st.turnId], pushes := st.pushes + [CreateNote(st.turnId, calls[0])]),
                    calls[1..], accepts);
    }
  }

  lemma {:induction false} ContentIsChunks(parts: seq<ContentPart>, user: bool)
    ensures forall i | 0 <= i < |ContentNotes(parts, user)| ::
              var note := ContentNotes(parts, user)[i]; !note.Update? && !note.Create?
  {
    if parts != [] {
      ContentIsChunks(parts[..|parts| - 1], user);
    }
  }

  lemma MessageSound(st: State, message: Message, accepts: nat -> bool)
    requires Sound(st)
    ensures Sound(ReplayMessage(st, message, accepts))
  {
    hide PushAll, IssueAll;
    match message
    case User(parts) =>
      ContentIsChunks(parts, true);
      PushAllSound(st, ContentNotes(parts, true), accepts);
    case Assistant(parts, calls) =>
      var begun := st.(turnId := st.turnId + 1);
      ContentIsChunks(parts, false);
      PushAllSound(begun, ContentNotes(parts, false), accepts);
      IssueAllSound(PushAll(begun, ContentNotes(parts, false), accepts).st, calls, accepts);
    case ToolResult(id, isError, output) =>
      if id.Some? && id.value != "" && id.value in st.owners {
        SoundSnoc(st, Update(AcpToolCallId(st.owners[id.value], id.value), isError, output));
      }
    case OtherRole =>
  }

  /** No update goes out for a card that was not created before, even when pushes fail. */
  lemma {:induction false} UpdatesNameCreatedCards(history: seq<Message>, accepts: nat -> bool)
    ensures Sound(Replay(history, accepts))
  {
    if history != [] {
      UpdatesNameCreatedCards(history[..|history| - 1], accepts);
      MessageSound(Replay(history[..|history| - 1], accepts), history[|history| - 1], accepts);
    }
  }

  // ----- creates, whatever pushes fail -----

  /** Every card so far belongs to an earlier turn, or to this one with an id in `used`. */
  ghost predicate Owned(st: State, used: set<string>) {
    forall i | 0 <= i < |st.pushes| && st.pushes[i].Create? ::
      exists t, r :: Issues(st.pushes[i], t, r) && (t < st.turnId || (t == st.turnId && r in used))
  }

  lemma IssueUnique(st: State, call: ToolCall, used: set<string>)
    requires CreatesUnique(st.pushes) && Owned(st, used) && call.id !in used
    ensures var next := st.(owners := st.owners[call.id := st.turnId], pushes := st.pushes + [CreateNote(st.turnId, call)]);
            CreatesUnique(next.pushes) && Owned(next, used + {call.id})
  {
    hide AcpToolCallId;
    var note := CreateNote(st.turnId, call);
    var all := st.pushes + [note];
    assert Issues(note, st.turnId, call.id);
    forall i | 0 <= i < |st.pushes| && st.pushes[i].Create?
      ensures st.pushes[i].wireId != note.wireId
      ensures exists t, r :: Issues(all[i], t, r) && (t < st.turnId || (t == st.turnId && r in used + {call.id}))
    {
      var t, r :| Issues(st.pushes[i], t, r) && (t < st.turnId || (t == st.turnId && r in used));
      if st.pushes[i].wireId == note.wireId {
        AcpToolCallIdInjective(t, r, st.turnId, call.id);
      }
      assert Issues(all[i], t, r);
    }
  }

  lemma {:induction false} IssueAllUnique(st: State, calls: seq<ToolCall>, used: set<string>, accepts: nat -> bool)
    requires CreatesUnique(st.pushes) && Owned(st, used)
    requires DistinctIds(calls) && forall i | 0 <= i < |calls| :: calls[i].id !in used
    ensures CreatesUnique(IssueAll(st, calls, accepts).pushes)
    ensures exists more :: Owned(IssueAll(st, calls, accepts), more)
    decreases |calls|
  {
    hide Owned, CreatesUnique, CreateNote;
    if calls != [] {
      var next := st.(owners := st.owners[calls[0].id := st.turnId], pushes := st.pushes + [CreateNote(st.turnId, calls[0])]);
      IssueUnique(st, calls[0], used);
      IssueAllUnique(next, calls[1..], used + {calls[0].id}, accepts);
    }
  }

  /** Pushing anything but a create changes nothing about the cards. */
  lemma ChunkKeepsCards(st: State, note: Note, used: set<string>)
    requires CreatesUnique(st.pushes) && Owned(st, used) && !note.Create?
    ensures var next := st.(pushes := st.pushes + [note]); CreatesUnique(next.pushes) && Owned(next, used)
  {
  }

  lemma {:induction false} ChunksKeepCards(st: State, notes: seq<Note>, used: set<string>, accepts: nat -> bool)
    requires CreatesUnique(st.pushes) && Owned(st, used)
    requires forall i | 0 <= i < |notes| :: !notes[i].Create?
    ensures var next := PushAll(st, notes, accepts).st; CreatesUnique(next.pushes) && Owned(next, used) && next.turnId == st.turnId
    decreases |notes|
  {
    hide CreatesUnique, Owned;
    if notes != [] {
      ChunkKeepsCards(st, notes[0], used);
      ChunksKeepCards(st.(pushes := st.pushes + [notes[0]]), notes[1..], used, accepts);
    }
  }

  /** A new turn has used no ids yet. */
  lemma NextTurn(st: State, used: set<string>)
    requires Owned(st, used)
    ensures Owned(st.(turnId := st.turnId + 1), {})
  {
  }

  lemma MessageUnique(st: State, message: Message, used: set<string>, accepts: nat -> bool)
    requires CreatesUnique(st.pushes) && Owned(st, used)
    requires message.Assistant? ==> DistinctIds(message.toolCalls)
    ensures CreatesUnique(ReplayMessage(st, message, accepts).pushes)
    ensures exists more :: Owned(ReplayMessage(st, message, accepts), more)
  {
    hide PushAll, IssueAll, CreatesUnique, Owned;
    match message
    case User(parts) =>
      ContentIsChunks(parts, true);
      ChunksKeepCards(st, ContentNotes(parts, true), used, accepts);
    case Assistant(parts, calls) =>
      var begun := st.(turnId := st.turnId + 1);
      NextTurn(st, used);
      ContentIsChunks(parts, false);
      ChunksKeepCards(begun, ContentNotes(parts, false), {}, accepts);
      IssueAllUnique(PushAll(begun, ContentNotes(parts, false), accepts).st, calls, {}, accepts);
    case ToolResult(id, isError, output) =>
      if id.Some? && id.value != "" && id.value in st.owners {
        ChunkKeepsCards(st, Update(AcpToolCallId(st.owners[id.value], id.value), isError, output), used);
      }
    case OtherRole =>
  }

  /** No card is created twice when each message's ids are distinct, even when pushes fail. */
  lemma {:induction false} CreatesAreUnique(history: seq<Message>, accepts: nat -> bool)
    requires DistinctCalls(history)
    ensures CreatesUnique(Replay(history, accepts).pushes)
    ensures exists used :: Owned(Replay(history, accepts), used)
  {
    hide CreatesUnique, ReplayMessage;
    if history == [] {
      assert Owned(Replay([], accepts), {});
      assert CreatesUnique([]) by { NothingCreated(); }
    } else {
      var init, last := history[..|history| - 1], history[|history| - 1];
      CreatesAreUnique(init, accepts);
      var used :| Owned(Replay(init, accepts), used);
      assert history[|history| - 1] == last;
      MessageUnique(Replay(init, accepts), last, used, accepts);
    }
  }

  lemma NothingCreated()
    ensures CreatesUnique([])
  {
  }

  // ----- the whole replay in closed form, when every push succeeds -----

  function CountAssistants(history: seq<Message>): nat {
    if history == [] then 0
    else CountAssistants(history[..|history| - 1]) + if history[|history| - 1].Assistant? then 1 else 0
  }

  predicate HasId(calls: seq<ToolCall>, r: string) {
    exists i | 0 <= i < |calls| :: calls[i].id == r
  }

  /** The turn of the last message in `history` that issues raw id `r`. */
  function LatestIssuer(history: seq<Message>, r: string): Option<nat> {
    if history == [] then None
    else if history[|history| - 1].Assistant? && HasId(history[|history| - 1].toolCalls, r) then Some(CountAssistants(history))
    else LatestIssuer(history[..|history| - 1], r)
  }

  /** The card of a stored call. */
  function CardOf(call: ToolCall): Cards.Card {
    Cards.Card(call.name, AcpToolTheorems.KindOf(call.name), Cards.InProgress, Some(call.args), [Cards.TextBlock(call.args)])
  }

  function CreateNotes(turnId: nat, calls: seq<ToolCall>): seq<Note> {
    seq(|calls|, i requires 0 <= i < |calls| => Create(AcpToolCallId(turnId, calls[i].id), CardOf(calls[i])))
  }

  lemma CreatesItsCard(turnId: nat, call: ToolCall)
    ensures CreateNote(turnId, call) == Create(AcpToolCallId(turnId, call.id), CardOf(call))
  {
    hide AcpToolCallId;
    AcpToolTheorems.StartIsShown(Cards.Started(None, turnId, call.id, call.name, None, call.args, None, None));
  }

  /** The non-empty texts a user said, or texts and thoughts of the assistant. */
  function Chunks(parts: seq<ContentPart>, user: bool): seq<Note> {
    if parts == [] then []
    else
      var before := Chunks(parts[..|parts| - 1], user);
      match parts[|parts| - 1]
      case TextPart(text) => if text == "" then before else before + [if user then UserChunk(text) else AgentChunk(text)]
      case ThinkPart(think) => if user || think == "" then before else before + [ThoughtChunk(think)]
      case OtherPart => before
  }

  lemma {:induction false} ContentInChunks(parts: seq<ContentPart>, user: bool)
    ensures ContentNotes(parts, user) == Chunks(parts, user)
  {
    if parts != [] {
      ContentInChunks(parts[..|parts| - 1], user);
    }
  }

  /** What a message is replayed as, given the messages before it. */
  function Rendered(before: seq<Message>, message: Message): seq<Note> {
    match message
    case User(parts) => Chunks(parts, true)
    case Assistant(parts, calls) =>
      Chunks(parts, false) + CreateNotes(CountAssistants(before) + 1, calls)
    case ToolResult(id, isError, output) =>
      if id.Some? && id.value != "" && LatestIssuer(before, id.value).Some?
      then [Update(AcpToolCallId(LatestIssuer(before, id.value).value, id.value), isError, output)]
      else []
    case OtherRole => []
  }

  function Transcript(history: seq<Message>): seq<Note> {
    if history == [] then []
    else Transcript(history[..|history| - 1]) + Rendered(history[..|history| - 1], history[|history| - 1])
  }

  function Always(): nat -> bool { i => true }

  lemma {:induction false} AllPushed(st: State, notes: seq<Note>)
    ensures PushAll(st, notes, Always()) == Outcome(st.(pushes := st.pushes + notes), true)
    decreases |notes|
  {
    if notes == [] {
      assert st.pushes + notes == st.pushes;
    } else {
      AllPushed(st.(pushes := st.pushes + [notes[0]]), notes[1..]);
      assert st.pushes + [notes[0]] + notes[1..] == st.pushes + notes;
    }
  }

  lemma HasIdCons(calls: seq<ToolCall>, r: string)
    requires calls != []
    ensures HasId(calls, r) <==> calls[0].id == r || HasId(calls[1..], r)
  {
  }

  lemma {:induction false} AllIssued(st: State, calls: seq<ToolCall>)
    ensures var done := IssueAll(st, calls, Always());
            done.pushes == st.pushes + CreateNotes(st.turnId, calls) && done.turnId == st.turnId
    ensures forall r :: Owner(IssueAll(st, calls, Always()), r) == if HasId(calls, r) then Some(st.turnId) else Owner(st, r)
    decreases |calls|
  {
    hide CreateNote, HasId;
    if calls == [] {
      assert st.pushes + CreateNotes(st.turnId, calls) == st.pushes;
      NoId();
    } else {
      var next := st.(owners := st.owners[calls[0].id := st.turnId], pushes := st.pushes + [CreateNote(st.turnId, calls[0])]);
      AllIssued(next, calls[1..]);
      var first, rest := CreateNote(st.turnId, calls[0]), CreateNotes(st.turnId, calls[1..]);
      CreatesItsCard(st.turnId, calls[0]);
      assert [first] + rest == CreateNotes(st.turnId, calls);
      hide CreateNotes;
      Associates(st.pushes, [first], rest);
      forall r
        ensures Owner(IssueAll(st, calls, Always()), r) == if HasId(calls, r) then Some(st.turnId) else Owner(st, r)
      {
        HasIdCons(calls, r);
      }
    }
  }

  lemma NoId()
    ensures forall r :: !HasId([], r)
  {
  }

  function Owner(st: State, r: string): Option<nat> {
    if r in st.owners then Some(st.owners[r]) else None
  }

  /** The state mirrors the history: turns are counted, and each raw id belongs to its latest issuer. */
  ghost predicate Mirrors(st: State, history: seq<Message>) {
    && st.turnId == CountAssistants(history)
    && st.pushes == Transcript(history)
    && (forall r :: Owner(st, r) == LatestIssuer(history, r))
  }

  lemma HistorySnoc(before: seq<Message>, message: Message)
    ensures CountAssistants(before + [message]) == CountAssistants(before) + if message.Assistant? then 1 else 0
    ensures Transcript(before + [message]) == Transcript(before) + Rendered(before, message)
    ensures forall r :: LatestIssuer(before + [message], r) ==
                        if message.Assistant? && HasId(message.toolCalls, r) then Some(CountAssistants(before) + 1)
                        else LatestIssuer(before, r)
  {
    hide Rendered;
    assert (before + [message])[..|before|] == before;
  }

  lemma MessageMirrors(st: State, before: seq<Message>, message: Message)
    requires Mirrors(st, before)
    ensures Mirrors(ReplayMessage(st, message, Always()), before + [message])
  {
    hide CreateNotes, ContentNotes, Chunks, HasId, Always, AcpToolCallId, LatestIssuer, CountAssistants, Transcript, PushAll, IssueAll;
    HistorySnoc(before, message);
    match message
    case User(parts) =>
      ContentInChunks(parts, true);
      AllPushed(st, ContentNotes(parts, true));
    case Assistant(parts, calls) =>
      var begun := st.(turnId := st.turnId + 1);
      ContentInChunks(parts, false);
      var content := ContentNotes(parts, false);
      AllPushed(begun, content);
      var spoken := begun.(pushes := begun.pushes + content);
      AllIssued(spoken, calls);
      var creates := CreateNotes(begun.turnId, calls);
      assert st.pushes + content + creates == st.pushes + (content + creates);
      forall r ensures Owner(IssueAll(spoken, calls, Always()), r) == LatestIssuer(before + [message], r) {
        assert Owner(spoken, r) == Owner(st, r);
      }
    case ToolResult(id, isError, output) =>
      assert id.Some? ==> Owner(st, id.value) == LatestIssuer(before, id.value);
    case OtherRole =>
  }

  /**
   * With no failed push the replay is each message rendered on its own: a tool result updates the
   * card of the latest assistant message that issued its raw id, or nothing if there is none.
   */
  lemma {:induction false} ReplayIsTranscript(history: seq<Message>)
    ensures Mirrors(Replay(history, Always()), history)
  {
    if history == [] {
      assert Mirrors(Fresh, []);
    } else {
      hide ReplayMessage, Mirrors;
      var n := |history| - 1;
      ReplayIsTranscript(history[..n]);
      MessageMirrors(Replay(history[..n], Always()), history[..n], history[n]);
      assert history == history[..n] + [history[n]];
    }
  }

  lemma {:induction false} TranscriptContains(history: seq<Message>, m: nat, i: nat)
    requires m < |history| && i < |Rendered(history[..m], history[m])|
    ensures |Transcript(history[..m])| + i < |Transcript(history)|
    ensures Transcript(history)[|Transcript(history[..m])| + i] == Rendered(history[..m], history[m])[i]
    decreases |history|
  {
    hide Rendered;
    var n := |history| - 1;
    if m < n {
      assert history[..n][..m] == history[..m];
      TranscriptContains(history[..n], m, i);
    }
  }

  /** Cards are created once each exactly when no message repeats an id. */
  lemma UniqueExactly(history: seq<Message>)
    ensures CreatesUnique(Replay(history, Always()).pushes) <==> DistinctCalls(history)
  {
    ReplayIsTranscript(history);
    if DistinctCalls(history) {
      CreatesAreUnique(history, Always());
    } else {
      hide CreatesUnique, CreateNote, Transcript;
      var m :| 0 <= m < |history| && history[m].Assistant? && !DistinctIds(history[m].toolCalls);
      RepeatedIdRepeatsCreate(history, m);
    }
  }

  /** A repeated id shows as two equal creates in what the message is rendered as. */
  lemma RenderedRepeats(before: seq<Message>, message: Message) returns (a: nat, b: nat)
    requires message.Assistant? && !DistinctIds(message.toolCalls)
    ensures a < b < |Rendered(before, message)|
    ensures var notes := Rendered(before, message); notes[a].Create? && notes[b].Create? && notes[a].wireId == notes[b].wireId
  {
    hide AcpToolCallId, CountAssistants, Chunks;
    var calls := message.toolCalls;
    var i, j :| 0 <= i < j < |calls| && calls[i].id == calls[j].id;
    var skip := |Chunks(message.parts, false)|;
    a, b := skip + i, skip + j;
    var creates := CreateNotes(CountAssistants(before) + 1, calls);
    assert Rendered(before, message)[a] == creates[i] && Rendered(before, message)[b] == creates[j];
  }

  lemma RepeatedIdRepeatsCreate(history: seq<Message>, m: nat)
    requires m < |history| && history[m].Assistant? && !DistinctIds(history[m].toolCalls)
    ensures !CreatesUnique(Transcript(history))
  {
    hide Transcript, Rendered, DistinctIds;
    var a, b := RenderedRepeats(history[..m], history[m]);
    TranscriptContains(history, m, a);
    TranscriptContains(history, m, b);
  }

  // ----- what is said is heard -----

  datatype Voice = UserVoice | AgentVoice | ThoughtVoice

  /** The texts a client hears in a voice. */
  function Heard(notes: seq<Note>, voice: Voice): seq<string> {
    if notes == [] then []
    else
      var before, last := Heard(notes[..|notes| - 1], voice), notes[|notes| - 1];
      if last.UserChunk? && voice.UserVoice? then before + [last.text]
      else if last.AgentChunk? && voice.AgentVoice? then before + [last.text]
      else if last.ThoughtChunk? && voice.ThoughtVoice? then before + [last.text]
      else before
  }

  /** The texts a message says in a voice. */
  function Texts(parts: seq<ContentPart>, thoughts: bool): seq<string> {
    if parts == [] then []
    else
      var before, last := Texts(parts[..|parts| - 1], thoughts), parts[|parts| - 1];
      if last.TextPart? && !thoughts && last.text != "" then before + [last.text]
      else if last.ThinkPart? && thoughts && last.think != "" then before + [last.think]
      else before
  }

  function Said(history: seq<Message>, voice: Voice): seq<string> {
    if history == [] then []
    else
      var before, last := Said(history[..|history| - 1], voice), history[|history| - 1];
      if last.User? && voice.UserVoice? then before + Texts(last.parts, false)
      else if last.Assistant? && voice.AgentVoice? then before + Texts(last.parts, false)
      else if last.Assistant? && voice.ThoughtVoice? then before + Texts(last.parts, true)
      else before
  }

  lemma HeardSnoc(notes: seq<Note>, note: Note, voice: Voice)
    ensures Heard(notes + [note], voice) == Heard(notes, voice) + Heard([note], voice)
  {
    assert (notes + [note])[..|notes|] == notes;
    assert [note][..0] == [];
  }

  lemma {:induction false} HeardConcat(a: seq<Note>, b: seq<Note>, voice: Voice)
    ensures Heard(a + b, voice) == Heard(a, voice) + Heard(b, voice)
  {
    if b == [] {
      assert a + b == a;
    } else {
      hide Heard;
      var init, last := b[..|b| - 1], b[|b| - 1];
      HeardConcat(a, init, voice);
      assert a + b == a + init + [last] && b == init + [last];
      HeardSnoc(a + init, last, voice);
      HeardSnoc(init, last, voice);
      Associates(Heard(a, voice), Heard(init, voice), Heard([last], voice));
    }
  }

  lemma HeardAlone(note: Note, voice: Voice)
    ensures Heard([note], voice) ==
            match note
            case UserChunk(text) => if voice.UserVoice? then [text] else []
            case AgentChunk(text) => if voice.AgentVoice? then [text] else []
            case ThoughtChunk(text) => if voice.ThoughtVoice? then [text] else []
            case _ => []
  {
    assert [note][..0] == [];
  }

  lemma {:induction false} HeardChunks(parts: seq<ContentPart>, user: bool, voice: Voice)
    ensures Heard(Chunks(parts, user), voice) ==
            if user then if voice.UserVoice? then Texts(parts, false) else []
            else if voice.AgentVoice? then Texts(parts, false)
            else if voice.ThoughtVoice? then Texts(parts, true)
            else []
  {
    if parts != [] {
      hide Heard;
      var before := Chunks(parts[..|parts| - 1], user);
      HeardChunks(parts[..|parts| - 1], user, voice);
      if Chunks(parts, user) != before {
        var note := Chunks(parts, user)[|before|];
        HeardSnoc(before, note, voice);
        HeardAlone(note, voice);
      }
    } else {
      assert Heard([], voice) == [];
    }
  }

  lemma {:induction false} CardsAreSilent(notes: seq<Note>, voice: Voice)
    requires forall i | 0 <= i < |notes| :: notes[i].Create? || notes[i].Update?
    ensures Heard(notes, voice) == []
  {
    if notes != [] {
      CardsAreSilent(notes[..|notes| - 1], voice);
    }
  }

  lemma HeardInMessage(before: seq<Message>, message: Message, voice: Voice)
    ensures Heard(Rendered(before, message), voice) ==
            if message.User? && voice.UserVoice? then Texts(message.parts, false)
            else if message.Assistant? && voice.AgentVoice? then Texts(message.parts, false)
            else if message.Assistant? && voice.ThoughtVoice? then Texts(message.parts, true)
            else []
  {
    hide Heard, Chunks, Texts, AcpToolCallId, CountAssistants, LatestIssuer;
    match message
    case User(parts) =>
      HeardChunks(parts, true, voice);
    case Assistant(parts, calls) =>
      var creates := CreateNotes(CountAssistants(before) + 1, calls);
      HeardChunks(parts, false, voice);
      HeardConcat(Chunks(parts, false), creates, voice);
      CardsAreSilent(creates, voice);
    case ToolResult(_, _, _) =>
      CardsAreSilent(Rendered(before, message), voice);
    case OtherRole =>
      CardsAreSilent([], voice);
  }

  /**
   * With no failed push the client hears, in order, exactly the non-empty texts of the user, the
   * texts of the assistant and its thoughts, each as such.
   */
  lemma {:induction false} HeardAsSaid(history: seq<Message>, voice: Voice)
    ensures Heard(Replay(history, Always()).pushes, voice) == Said(history, voice)
  {
    hide Heard, Rendered, Replay;
    ReplayIsTranscript(history);
    if history == [] {
      CardsAreSilent([], voice);
    } else {
      var before, message := history[..|history| - 1], history[|history| - 1];
      HeardAsSaid(before, voice);
      ReplayIsTranscript(before);
      HeardConcat(Transcript(before), Rendered(before, message), voice);
      HeardInMessage(before, message, voice);
    }
  }

  // ----- a failed push ends its message -----

  /** The pushes numbered from `from` up to `to` were accepted. */
  ghost predicate Accepted(from: nat, to: int, accepts: nat -> bool) {
    forall p: nat | from <= p < to :: accepts(p)
  }

  /**
   * `done` of `all` were pushed, the first as number `first`: all but the last were accepted, and
   * where some are missing the last was not.
   */
  ghost predicate StopsAt(first: nat, all: nat, done: nat, accepts: nat -> bool) {
    && done <= all
    && Accepted(first, first + done - 1, accepts)
    && (done < all ==> done > 0 && !accepts(first + done - 1))
  }

  lemma StopsLater(first: nat, all: nat, done: nat, accepts: nat -> bool)
    requires accepts(first) && StopsAt(first + 1, all, done, accepts)
    ensures StopsAt(first, all + 1, done + 1, accepts)
  {
  }

  lemma {:induction false} PushAllStops(st: State, notes: seq<Note>, accepts: nat -> bool) returns (done: nat)
    ensures StopsAt(|st.pushes|, |notes|, done, accepts)
    ensures PushAll(st, notes, accepts).st == st.(pushes := st.pushes + notes[..done])
    ensures PushAll(st, notes, accepts).ok <==> Accepted(|st.pushes|, |st.pushes| + |notes|, accepts)
    decreases |notes|
  {
    if notes == [] {
      done := 0;
      assert st.pushes + notes[..0] == st.pushes;
    } else {
      var next := st.(pushes := st.pushes + [notes[0]]);
      if accepts(|st.pushes|) {
        var rest := PushAllStops(next, notes[1..], accepts);
        done := rest + 1;
        StopsLater(|st.pushes|, |notes| - 1, rest, accepts);
        assert st.pushes + [notes[0]] + notes[1..][..rest] == st.pushes + notes[..done];
      } else {
        done := 1;
        assert notes[..1] == [notes[0]];
      }
    }
  }

  lemma {:induction false} IssueAllStops(st: State, calls: seq<ToolCall>, accepts: nat -> bool) returns (done: nat)
    ensures StopsAt(|st.pushes|, |calls|, done, accepts)
    ensures IssueAll(st, calls, accepts).pushes == st.pushes + CreateNotes(st.turnId, calls[..done])
    ensures forall r :: Owner(IssueAll(st, calls, accepts), r) == if HasId(calls[..done], r) then Some(st.turnId) else Owner(st, r)
    decreases |calls|
  {
    hide CreateNote, HasId, CreateNotes, StopsAt;
    NoId();
    NoCreates(st.turnId);
    if calls == [] {
      done := 0;
      assert StopsAt(|st.pushes|, 0, 0, accepts) by { NothingStops(|st.pushes|, accepts); }
      assert calls[..0] == [];
    } else {
      var first := CreateNote(st.turnId, calls[0]);
      var next := st.(owners := st.owners[calls[0].id := st.turnId], pushes := st.pushes + [first]);
      var rest := 0;
      if accepts(|st.pushes|) {
        rest := IssueAllStops(next, calls[1..], accepts);
        StopsLater(|st.pushes|, |calls| - 1, rest, accepts);
      } else {
        FirstStops(|st.pushes|, |calls|, accepts);
        assert calls[1..][..0] == [];
      }
      done := rest + 1;
      IssuedFirst(st.turnId, calls, done);
      Associates(st.pushes, [first], CreateNotes(st.turnId, calls[1..][..rest]));
      assert calls[..done][1..] == calls[1..][..rest] && calls[..done][0] == calls[0];
      forall r ensures HasId(calls[..done], r) <==> calls[0].id == r || HasId(calls[1..][..rest], r) {
        HasIdCons(calls[..done], r);
      }
    }
  }

  lemma NothingStops(first: nat, accepts: nat -> bool)
    ensures StopsAt(first, 0, 0, accepts)
  {
  }

  lemma FirstStops(first: nat, all: nat, accepts: nat -> bool)
    requires all > 0 && !accepts(first)
    ensures StopsAt(first, all, 1, accepts)
  {
  }

  lemma IssuedFirst(turnId: nat, calls: seq<ToolCall>, done: nat)
    requires 0 < done <= |calls|
    ensures CreateNotes(turnId, calls[..done]) == [CreateNote(turnId, calls[0])] + CreateNotes(turnId, calls[1..][..done - 1])
  {
    hide CreateNote;
    CreatesItsCard(turnId, calls[0]);
  }

  lemma NoCreates(turnId: nat)
    ensures CreateNotes(turnId, []) == []
  {
  }

  /**
   * Whatever pushes fail: an assistant message pushes its content and then, if all of it was
   * accepted, its calls, in each case up to the first failure; and exactly the calls whose creation
   * was pushed, accepted or not, belong to its turn.
   */
  lemma AssistantStops(st: State, parts: seq<ContentPart>, calls: seq<ToolCall>, accepts: nat -> bool) returns (said: nat, issued: nat)
    ensures var content, next := Chunks(parts, false), ReplayMessage(st, Assistant(parts, calls), accepts);
            && StopsAt(|st.pushes|, |content|, said, accepts) && issued <= |calls|
            && (if Accepted(|st.pushes|, |st.pushes| + |content|, accepts)
                then said == |content| && StopsAt(|st.pushes| + |content|, |calls|, issued, accepts)
                else issued == 0)
            && next.turnId == st.turnId + 1
            && next.pushes == st.pushes + content[..said] + CreateNotes(st.turnId + 1, calls[..issued])
            && forall r :: Owner(next, r) == if HasId(calls[..issued], r) then Some(st.turnId + 1) else Owner(st, r)
  {
    hide CreateNotes, ContentNotes, Chunks, HasId, AcpToolCallId, PushAll, IssueAll;
    ContentInChunks(parts, false);
    NoId();
    NoCreates(st.turnId + 1);
    var begun, content := st.(turnId := st.turnId + 1), Chunks(parts, false);
    said := PushAllStops(begun, content, accepts);
    var spoken := PushAll(begun, content, accepts);
    if spoken.ok {
      assert said == |content|;
      assert content[..said] == content;
      issued := IssueAllStops(spoken.st, calls, accepts);
      assert IssueAll(spoken.st, calls, accepts).turnId == st.turnId + 1 by { IssuingKeepsTurn(spoken.st, calls, accepts); }
      assert forall r :: Owner(spoken.st, r) == Owner(st, r);
    } else {
      issued := 0;
      assert calls[..0] == [];
      assert st.pushes + content[..said] + [] == st.pushes + content[..said];
    }
  }

  lemma {:induction false} IssuingKeepsTurn(st: State, calls: seq<ToolCall>, accepts: nat -> bool)
    ensures IssueAll(st, calls, accepts).turnId == st.turnId
    decreases |calls|
  {
    hide CreateNote;
    if calls != [] {
      IssuingKeepsTurn(st.(owners := st.owners[calls[0].id := st.turnId], pushes := st.pushes + [CreateNote(st.turnId, calls[0])]),
                       calls[1..], accepts);
    }
  }

  /** A user message pushes its texts up to the first failure. */
  lemma UserStops(st: State, parts: seq<ContentPart>, accepts: nat -> bool) returns (said: nat)
    ensures StopsAt(|st.pushes|, |Chunks(parts, true)|, said, accepts)
    ensures ReplayMessage(st, User(parts), accepts) == st.(pushes := st.pushes + Chunks(parts, true)[..said])
  {
    hide ContentNotes, Chunks, PushAll;
    ContentInChunks(parts, true);
    said := PushAllStops(st, Chunks(parts, true), accepts);
  }
}
