/**
 * The tool-call part of the event listener inside `runTurnBody`, and the client that shows what
 * the listener sends. The listener caches argument text by raw id although cards are keyed by
 * wire id; the client replaces a card's content with every update.
 */
module AcpToolStream {
  import opened Sequences
  import opened WireIds

  datatype Kind = Read | Edit | Execute | Fetch | ThinkTool | Other
  datatype Status = Pending | InProgress

  function InferToolKind(name: string): Kind {
    if name in ["Read", "Glob", "Grep"] then Read
    else if name in ["Write", "Edit"] then Edit
    else if name in ["Bash", "Terminal"] then Execute
    else if name in ["WebFetch", "WebSearch"] then Fetch
    else if name == "Think" then ThinkTool
    else Kind.Other
  }

  /** One entry of a card's content; a display block may put a diff or a plan before the arguments. */
  datatype Block = TextBlock(text: string) | Diff(path: string, oldText: string, newText: string)

  datatype Event =
    | Started(agentId: Option<string>, turnId: int, toolCallId: string, name: string, description: Option<string>,
              args: string, display: Option<Block>, plan: Option<string>)
    | ArgsDelta(agentId: Option<string>, turnId: int, toolCallId: string, callName: Option<string>, argumentsPart: Option<string>)
    | Unrelated

  datatype Notification =
    | Create(wireId: string, card: Card)
    | Upgrade(wireId: string, card: Card)
    | Progress(wireId: string, status: Status, content: seq<Block>)
    | Plan(entries: string)

  /** What a client shows for one tool call. */
  datatype Card = Card(title: string, kind: Kind, status: Status, rawInput: Option<string>, content: seq<Block>)

  predicate FromMainAgent(event: Event) {
    !event.Unrelated? && (event.agentId.None? || event.agentId.value == "main")
  }

  function OrElse(part: Option<string>, default: string): string {
    if part.Some? then part.value else default
  }

  function StartedCard(event: Event): Card
    requires event.Started?
  {
    Card(OrElse(event.description, event.name), InferToolKind(event.name), InProgress, Some(event.args),
         (if event.display.Some? then [event.display.value] else []) + [TextBlock(event.args)])
  }

  function LazyCard(event: Event): Card
    requires event.ArgsDelta?
  {
    Card(OrElse(event.callName, "tool"), if OrElse(event.callName, "") != "" then InferToolKind(event.callName.value) else Kind.Other,
         Pending, None, [TextBlock(OrElse(event.argumentsPart, ""))])
  }

  // ----- the listener -----

  /** Cached argument text by raw id, and the wire ids already created. */
  datatype State = State(args: map<string, string>, started: set<string>)

  const Idle := State(map[], {})

  function WireId(event: Event): string
    requires !event.Unrelated?
  {
    AcpToolCallId(event.turnId, event.toolCallId)
  }

  function PlanNotes(plan: Option<string>): seq<Notification> {
    if plan.Some? then [Plan(plan.value)] else []
  }

  function Next(st: State, event: Event): State {
    if !FromMainAgent(event) then st
    else if event.Started? then
      State(st.args[event.toolCallId := event.args], st.started + {WireId(event)})
    else if WireId(event) !in st.started then
      State(st.args[event.toolCallId := OrElse(event.argumentsPart, "")], st.started + {WireId(event)})
    else
      var cached := if event.toolCallId in st.args then st.args[event.toolCallId] else "";
      st.(args := st.args[event.toolCallId := cached + OrElse(event.argumentsPart, "")])
  }

  /** The notification about the card itself. */
  function CardNote(st: State, event: Event): Notification
    requires FromMainAgent(event)
  {
    var wireId := WireId(event);
    if event.Started? then
      if wireId in st.started then Upgrade(wireId, StartedCard(event)) else Create(wireId, StartedCard(event))
    else if wireId !in st.started then Create(wireId, LazyCard(event))
    else Progress(wireId, InProgress, [TextBlock(Next(st, event).args[event.toolCallId])])
  }

  function Emits(st: State, event: Event): seq<Notification> {
    if !FromMainAgent(event) then []
    else [CardNote(st, event)] + if event.Started? then PlanNotes(event.plan) else []
  }

  function After(events: seq<Event>): State {
    if events == [] then Idle else Next(After(events[..|events| - 1]), events[|events| - 1])
  }

  /** Everything sent while `events` arrive, in order. */
  function Sent(events: seq<Event>): seq<Notification> {
    if events == [] then []
    else Sent(events[..|events| - 1]) + Emits(After(events[..|events| - 1]), events[|events| - 1])
  }

  class Accumulator {
    var args: string

    constructor (args: string)
      ensures this.args == args
    {
      this.args := args;
    }
  }

  ghost predicate Distinct(accumulators: map<string, Accumulator>) {
    forall a, b | a in accumulators && b in accumulators && a != b :: accumulators[a] != accumulators[b]
  }

  lemma DistinctEntry(accumulators: map<string, Accumulator>, id: string, accumulator: Accumulator)
    requires Distinct(accumulators) && accumulator !in accumulators.Values
    ensures Distinct(accumulators[id := accumulator])
    ensures accumulators[id := accumulator].Values <= accumulators.Values + {accumulator}
  {
  }

  class ToolCallListener {
    var argsByToolCall: map<string, Accumulator>
    var startedToolCalls: set<string>

    /** No two raw ids share an accumulator object. */
    ghost predicate Valid()
      reads this
    {
      Distinct(argsByToolCall)
    }

    ghost function View(): State
      reads this, argsByToolCall.Values
    {
      State(map id | id in argsByToolCall :: argsByToolCall[id].args, startedToolCalls)
    }

    constructor ()
      ensures Valid() && View() == Idle && argsByToolCall == map[]
    {
      argsByToolCall, startedToolCalls := map[], {};
    }

    method Seed(toolCallId: string, args: string)
      requires Valid()
      modifies this
      ensures Valid() && fresh(argsByToolCall.Values - old(argsByToolCall.Values))
      ensures toolCallId in argsByToolCall
      ensures View() == old(View()).(args := old(View()).args[toolCallId := args])
    {
      ghost var before := View().args;
      hide Distinct;
      var accumulator := new Accumulator(args);
      DistinctEntry(argsByToolCall, toolCallId, accumulator);
      argsByToolCall := argsByToolCall[toolCallId := accumulator];
      assert View().args.Keys == before.Keys + {toolCallId};
      assert forall id | id in before && id != toolCallId :: View().args[id] == before[id];
      assert View().args == before[toolCallId := args];
    }

    /** Appends to the shared accumulator; the result is the text for the client. */
    method Accumulate(toolCallId: string, argumentsPart: Option<string>) returns (text: string)
      requires Valid() && toolCallId in argsByToolCall
      modifies argsByToolCall.Values
      ensures View().args == old(View()).args[toolCallId := text]
      ensures text == old(View()).args[toolCallId] + OrElse(argumentsPart, "")
    {
      var accumulator := argsByToolCall[toolCallId];
      accumulator.args := accumulator.args + OrElse(argumentsPart, "");
      text := accumulator.args;
    }

    /** Marks a card as created; tells whether it already was. */
    method MarkStarted(wireId: string) returns (known: bool)
      requires Valid()
      modifies this`startedToolCalls
      ensures Valid() && View() == old(View()).(started := old(View()).started + {wireId})
      ensures known == (wireId in old(View()).started)
    {
      known := wireId in startedToolCalls;
      startedToolCalls := startedToolCalls + {wireId};
    }

    method OnStarted(event: Event) returns (sent: seq<Notification>)
      requires Valid() && FromMainAgent(event) && event.Started?
      modifies this
      ensures Valid() && fresh(argsByToolCall.Values - old(argsByToolCall.Values))
      ensures View() == Next(old(View()), event)
      ensures sent == Emits(old(View()), event)
    {
      hide StartedCard, AcpToolCallId;
      Seed(event.toolCallId, event.args);
      var known := MarkStarted(WireId(event));
      if known {
        sent := [Upgrade(WireId(event), StartedCard(event))];
      } else {
        sent := [Create(WireId(event), StartedCard(event))];
      }
      if event.plan.Some? {
        sent := sent + [Plan(event.plan.value)];
      }
    }

    method OnDelta(event: Event) returns (sent: seq<Notification>)
      requires Valid() && FromMainAgent(event) && event.ArgsDelta?
      modifies this, argsByToolCall.Values
      ensures Valid() && fresh(argsByToolCall.Values - old(argsByToolCall.Values))
      ensures View() == Next(old(View()), event)
      ensures sent == Emits(old(View()), event)
    {
      hide LazyCard, AcpToolCallId;
      if WireId(event) !in startedToolCalls {
        Seed(event.toolCallId, OrElse(event.argumentsPart, ""));
        var known := MarkStarted(WireId(event));
        sent := [Create(WireId(event), LazyCard(event))];
      } else {
        if event.toolCallId !in argsByToolCall {
          Seed(event.toolCallId, "");
        }
        var text := Accumulate(event.toolCallId, event.argumentsPart);
        sent := [Progress(WireId(event), InProgress, [TextBlock(text)])];
      }
    }

    method OnEvent(event: Event) returns (sent: seq<Notification>)
      requires Valid()
      modifies this, argsByToolCall.Values
      ensures Valid() && fresh(argsByToolCall.Values - old(argsByToolCall.Values))
      ensures View() == Next(old(View()), event)
      ensures sent == Emits(old(View()), event)
    {
      if !FromMainAgent(event) {
        sent := [];
      } else if event.Started? {
        sent := OnStarted(event);
      } else {
        sent := OnDelta(event);
      }
    }
  }

  /** A listener fed every event of a prompt. */
  method Listen(events: seq<Event>) returns (sent: seq<Notification>)
    ensures sent == Sent(events)
  {
    var listener := new ToolCallListener();
    sent := [];
    assert events[..0] == [];
    for i := 0 to |events|
      invariant fresh(listener) && fresh(listener.argsByToolCall.Values) && listener.Valid()
      invariant listener.View() == After(events[..i]) && sent == Sent(events[..i])
    {
      assert events[..i + 1][..i] == events[..i];
      var more := listener.OnEvent(events[i]);
      sent := sent + more;
    }
    assert events[..|events|] == events;
  }

  // ----- the client -----

  /** A client replaces content; an update for an unknown card has nothing to land on. */
  function Show(cards: map<string, Card>, note: Notification): map<string, Card> {
    match note
    case Create(id, card) => cards[id := card]
    case Upgrade(id, card) => if id in cards then cards[id := card] else cards
    case Progress(id, status, content) => if id in cards then cards[id := cards[id].(status := status, content := content)] else cards
    case Plan(_) => cards
  }

  function Shown(notes: seq<Notification>): map<string, Card> {
    if notes == [] then map[] else Show(Shown(notes[..|notes| - 1]), notes[|notes| - 1])
  }
}
