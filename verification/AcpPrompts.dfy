/**
 * Concurrent prompts of one ACP session: image compression with cancellation, the event listener
 * that settles a prompt, and the rejections that race with it.
 */
module AcpPrompts {
  import opened Sequences

  datatype Reason = Completed | Cancelled | Failed(code: Option<string>) | Blocked

  datatype StopReason = EndTurn | StopCancelled | Refusal

  /** How a prompt request ends. */
  datatype Outcome = Stopped(reason: StopReason) | AuthRequired | AgentBusy | KickFailed | CompressionFailed | LocalFailed

  datatype Kind =
    | TurnStarted
    | TurnEnded(reason: Reason)
    | Error(code: string)
    | Output(updates: nat)
    | Silent

  /**
   * An output event becomes that many updates: one for text and most tool events, two for a tool
   * start with a plan, none for empty progress.  `turnId` is None for events that carry none.
   */
  datatype Event = Event(kind: Kind, agentId: Option<string>, turnId: Option<int>)

  predicate FromMainAgent(e: Event) { e.agentId.None? || e.agentId.value == "main" }

  function ToStopReason(reason: Reason): StopReason {
    match reason
    case Completed => EndTurn
    case Cancelled => StopCancelled
    case Failed(code) => if code == Some("provider.filtered") then Refusal else EndTurn
    case Blocked => Refusal
  }

  function TurnOutcome(reason: Reason): Outcome {
    if reason.Failed? && (reason.code == Some("auth.login_required") || reason.code == Some("provider.auth_error"))
    then AuthRequired else Stopped(ToStopReason(reason))
  }

  // ----- one listener -----

  /** The closure variables of `runTurnBody`. */
  datatype Listener = Listener(initialActiveTurnId: Option<int>, hasReceivedOwnTurnStarted: bool, settled: bool, subscribed: bool)

  predicate StartsOwnTurn(e: Event, initial: Option<int>) {
    e.kind.TurnStarted? && FromMainAgent(e) && (initial.None? || e.turnId != initial)
  }

  predicate IsBusyError(e: Event) {
    e.kind.Error? && e.kind.code == "turn.agent_busy" && FromMainAgent(e)
  }

  /** What a listener does with an event: its new state, the session's turn, a settlement, updates sent. */
  datatype Reaction = Reaction(l: Listener, currentTurnId: Option<int>, outcome: Option<Outcome>, sends: nat)

  function React(l: Listener, currentTurnId: Option<int>, e: Event): Reaction {
    var own := l.hasReceivedOwnTurnStarted || StartsOwnTurn(e, l.initialActiveTurnId);
    var heard := l.(hasReceivedOwnTurnStarted := own);
    var turn := if e.turnId.Some? && FromMainAgent(e) then e.turnId else currentTurnId;
    var done := heard.(settled := true, subscribed := false);
    if IsBusyError(e) && !l.settled && !own then Reaction(done, None, Some(AgentBusy), 0)
    else if e.kind.TurnEnded? && FromMainAgent(e) && !l.settled then
      Reaction(done, None, Some(TurnOutcome(e.kind.reason)), 0)
    else Reaction(heard, turn, None, if e.kind.Output? && FromMainAgent(e) then e.kind.updates else 0)
  }

  class AbortToken {
    var aborted: bool

    constructor ()
      ensures !aborted
    {
      aborted := false;
    }
  }

  class Session {
    var currentTurnId: Option<int>
    var pendingPromptAborts: set<AbortToken>

    constructor ()
      ensures currentTurnId == None && pendingPromptAborts == {}
    {
      currentTurnId, pendingPromptAborts := None, {};
    }

    method Cancel()
      modifies pendingPromptAborts
      ensures forall token | token in pendingPromptAborts :: token.aborted
    {
      forall token | token in pendingPromptAborts {
        token.aborted := true;
      }
    }

    method BeginCompression() returns (token: AbortToken)
      modifies this`pendingPromptAborts
      ensures fresh(token) && !token.aborted && pendingPromptAborts == old(pendingPromptAborts) + {token}
    {
      token := new AbortToken();
      pendingPromptAborts := pendingPromptAborts + {token};
    }

    method EndCompression(token: AbortToken) returns (aborted: bool)
      modifies this`pendingPromptAborts
      ensures pendingPromptAborts == old(pendingPromptAborts) - {token} && aborted == token.aborted
    {
      pendingPromptAborts := pendingPromptAborts - {token};
      aborted := token.aborted;
    }
  }

  class TurnListener {
    const session: Session
    const initialActiveTurnId: Option<int>
    var hasReceivedOwnTurnStarted: bool
    var settled: bool
    var subscribed: bool

    constructor (session: Session)
      ensures this.session == session && View() == Listener(session.currentTurnId, false, false, true)
    {
      this.session := session;
      initialActiveTurnId := session.currentTurnId;
      hasReceivedOwnTurnStarted, settled, subscribed := false, false, true;
    }

    function View(): Listener
      reads this
    {
      Listener(initialActiveTurnId, hasReceivedOwnTurnStarted, settled, subscribed)
    }

    method OnEvent(e: Event) returns (outcome: Option<Outcome>, sends: nat)
      modifies this, session`currentTurnId
      ensures Reaction(View(), session.currentTurnId, outcome, sends) == React(old(View()), old(session.currentTurnId), e)
    {
      outcome, sends := None, 0;
      if e.kind.TurnStarted? && FromMainAgent(e) && (initialActiveTurnId.None? || e.turnId != initialActiveTurnId) {
        hasReceivedOwnTurnStarted := true;
      }
      if e.turnId.Some? && FromMainAgent(e) {
        session.currentTurnId := e.turnId;
      }
      match e.kind {
        case Error(code) =>
          if settled || !FromMainAgent(e) || code != "turn.agent_busy" || hasReceivedOwnTurnStarted {
            return;
          }
          settled := true;
          session.currentTurnId := None;
          subscribed := false;
          outcome := Some(AgentBusy);
        case Output(updates) =>
          if FromMainAgent(e) {
            sends := updates;
          }
        case TurnEnded(reason) =>
          if settled || !FromMainAgent(e) {
            return;
          }
          settled := true;
          session.currentTurnId := None;
          subscribed := false;
          outcome := Some(TurnOutcome(reason));
        case TurnStarted =>
        case Silent =>
      }
    }

    /** The kick's promise rejects. */
    method OnKickRejected() returns (outcome: Option<Outcome>)
      modifies this
      ensures outcome == (if old(settled) then None else Some(KickFailed))
      ensures View() == if old(settled) then old(View()) else old(View()).(settled := true, subscribed := false)
    {
      if settled {
        return None;
      }
      settled := true;
      subscribed := false;
      outcome := Some(KickFailed);
    }
  }

  // ----- many prompts -----

  /** What happens to a prompt, in order. */
  datatype Record =
    | CancelCalled
    | CompressionEnded(ok: bool)
    | Launched(initialActiveTurnId: Option<int>)
    | LocalStarted
    | Delivered(event: Event)
    | KickRejected
    | Sent(updates: nat)
    | Settled(outcome: Outcome)

  datatype Stage =
    | Compressing(aborted: bool)
    | Turn(l: Listener, kicking: bool)
    | Local
    | Over

  datatype Prompt = Prompt(stage: Stage, log: seq<Record>)

  datatype World = World(currentTurnId: Option<int>, prompts: map<nat, Prompt>)

  datatype Step =
    | Begin(p: nat)
    | Cancel
    | CompressionEnds(p: nat, ok: bool, local: bool)
    | Deliver(p: nat, event: Event)
    | KickRejects(p: nat)
    | KickResolves(p: nat)
    | LocalSends(p: nat)
    | LocalEnds(p: nat, ok: bool)

  function CancelOne(prompt: Prompt): Prompt {
    Prompt(if prompt.stage.Compressing? then Compressing(true) else prompt.stage, prompt.log + [CancelCalled])
  }

  function EndCompression(prompt: Prompt, currentTurnId: Option<int>, ok: bool, local: bool): Prompt
    requires prompt.stage.Compressing?
  {
    var log := prompt.log + [CompressionEnded(ok)];
    if !ok then Prompt(Over, log + [Settled(CompressionFailed)])
    else if prompt.stage.aborted then Prompt(Over, log + [Settled(Stopped(StopCancelled))])
    else if local then Prompt(Local, log + [LocalStarted])
    else Prompt(Turn(Listener(currentTurnId, false, false, true), true), log + [Launched(currentTurnId)])
  }

  /** A step that is not possible changes nothing. */
  function Next(w: World, step: Step): World {
    match step
    case Begin(p) =>
      if p in w.prompts then w else w.(prompts := w.prompts[p := Prompt(Compressing(false), [])])
    case Cancel =>
      w.(prompts := map p | p in w.prompts :: CancelOne(w.prompts[p]))
    case CompressionEnds(p, ok, local) =>
      if p in w.prompts && w.prompts[p].stage.Compressing?
      then w.(prompts := w.prompts[p := EndCompression(w.prompts[p], w.currentTurnId, ok, local)]) else w
    case Deliver(p, e) =>
      if p in w.prompts && w.prompts[p].stage.Turn? && w.prompts[p].stage.l.subscribed then
        var prompt := w.prompts[p];
        var r := React(prompt.stage.l, w.currentTurnId, e);
        World(r.currentTurnId, w.prompts[p := Prompt(prompt.stage.(l := r.l), Noted(prompt.log, Delivered(e), r.outcome, r.sends))])
      else w
    case KickRejects(p) =>
      if p in w.prompts && w.prompts[p].stage.Turn? && w.prompts[p].stage.kicking then
        var prompt := w.prompts[p];
        var l := prompt.stage.l;
        if l.settled then w.(prompts := w.prompts[p := Prompt(Turn(l, false), prompt.log + [KickRejected])])
        else w.(prompts := w.prompts[p := Prompt(Turn(l.(settled := true, subscribed := false), false),
                                                 Noted(prompt.log, KickRejected, Some(KickFailed), 0))])
      else w
    case KickResolves(p) =>
      if p in w.prompts && w.prompts[p].stage.Turn? then w.(prompts := w.prompts[p := w.prompts[p].(stage := Turn(w.prompts[p].stage.l, false))])
      else w
    case LocalSends(p) =>
      if p in w.prompts && w.prompts[p].stage.Local? then w.(prompts := w.prompts[p := Prompt(Local, w.prompts[p].log + [Sent(1)])]) else w
    case LocalEnds(p, ok) =>
      if p in w.prompts && w.prompts[p].stage.Local?
      then w.(prompts := w.prompts[p := Prompt(Over, w.prompts[p].log + [Settled(if ok then Stopped(EndTurn) else LocalFailed)])]) else w
  }

  function Noted(log: seq<Record>, input: Record, outcome: Option<Outcome>, sends: nat): seq<Record> {
    var heard := log + [input];
    if outcome.Some? then heard + [Settled(outcome.value)]
    else if sends > 0 then heard + [Sent(sends)]
    else heard
  }

  function After(steps: seq<Step>): World {
    if steps == [] then World(None, map[]) else Next(After(steps[..|steps| - 1]), steps[|steps| - 1])
  }
}
