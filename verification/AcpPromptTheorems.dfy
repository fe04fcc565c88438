/** Safety of prompts over every interleaving of prompts, cancels, events and rejections. */
module AcpPromptTheorems {
  import opened Sequences
  import opened AcpPrompts

  // ----- the rules, as properties of a prompt's history -----

  predicate IsMain(e: Event) { e.agentId == None || e.agentId == Some("main") }

  /** The start of a turn of the main agent other than the one active at launch. */
  predicate OwnStart(e: Event, initial: Option<int>) {
    e.kind == TurnStarted && IsMain(e) && (initial == None || e.turnId != initial)
  }

  predicate IsBusy(e: Event) { e.kind == Error("turn.agent_busy") && IsMain(e) }

  /** How a prompt ends when its turn does. */
  function Verdict(reason: Reason): Outcome {
    match reason
    case Completed => Stopped(EndTurn)
    case Cancelled => Stopped(StopCancelled)
    case Blocked => Stopped(Refusal)
    case Failed(code) =>
      if code == Some("auth.login_required") || code == Some("provider.auth_error") then AuthRequired
      else if code == Some("provider.filtered") then Stopped(Refusal)
      else Stopped(EndTurn)
  }

  /** The prompt has heard a turn start that is not the one active at its launch. */
  ghost predicate OwnTurnHeard(log: seq<Record>) {
    exists i, j :: 0 <= i < j < |log| && log[i].Launched? && log[j].Delivered? && OwnStart(log[j].event, log[i].initialActiveTurnId)
  }

  /** The outcome that an occurrence calls for, given what happened before it. */
  ghost function Decides(before: seq<Record>, r: Record): Option<Outcome> {
    if r.KickRejected? then Some(KickFailed)
    else if r.Delivered? && r.event.kind.TurnEnded? && IsMain(r.event) then Some(Verdict(r.event.kind.reason))
    else if r.Delivered? && IsBusy(r.event) && !OwnTurnHeard(before) then Some(AgentBusy)
    else None
  }

  predicate IsTail(r: Record) { r.CancelCalled? || r.KickRejected? }

  /** Settlement ends everything: only cancels and late rejections can still be noted. */
  ghost predicate SettledOnce(log: seq<Record>) {
    forall i, j | 0 <= i < j < |log| && log[i].Settled? :: IsTail(log[j])
  }

  /** What follows the end of compression depends exactly on its success and on cancels before it. */
  ghost predicate WindowObeyed(log: seq<Record>) {
    && (forall j | 0 <= j < |log| && log[j].CompressionEnded? ::
          && (forall i | 0 <= i < j :: log[i] == CancelCalled)
          && j + 1 < |log|
          && (if !log[j].ok then log[j + 1] == Settled(CompressionFailed)
              else if j > 0 then log[j + 1] == Settled(Stopped(StopCancelled))
              else log[j + 1].Launched? || log[j + 1].LocalStarted?))
    && (forall j | 0 <= j < |log| && (log[j].Launched? || log[j].LocalStarted?) :: j > 0 && log[j - 1] == CompressionEnded(true))
  }

  /** A launched prompt is settled by the first occurrence that calls for it, at once and as it says. */
  ghost predicate FirstDecisionSettles(log: seq<Record>) {
    && (forall k | 0 <= k < |log| && log[k].Settled? :: k > 0 && Decides(log[..k - 1], log[k - 1]) == Some(log[k].outcome))
    && (forall k | 0 <= k < |log| && Decides(log[..k], log[k]).Some? :: SettledBy(log, k + 1))
  }

  ghost predicate SettledBy(log: seq<Record>, n: nat) {
    exists j :: 0 <= j <= n && j < |log| && log[j].Settled?
  }

  // ----- the invariant -----

  ghost predicate HasSettled(log: seq<Record>) { exists j :: 0 <= j < |log| && log[j].Settled? }

  ghost predicate TurnOk(l: Listener, log: seq<Record>) {
    && |log| >= 2 && log[0] == CompressionEnded(true) && log[1] == Launched(l.initialActiveTurnId)
    && (l.hasReceivedOwnTurnStarted <==> OwnTurnHeard(log))
    && (l.settled <==> HasSettled(log))
    && l.subscribed == !l.settled
    && FirstDecisionSettles(log)
  }

  ghost predicate StageOk(prompt: Prompt) {
    match prompt.stage
    case Compressing(aborted) => (forall i | 0 <= i < |prompt.log| :: prompt.log[i] == CancelCalled) && (aborted <==> prompt.log != [])
    case Turn(l, _) => TurnOk(l, prompt.log)
    case Local => !HasSettled(prompt.log) && forall i | 0 <= i < |prompt.log| :: !prompt.log[i].Launched?
    case Over => HasSettled(prompt.log) && forall i | 0 <= i < |prompt.log| :: !prompt.log[i].Launched?
  }

  ghost predicate PromptOk(prompt: Prompt) {
    SettledOnce(prompt.log) && WindowObeyed(prompt.log) && StageOk(prompt)
  }

  ghost predicate Inv(w: World) {
    forall p | p in w.prompts :: PromptOk(w.prompts[p])
  }

  // ----- adding one record -----

  predicate IsLater(r: Record) { !r.CompressionEnded? && !r.Launched? && !r.LocalStarted? }

  lemma LaterKeepsWindow(log: seq<Record>, r: Record)
    requires WindowObeyed(log) && IsLater(r)
    ensures WindowObeyed(log + [r])
  {
  }

  lemma AddKeepsOnce(log: seq<Record>, r: Record)
    requires SettledOnce(log) && (HasSettled(log) ==> IsTail(r))
    ensures SettledOnce(log + [r])
    ensures HasSettled(log + [r]) <==> HasSettled(log) || r.Settled?
  {
    var all := log + [r];
    assert forall i | 0 <= i < |log| :: all[i] == log[i];
    assert all[|log|] == r;
  }

  lemma OwnAdded(log: seq<Record>, r: Record, initial: Option<int>)
    requires |log| >= 2 && log[1] == Launched(initial) && forall i | 0 <= i < |log| && log[i].Launched? :: i == 1
    ensures OwnTurnHeard(log + [r]) <==> OwnTurnHeard(log) || (r.Delivered? && OwnStart(r.event, initial))
  {
    var all := log + [r];
    assert forall i | 0 <= i < |log| :: all[i] == log[i];
    if OwnTurnHeard(log) {
      var i, j :| 0 <= i < j < |log| && log[i].Launched? && log[j].Delivered? && OwnStart(log[j].event, log[i].initialActiveTurnId);
      assert all[i].Launched? && all[j].Delivered? && OwnStart(all[j].event, all[i].initialActiveTurnId);
    }
    if r.Delivered? && OwnStart(r.event, initial) {
      assert all[1].Launched? && all[|log|].Delivered?;
    }
  }

  /** A record that decides nothing, or comes after settlement. */
  lemma AddNeutral(log: seq<Record>, r: Record)
    requires FirstDecisionSettles(log) && !r.Settled?
    requires Decides(log, r).None? || HasSettled(log)
    ensures FirstDecisionSettles(log + [r])
  {
    hide Decides;
    var all := log + [r];
    assert all[..|log|] == log;
    assert forall k | 0 <= k < |log| :: all[k] == log[k] && all[..k] == log[..k];
    forall k | 0 <= k < |all| && all[k].Settled? ensures k > 0 && Decides(all[..k - 1], all[k - 1]) == Some(all[k].outcome) {
      assert log[k].Settled?;
    }
    forall k | 0 <= k < |all| && Decides(all[..k], all[k]).Some? ensures SettledBy(all, k + 1) {
      if k < |log| {
        assert SettledBy(log, k + 1);
        var j :| 0 <= j <= k + 1 && j < |log| && log[j].Settled?;
        assert all[j].Settled?;
      } else {
        var j :| 0 <= j < |log| && log[j].Settled?;
        assert all[j].Settled?;
      }
    }
  }

  /** A deciding record followed by its settlement. */
  lemma AddDecision(log: seq<Record>, r: Record, outcome: Outcome)
    requires FirstDecisionSettles(log) && !r.Settled? && Decides(log, r) == Some(outcome)
    ensures FirstDecisionSettles(log + [r] + [Settled(outcome)])
  {
    hide Decides;
    var all := log + [r] + [Settled(outcome)];
    var n := |log|;
    assert all[..n] == log && all[n] == r && all[n + 1] == Settled(outcome);
    assert forall k | 0 <= k < n :: all[k] == log[k] && all[..k] == log[..k];
    forall k | 0 <= k < |all| && all[k].Settled? ensures k > 0 && Decides(all[..k - 1], all[k - 1]) == Some(all[k].outcome) {
      if k < n {
        assert log[k].Settled?;
      } else {
        assert k == n + 1;
      }
    }
    forall k | 0 <= k < |all| && Decides(all[..k], all[k]).Some? ensures SettledBy(all, k + 1) {
      if k < n {
        assert SettledBy(log, k + 1);
        var j :| 0 <= j <= k + 1 && j < n && log[j].Settled?;
        assert all[j].Settled?;
      } else {
        assert all[n + 1].Settled?;
      }
    }
  }

  lemma LaunchedOnlyOnce(log: seq<Record>)
    requires WindowObeyed(log) && |log| >= 2 && log[0] == CompressionEnded(true)
    ensures forall i | 0 <= i < |log| && log[i].Launched? :: i == 1
  {
    forall i | 0 <= i < |log| && log[i].Launched? ensures i == 1 {
      assert log[i - 1].CompressionEnded?;
    }
  }

  /** A record that changes nothing about a turn's listener except what it has heard. */
  lemma TurnAdds(l: Listener, log: seq<Record>, r: Record, heard: Listener)
    requires TurnOk(l, log) && SettledOnce(log) && WindowObeyed(log)
    requires IsLater(r) && !r.Settled? && (l.settled ==> IsTail(r)) && (Decides(log, r).None? || l.settled)
    requires heard == l.(hasReceivedOwnTurnStarted :=
               l.hasReceivedOwnTurnStarted || (r.Delivered? && OwnStart(r.event, l.initialActiveTurnId)))
    ensures TurnOk(heard, log + [r]) && SettledOnce(log + [r]) && WindowObeyed(log + [r])
  {
    hide Decides, OwnTurnHeard, FirstDecisionSettles, SettledOnce, WindowObeyed, OwnStart, HasSettled;
    LaunchedOnlyOnce(log);
    LaterKeepsWindow(log, r);
    AddKeepsOnce(log, r);
    OwnAdded(log, r, l.initialActiveTurnId);
    AddNeutral(log, r);
  }

  lemma TurnSettles(l: Listener, log: seq<Record>, r: Record, outcome: Outcome)
    requires TurnOk(l, log) && SettledOnce(log) && WindowObeyed(log)
    requires IsLater(r) && !r.Settled? && !l.settled && Decides(log, r) == Some(outcome)
    requires r.Delivered? ==> !OwnStart(r.event, l.initialActiveTurnId)
    ensures var all := log + [r] + [Settled(outcome)];
            TurnOk(l.(settled := true, subscribed := false), all) && SettledOnce(all) && WindowObeyed(all)
  {
    hide Decides, OwnTurnHeard, FirstDecisionSettles, SettledOnce, WindowObeyed, OwnStart, HasSettled;
    LaunchedOnlyOnce(log);
    LaterKeepsWindow(log, r);
    LaterKeepsWindow(log + [r], Settled(outcome));
    AddKeepsOnce(log, r);
    AddKeepsOnce(log + [r], Settled(outcome));
    OwnAdded(log, r, l.initialActiveTurnId);
    LaunchedOnlyOnce(log + [r]);
    OwnAdded(log + [r], Settled(outcome), l.initialActiveTurnId);
    AddDecision(log, r, outcome);
  }

  /** The listener settles exactly when the history calls for it. */
  lemma ReactsAsDecided(l: Listener, currentTurnId: Option<int>, e: Event, log: seq<Record>)
    requires !l.settled && (l.hasReceivedOwnTurnStarted <==> OwnTurnHeard(log))
    ensures var r := React(l, currentTurnId, e);
            && r.outcome == Decides(log, Delivered(e))
            && (r.outcome.Some? ==> r.sends == 0 && !OwnStart(e, l.initialActiveTurnId))
            && r.l == (if r.outcome.Some? then l.(settled := true, subscribed := false)
                       else l.(hasReceivedOwnTurnStarted := l.hasReceivedOwnTurnStarted || OwnStart(e, l.initialActiveTurnId)))
  {
  }

  lemma DeliverKeepsOk(prompt: Prompt, currentTurnId: Option<int>, e: Event)
    requires PromptOk(prompt) && prompt.stage.Turn? && prompt.stage.l.subscribed
    ensures var r := React(prompt.stage.l, currentTurnId, e);
            PromptOk(Prompt(prompt.stage.(l := r.l), Noted(prompt.log, Delivered(e), r.outcome, r.sends)))
  {
    hide Decides, OwnTurnHeard, FirstDecisionSettles, SettledOnce, WindowObeyed, OwnStart, React, HasSettled;
    var l, log := prompt.stage.l, prompt.log;
    ReactsAsDecided(l, currentTurnId, e, log);
    var r := React(l, currentTurnId, e);
    if r.outcome.Some? {
      TurnSettles(l, log, Delivered(e), r.outcome.value);
    } else {
      TurnAdds(l, log, Delivered(e), r.l);
      if r.sends > 0 {
        SentDecidesNothing(log + [Delivered(e)], r.sends);
        TurnAdds(r.l, log + [Delivered(e)], Sent(r.sends), r.l);
      }
    }
  }

  lemma SentDecidesNothing(before: seq<Record>, updates: nat)
    ensures Decides(before, Sent(updates)).None? && Decides(before, CancelCalled).None? && Decides(before, KickRejected) == Some(KickFailed)
  {
  }

  lemma KickKeepsOk(prompt: Prompt)
    requires PromptOk(prompt) && prompt.stage.Turn?
    ensures var l := prompt.stage.l;
            if l.settled then PromptOk(Prompt(Turn(l, false), prompt.log + [KickRejected]))
            else PromptOk(Prompt(Turn(l.(settled := true, subscribed := false), false), Noted(prompt.log, KickRejected, Some(KickFailed), 0)))
  {
    hide Decides, OwnTurnHeard, FirstDecisionSettles, SettledOnce, WindowObeyed, OwnStart, HasSettled;
    var l, log := prompt.stage.l, prompt.log;
    SentDecidesNothing(log, 0);
    if l.settled {
      TurnAdds(l, log, KickRejected, l);
    } else {
      TurnSettles(l, log, KickRejected, KickFailed);
    }
  }

  lemma CancelKeepsOk(prompt: Prompt)
    requires PromptOk(prompt)
    ensures PromptOk(CancelOne(prompt))
  {
    hide Decides, OwnTurnHeard, FirstDecisionSettles, SettledOnce, WindowObeyed, OwnStart, HasSettled;
    SentDecidesNothing(prompt.log, 0);
    if prompt.stage.Turn? {
      TurnAdds(prompt.stage.l, prompt.log, CancelCalled, prompt.stage.l);
    } else {
      LaterKeepsWindow(prompt.log, CancelCalled);
      AddKeepsOnce(prompt.log, CancelCalled);
    }
  }

  /** The rules hold of a history in which compression has just ended. */
  lemma WindowCloses(cancels: seq<Record>, ok: bool, last: Record)
    requires forall i | 0 <= i < |cancels| :: cancels[i] == CancelCalled
    requires if !ok then last == Settled(CompressionFailed)
             else if cancels != [] then last == Settled(Stopped(StopCancelled))
             else last.Launched? || last.LocalStarted?
    ensures var log := cancels + [CompressionEnded(ok)] + [last];
            && SettledOnce(log) && WindowObeyed(log)
            && (HasSettled(log) <==> last.Settled?)
            && (!last.Launched? ==> forall i | 0 <= i < |log| :: !log[i].Launched?)
  {
    var n := |cancels|;
    var log := cancels + [CompressionEnded(ok)] + [last];
    assert log[..n] == cancels && log[n] == CompressionEnded(ok) && log[n + 1] == last;
    assert forall i | 0 <= i < n :: log[i] == cancels[i] == CancelCalled;
  }

  lemma CompressionKeepsOk(prompt: Prompt, currentTurnId: Option<int>, ok: bool, local: bool)
    requires PromptOk(prompt) && prompt.stage.Compressing?
    ensures PromptOk(EndCompression(prompt, currentTurnId, ok, local))
  {
    hide SettledOnce, WindowObeyed, HasSettled;
    var next := EndCompression(prompt, currentTurnId, ok, local);
    var log := next.log;
    WindowCloses(prompt.log, ok, log[|prompt.log| + 1]);
    if next.stage.Turn? {
      LaunchOk(next.stage.l, log);
    }
  }

  lemma LaunchOk(l: Listener, log: seq<Record>)
    requires log == [CompressionEnded(true), Launched(l.initialActiveTurnId)]
    requires l == Listener(l.initialActiveTurnId, false, false, true)
    ensures TurnOk(l, log)
  {
  }

  lemma LocalKeepsOk(prompt: Prompt, r: Record)
    requires PromptOk(prompt) && prompt.stage.Local? && (r.Sent? || r.Settled?)
    ensures PromptOk(Prompt(if r.Sent? then Local else Over, prompt.log + [r]))
  {
    hide SettledOnce, WindowObeyed;
    LaterKeepsWindow(prompt.log, r);
    AddKeepsOnce(prompt.log, r);
  }

  lemma StepKeepsInv(w: World, step: Step)
    requires Inv(w)
    ensures Inv(Next(w, step))
  {
    hide PromptOk, React, Noted, CancelOne, EndCompression;
    match step
    case Begin(p) =>
      NewPromptOk();
    case Cancel =>
      forall p | p in w.prompts ensures PromptOk(CancelOne(w.prompts[p])) {
        CancelKeepsOk(w.prompts[p]);
      }
    case CompressionEnds(p, ok, local) =>
      if p in w.prompts && w.prompts[p].stage.Compressing? {
        CompressionKeepsOk(w.prompts[p], w.currentTurnId, ok, local);
      }
    case Deliver(p, e) =>
      if p in w.prompts && w.prompts[p].stage.Turn? && w.prompts[p].stage.l.subscribed {
        DeliverKeepsOk(w.prompts[p], w.currentTurnId, e);
      }
    case KickRejects(p) =>
      if p in w.prompts && w.prompts[p].stage.Turn? {
        KickKeepsOk(w.prompts[p]);
      }
    case KickResolves(p) =>
      if p in w.prompts && w.prompts[p].stage.Turn? {
        KickingIsFree(w.prompts[p]);
      }
    case LocalSends(p) =>
      if p in w.prompts && w.prompts[p].stage.Local? {
        LocalKeepsOk(w.prompts[p], Sent(1));
      }
    case LocalEnds(p, ok) =>
      if p in w.prompts && w.prompts[p].stage.Local? {
        LocalKeepsOk(w.prompts[p], Settled(if ok then Stopped(EndTurn) else LocalFailed));
      }
  }

  lemma NewPromptOk()
    ensures PromptOk(Prompt(Compressing(false), []))
  {
  }

  lemma KickingIsFree(prompt: Prompt)
    requires PromptOk(prompt) && prompt.stage.Turn?
    ensures PromptOk(prompt.(stage := Turn(prompt.stage.l, false)))
  {
  }

  lemma {:induction false} InvAlways(steps: seq<Step>)
    ensures Inv(After(steps))
  {
    hide Next, PromptOk;
    if steps != [] {
      InvAlways(steps[..|steps| - 1]);
      StepKeepsInv(After(steps[..|steps| - 1]), steps[|steps| - 1]);
    }
  }

  // ----- what every interleaving guarantees -----

  /** A prompt settles at most once, and sends, launches and hears nothing afterwards. */
  lemma SettlesAtMostOnce(steps: seq<Step>, p: nat)
    requires p in After(steps).prompts
    ensures var log := After(steps).prompts[p].log;
            forall i, j | 0 <= i < j < |log| && log[i].Settled? ::
              !log[j].Settled? && !log[j].Sent? && !log[j].Launched? && !log[j].LocalStarted? && !log[j].Delivered?
  {
    hide After;
    InvAlways(steps);
    assert PromptOk(After(steps).prompts[p]);
  }

  /**
   * A prompt launches a turn or runs a local command if and only if its compression succeeded and
   * no cancel came before that; otherwise it is settled as cancelled, or with the failure.
   */
  lemma CancelledWindowNeverLaunches(steps: seq<Step>, p: nat, end: nat)
    requires p in After(steps).prompts
    requires end < |After(steps).prompts[p].log| && After(steps).prompts[p].log[end].CompressionEnded?
    ensures var log := After(steps).prompts[p].log;
            && end + 1 < |log|
            && ((exists i :: 0 <= i < |log| && (log[i].Launched? || log[i].LocalStarted?))
                <==> log[end].ok && forall i | 0 <= i < end :: log[i] != CancelCalled)
            && ((exists i :: 0 <= i < end && log[i] == CancelCalled) && log[end].ok ==> log[end + 1] == Settled(Stopped(StopCancelled)))
            && (!log[end].ok ==> log[end + 1] == Settled(CompressionFailed))
  {
    hide After, StageOk, SettledOnce;
    InvAlways(steps);
    assert PromptOk(After(steps).prompts[p]);
    var log := After(steps).prompts[p].log;
    if i :| 0 <= i < |log| && (log[i].Launched? || log[i].LocalStarted?) {
      assert log[i - 1] == CompressionEnded(true);
    }
    assert end > 0 ==> log[0] == CancelCalled;
    assert log[end].ok && end == 0 ==> log[end + 1].Launched? || log[end + 1].LocalStarted?;
  }

  /**
   * A launched prompt settles exactly at the first occurrence that calls for it: the end of a turn
   * of the main agent, a rejected kick, or a busy error before its own turn started.
   */
  lemma FirstDecisionWins(steps: seq<Step>, p: nat)
    requires p in After(steps).prompts && After(steps).prompts[p].stage.Turn?
    ensures FirstDecisionSettles(After(steps).prompts[p].log)
    ensures var l := After(steps).prompts[p].stage.l; l.settled == HasSettled(After(steps).prompts[p].log) == !l.subscribed
  {
    hide After, SettledOnce, WindowObeyed;
    InvAlways(steps);
    assert PromptOk(After(steps).prompts[p]);
  }

  // ----- the active turn -----

  /** The step hands an event of the main agent to a listener, and the event has a turn or settles the prompt. */
  ghost predicate Touches(w: World, step: Step) {
    && step.Deliver? && step.p in w.prompts && w.prompts[step.p].stage.Turn? && w.prompts[step.p].stage.l.subscribed
    && IsMain(step.event)
    && (step.event.turnId.Some? || Decides(w.prompts[step.p].log, Delivered(step.event)).Some?)
  }

  /** The turn such a step leaves active: its own, or none when it settles the prompt. */
  ghost function Leaves(w: World, step: Step): Option<int>
    requires Touches(w, step)
  {
    if Decides(w.prompts[step.p].log, Delivered(step.event)).Some? then None else step.event.turnId
  }

  lemma ReactsWithTurn(l: Listener, currentTurnId: Option<int>, e: Event, log: seq<Record>)
    requires !l.settled && (l.hasReceivedOwnTurnStarted <==> OwnTurnHeard(log))
    ensures React(l, currentTurnId, e).currentTurnId ==
            if Decides(log, Delivered(e)).Some? then None
            else if IsMain(e) && e.turnId.Some? then e.turnId else currentTurnId
  {
    hide OwnTurnHeard, Verdict;
  }

  lemma StepTurn(w: World, step: Step)
    requires Inv(w)
    ensures Next(w, step).currentTurnId == if Touches(w, step) then Leaves(w, step) else w.currentTurnId
  {
    hide Decides, React, Noted, SettledOnce, WindowObeyed, CancelOne, EndCompression, OwnTurnHeard, FirstDecisionSettles;
    if step.Deliver? && step.p in w.prompts && w.prompts[step.p].stage.Turn? && w.prompts[step.p].stage.l.subscribed {
      var prompt := w.prompts[step.p];
      assert PromptOk(prompt);
      ReactsWithTurn(prompt.stage.l, w.currentTurnId, step.event, prompt.log);
      OnlyMainDecides(prompt.log, step.event);
    }
  }

  lemma OnlyMainDecides(log: seq<Record>, e: Event)
    ensures Decides(log, Delivered(e)).Some? ==> IsMain(e)
  {
  }

  ghost predicate LastTouch(steps: seq<Step>, i: nat)
    requires i < |steps|
  {
    Touches(After(steps[..i]), steps[i]) && forall j | i < j < |steps| :: !Touches(After(steps[..j]), steps[j])
  }

  /**
   * The session's active turn is that of the last event of the main agent any prompt listened to,
   * unless that event settled its prompt; subagents and unheard events never show in it.
   */
  lemma {:induction false} ActiveTurnExactly(steps: seq<Step>, turn: int)
    ensures After(steps).currentTurnId == Some(turn) <==>
            exists i :: 0 <= i < |steps| && LastTouch(steps, i) && Leaves(After(steps[..i]), steps[i]) == Some(turn)
  {
    hide Touches, Leaves, After, Next;
    if steps == [] {
      NoActiveTurn();
    } else {
      var n := |steps| - 1;
      var before := steps[..n];
      AfterSnoc(before, steps[n]);
      assert steps == before + [steps[n]];
      InvAlways(before);
      StepTurn(After(before), steps[n]);
      ActiveTurnExactly(before, turn);
      assert forall j | 0 <= j < n :: before[..j] == steps[..j] && before[j] == steps[j];
      if Touches(After(before), steps[n]) {
        assert LastTouch(steps, n);
      } else {
        forall i | 0 <= i < n ensures LastTouch(before, i) <==> LastTouch(steps, i) {
          assert steps[..n] == before;
        }
      }
    }
  }

  lemma NoActiveTurn()
    ensures After([]).currentTurnId == None
  {
  }

  lemma AfterSnoc(steps: seq<Step>, step: Step)
    ensures After(steps + [step]) == Next(After(steps), step)
  {
    assert (steps + [step])[..|steps|] == steps;
  }

  // ----- what reaches the client -----

  /** An event of the main agent that is worth updates. */
  predicate Speaks(r: Record) {
    r.Delivered? && IsMain(r.event) && r.event.kind.Output? && r.event.kind.updates > 0
  }

  /** Every such event is followed at once by its updates, and no others are sent. */
  ghost predicate OutputsSent(log: seq<Record>) {
    && (forall k | 0 <= k < |log| && Speaks(log[k]) :: k + 1 < |log| && log[k + 1] == Sent(log[k].event.kind.updates))
    && (forall k | 0 <= k < |log| && log[k].Sent? :: k > 0 && Speaks(log[k - 1]) && log[k - 1].event.kind.updates == log[k].updates)
  }

  ghost predicate LaunchedOutputsSent(w: World) {
    forall p | p in w.prompts && w.prompts[p].stage.Turn? :: OutputsSent(w.prompts[p].log)
  }

  lemma AddSilent(log: seq<Record>, r: Record)
    requires OutputsSent(log) && !Speaks(r) && !r.Sent?
    ensures OutputsSent(log + [r])
  {
    var all := log + [r];
    assert forall k | 0 <= k < |log| :: all[k] == log[k];
  }

  lemma AddSpoken(log: seq<Record>, r: Record)
    requires OutputsSent(log) && Speaks(r)
    ensures OutputsSent(log + [r] + [Sent(r.event.kind.updates)])
  {
    var all := log + [r] + [Sent(r.event.kind.updates)];
    assert forall k | 0 <= k < |log| :: all[k] == log[k];
    assert all[|log|] == r && all[|log| + 1] == Sent(r.event.kind.updates);
  }

  lemma DeliverSends(log: seq<Record>, l: Listener, currentTurnId: Option<int>, e: Event)
    requires OutputsSent(log)
    ensures var r := React(l, currentTurnId, e); OutputsSent(Noted(log, Delivered(e), r.outcome, r.sends))
  {
    hide OutputsSent;
    var r := React(l, currentTurnId, e);
    if Speaks(Delivered(e)) {
      AddSpoken(log, Delivered(e));
    } else {
      AddSilent(log, Delivered(e));
      if r.outcome.Some? {
        AddSilent(log + [Delivered(e)], Settled(r.outcome.value));
      }
    }
  }

  lemma StepSends(w: World, step: Step)
    requires Inv(w) && LaunchedOutputsSent(w)
    ensures LaunchedOutputsSent(Next(w, step))
  {
    hide React, OutputsSent;
    match step
    case Deliver(p, e) =>
      if p in w.prompts && w.prompts[p].stage.Turn? && w.prompts[p].stage.l.subscribed {
        DeliverSends(w.prompts[p].log, w.prompts[p].stage.l, w.currentTurnId, e);
      }
    case KickRejects(p) =>
      if p in w.prompts && w.prompts[p].stage.Turn? {
        AddSilent(w.prompts[p].log, KickRejected);
        AddSilent(w.prompts[p].log + [KickRejected], Settled(KickFailed));
      }
    case Cancel =>
      forall p | p in w.prompts && w.prompts[p].stage.Turn? ensures OutputsSent(CancelOne(w.prompts[p]).log) {
        AddSilent(w.prompts[p].log, CancelCalled);
      }
    case CompressionEnds(p, ok, local) =>
      if p in w.prompts && w.prompts[p].stage.Compressing? {
        assert PromptOk(w.prompts[p]);
        LaunchSends(w.prompts[p], w.currentTurnId, ok, local);
      }
    case _ =>
  }

  lemma LaunchSends(prompt: Prompt, currentTurnId: Option<int>, ok: bool, local: bool)
    requires PromptOk(prompt) && prompt.stage.Compressing?
    ensures var next := EndCompression(prompt, currentTurnId, ok, local); next.stage.Turn? ==> OutputsSent(next.log)
  {
    hide SettledOnce, WindowObeyed;
  }

  /**
   * In every interleaving, what the main agent says to a launched prompt is sent to the client at
   * once, in that number of updates, and nothing else is sent.
   */
  lemma {:induction false} OutputReachesTheClient(steps: seq<Step>)
    ensures LaunchedOutputsSent(After(steps))
  {
    hide Next, Inv;
    if steps != [] {
      OutputReachesTheClient(steps[..|steps| - 1]);
      InvAlways(steps[..|steps| - 1]);
      StepSends(After(steps[..|steps| - 1]), steps[|steps| - 1]);
    }
  }

  /** Nothing that concerns a prompt is missed: what it can hear, or its compression's end, is in its history. */
  lemma NothingIsMissed(steps: seq<Step>, p: nat)
    requires p in After(steps).prompts
    ensures var w := After(steps);
            var prompt := w.prompts[p];
            && (prompt.stage.Turn? && !HasSettled(prompt.log) ==> forall e ::
                  prompt.log + [Delivered(e)] <= Next(w, Deliver(p, e)).prompts[p].log)
            && (prompt.stage.Turn? && prompt.stage.kicking ==>
                  prompt.log + [KickRejected] <= Next(w, KickRejects(p)).prompts[p].log)
            && (prompt.stage.Compressing? ==> forall ok, local ::
                  prompt.log + [CompressionEnded(ok)] <= Next(w, CompressionEnds(p, ok, local)).prompts[p].log)
            && prompt.log + [CancelCalled] <= Next(w, Cancel).prompts[p].log
            && (prompt.stage.Local? ==>
                  && Next(w, LocalSends(p)).prompts[p].log == prompt.log + [Sent(1)]
                  && Next(w, LocalEnds(p, true)).prompts[p].log == prompt.log + [Settled(Stopped(EndTurn))]
                  && Next(w, LocalEnds(p, false)).prompts[p].log == prompt.log + [Settled(LocalFailed)])
  {
    hide After, SettledOnce, WindowObeyed, React, FirstDecisionSettles, OwnTurnHeard, HasSettled;
    InvAlways(steps);
    assert PromptOk(After(steps).prompts[p]);
  }
}
