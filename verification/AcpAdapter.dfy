/** The objects of a session at work: every method takes one step of the transition system. */
module AcpAdapter {
  import opened Sequences
  import opened AcpPrompts

  lemma AddedValue<V>(m: map<nat, V>, p: nat, v: V)
    requires p !in m
    ensures m[p := v].Values == m.Values + {v}
  {
    var next := m[p := v];
    forall x | x in m.Values ensures x in next.Values {
      var q :| q in m && m[q] == x;
      assert next[q] == x;
    }
    assert next[p] == v;
  }

  lemma RemovedValue<V>(m: map<nat, V>, p: nat)
    requires p in m && forall q | q in m && q != p :: m[q] != m[p]
    ensures (m - {p}).Values == m.Values - {m[p]}
  {
    var next := m - {p};
    forall x | x in m.Values - {m[p]} ensures x in next.Values {
      var q :| q in m && m[q] == x;
      assert next[q] == x;
    }
  }

  /** The end of compression concerns one prompt, which then compresses no more. */
  ghost predicate Ends(w: World, next: World, p: nat) {
    && p in w.prompts && w.prompts[p].stage.Compressing?
    && next.prompts.Keys == w.prompts.Keys && !next.prompts[p].stage.Compressing?
    && forall q | q in w.prompts && q != p :: next.prompts[q] == w.prompts[q]
  }

  lemma EndsByStep(w: World, p: nat, ok: bool, local: bool)
    requires p in w.prompts && w.prompts[p].stage.Compressing?
    ensures var next, stage := Next(w, CompressionEnds(p, ok, local)), w.prompts[p].stage;
            && Ends(w, next, p) && next.currentTurnId == w.currentTurnId
            && (next.prompts[p].stage.Turn? <==> ok && !stage.aborted && !local)
            && (next.prompts[p].stage.Turn? ==> next.prompts[p].stage.l == Listener(w.currentTurnId, false, false, true))
  {
  }

  class Adapter {
    const session: Session
    /** The abort token of each prompt call that waits for compression. */
    var compressing: map<nat, AbortToken>
    /** The listener of each prompt call that launched a turn. */
    var listening: map<nat, TurnListener>

    /** The pending tokens are exactly those of compressing prompts, with the same flags. */
    ghost predicate TokensOk(w: World)
      reads this`compressing, session`pendingPromptAborts, compressing.Values
    {
      && session.pendingPromptAborts == compressing.Values
      && (forall p :: p in compressing <==> p in w.prompts && w.prompts[p].stage.Compressing?)
      && (forall p | p in compressing :: w.prompts[p].stage.aborted == compressing[p].aborted)
      && (forall p, q | p in compressing && q in compressing && p != q :: compressing[p] != compressing[q])
    }

    /** Every launched prompt has a listener of its own, in the state of its stage. */
    ghost predicate ListenersOk(w: World)
      reads this`listening, listening.Values
    {
      && (forall p :: p in listening <==> p in w.prompts && w.prompts[p].stage.Turn?)
      && (forall p | p in listening :: listening[p].session == session && listening[p].View() == w.prompts[p].stage.l)
      && (forall p, q | p in listening && q in listening && p != q :: listening[p] != listening[q])
    }

    /** Tokens, listeners and the active turn are as in `w`. */
    ghost predicate Simulates(w: World)
      reads this, session, compressing.Values, listening.Values
    {
      session.currentTurnId == w.currentTurnId && TokensOk(w) && ListenersOk(w)
    }

    constructor ()
      ensures Simulates(World(None, map[])) && fresh(session) && compressing == map[] && listening == map[]
    {
      session := new Session();
      compressing, listening := map[], map[];
    }

    /** Up to the first await of `prompt`. */
    method BeginPrompt(p: nat, ghost w: World)
      requires Simulates(w) && p !in w.prompts
      modifies this`compressing, session`pendingPromptAborts
      ensures Simulates(Next(w, Begin(p)))
      ensures fresh(compressing.Values - old(compressing.Values))
    {
      var token := session.BeginCompression();
      AddedValue(compressing, p, token);
      compressing := compressing[p := token];
    }

    method CancelAll(ghost w: World)
      requires Simulates(w)
      modifies compressing.Values
      ensures Simulates(Next(w, Cancel))
    {
      session.Cancel();
    }

    /** The `finally` after compression. */
    method DropToken(p: nat, ghost w: World, ghost next: World) returns (aborted: bool)
      requires TokensOk(w) && ListenersOk(w) && Ends(w, next, p)
      modifies this`compressing, session`pendingPromptAborts
      ensures TokensOk(next) && ListenersOk(w) && compressing == old(compressing) - {p}
      ensures aborted == w.prompts[p].stage.aborted
    {
      aborted := session.EndCompression(compressing[p]);
      RemovedValue(compressing, p);
      compressing := compressing - {p};
    }

    /** Subscribes a new listener where a turn is launched. */
    method Launch(p: nat, launches: bool, ghost w: World, ghost next: World)
      requires TokensOk(next) && ListenersOk(w) && Ends(w, next, p) && (launches <==> next.prompts[p].stage.Turn?)
      requires launches ==> next.prompts[p].stage.l == Listener(session.currentTurnId, false, false, true)
      modifies this`listening
      ensures TokensOk(next) && ListenersOk(next) && fresh(listening.Values - old(listening.Values))
    {
      if launches {
        var listener := new TurnListener(session);
        listening := listening[p := listener];
      }
    }

    lemma IsCompressing(p: nat, w: World)
      requires TokensOk(w) && p in compressing
      ensures p in w.prompts && w.prompts[p].stage.Compressing?
    {
    }

    /** After compression: give up, run a local command, or subscribe and launch. */
    method FinishCompression(p: nat, ok: bool, local: bool, ghost w: World)
      requires Simulates(w) && p in compressing
      modifies this, session`pendingPromptAborts
      ensures Simulates(Next(w, CompressionEnds(p, ok, local)))
      ensures compressing == old(compressing) - {p} && fresh(listening.Values - old(listening.Values))
    {
      hide Next, Ends, TokensOk, ListenersOk, AcpPrompts.EndCompression, React, Noted, CancelOne;
      ghost var next := Next(w, CompressionEnds(p, ok, local));
      IsCompressing(p, w);
      EndsByStep(w, p, ok, local);
      var aborted := DropToken(p, w, next);
      Launch(p, ok && !aborted && !local, w, next);
    }

    /** An event reaches a listener that is still subscribed. */
    method OnEvent(p: nat, e: Event, ghost w: World) returns (outcome: Option<Outcome>, sends: nat)
      requires Simulates(w) && p in listening && listening[p].subscribed
      modifies session`currentTurnId, listening.Values
      ensures Simulates(Next(w, Deliver(p, e)))
      ensures Next(w, Deliver(p, e)).prompts[p].log == Noted(w.prompts[p].log, Delivered(e), outcome, sends)
    {
      outcome, sends := listening[p].OnEvent(e);
    }

    method OnKickRejected(p: nat, ghost w: World) returns (outcome: Option<Outcome>)
      requires Simulates(w) && p in listening && w.prompts[p].stage.kicking
      modifies listening.Values
      ensures Simulates(Next(w, KickRejects(p)))
      ensures Next(w, KickRejects(p)).prompts[p].log == Noted(w.prompts[p].log, KickRejected, outcome, 0)
    {
      outcome := listening[p].OnKickRejected();
    }

    /** Nothing else that happens to prompts touches these objects. */
    lemma OtherSteps(w: World, step: Step)
      requires Simulates(w) && (step.LocalSends? || step.LocalEnds? || step.KickResolves?)
      ensures Simulates(Next(w, step))
    {
    }
  }
}
