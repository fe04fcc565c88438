/** What the tool-call listener guarantees over every sequence of events. */
module AcpToolTheorems {
  import opened Sequences
  import opened WireIds
  import opened AcpToolStream

  /** An event about a tool call of the main agent. */
  predicate IsMain(event: Event) {
    !event.Unrelated? && (event.agentId == None || event.agentId == Some("main"))
  }

  predicate Creates(note: Notification, wireId: string) { note.Create? && note.wireId == wireId }

  /** Each card is created once, and every update comes after the creation of its card. */
  ghost predicate WellOrdered(notes: seq<Notification>) {
    && (forall i, j | 0 <= i < j < |notes| && notes[i].Create? && notes[j].Create? :: notes[i].wireId != notes[j].wireId)
    && (forall j | 0 <= j < |notes| && (notes[j].Upgrade? || notes[j].Progress?) ::
          exists i | 0 <= i < j :: Creates(notes[i], notes[j].wireId))
  }

  ghost predicate CreatedExactly(notes: seq<Notification>, ids: set<string>) {
    && (forall w | w in ids :: exists i | 0 <= i < |notes| :: Creates(notes[i], w))
    && (forall i | 0 <= i < |notes| && notes[i].Create? :: notes[i].wireId in ids)
  }

  lemma OneMore(notes: seq<Notification>, ids: set<string>, note: Notification)
    requires WellOrdered(notes) && CreatedExactly(notes, ids)
    requires note.Create? ==> note.wireId !in ids
    requires note.Upgrade? || note.Progress? ==> note.wireId in ids
    ensures WellOrdered(notes + [note])
    ensures CreatedExactly(notes + [note], if note.Create? then ids + {note.wireId} else ids)
  {
    var all := notes + [note];
    assert all[|notes|] == note;
    assert forall i | 0 <= i < |notes| :: all[i] == notes[i];
    forall w | w in ids ensures exists i | 0 <= i < |all| - 1 :: Creates(all[i], w) {
      var i :| 0 <= i < |notes| && Creates(notes[i], w);
      assert Creates(all[i], w);
    }
    if note.Create? {
      assert Creates(all[|notes|], note.wireId);
    }
    forall j | 0 <= j < |all| && (all[j].Upgrade? || all[j].Progress?)
      ensures exists i | 0 <= i < j :: Creates(all[i], all[j].wireId)
    {
      if j < |notes| {
        var i :| 0 <= i < j && Creates(notes[i], notes[j].wireId);
        assert Creates(all[i], all[j].wireId);
      }
    }
  }

  lemma NothingSent()
    ensures WellOrdered([]) && CreatedExactly([], {})
  {
  }

  lemma AfterSnoc(events: seq<Event>, event: Event)
    ensures After(events + [event]) == Next(After(events), event)
    ensures Sent(events + [event]) == Sent(events) + Emits(After(events), event)
  {
    assert (events + [event])[..|events|] == events;
  }

  lemma EmitsCard(st: State, event: Event)
    ensures Emits(st, event) ==
            if !IsMain(event) then []
            else if event.Started? && event.plan.Some? then [CardNote(st, event)] + [Plan(event.plan.value)]
            else [CardNote(st, event)]
  {
    hide CardNote, Next;
  }

  lemma SentSnoc(before: seq<Event>, event: Event)
    ensures IsMain(event) ==>
              var carded := Sent(before) + [CardNote(After(before), event)];
              Sent(before + [event]) == if event.Started? && event.plan.Some? then carded + [Plan(event.plan.value)] else carded
    ensures !IsMain(event) ==> Sent(before + [event]) == Sent(before)
  {
    hide CardNote, Next, After, Sent, Emits;
    AfterSnoc(before, event);
    EmitsCard(After(before), event);
    if IsMain(event) && event.Started? && event.plan.Some? {
      Associates(Sent(before), [CardNote(After(before), event)], [Plan(event.plan.value)]);
    }
  }

  /** For any events at all, returning turns included. */
  lemma {:induction false} CreatedOnceThenUpdated(events: seq<Event>)
    ensures WellOrdered(Sent(events))
    ensures CreatedExactly(Sent(events), After(events).started)
  {
    hide StartedCard, LazyCard, AcpToolCallId, WellOrdered, CreatedExactly;
    if events == [] {
      NothingSent();
    } else {
      var before, event := events[..|events| - 1], events[|events| - 1];
      assert events == before + [event];
      CreatedOnceThenUpdated(before);
      SentSnoc(before, event);
      if IsMain(event) {
        var st := After(before);
        assert WireId(event) in st.started ==> st.started + {WireId(event)} == st.started;
        OneMore(Sent(before), st.started, CardNote(st, event));
        if event.Started? && event.plan.Some? {
          OneMore(Sent(before) + [CardNote(st, event)], After(events).started, Plan(event.plan.value));
        }
      }
    }
  }

  // ----- each card on its own -----

  predicate IsFor(event: Event, turnId: int, toolCallId: string) {
    IsMain(event) && event.turnId == turnId && event.toolCallId == toolCallId
  }

  /** The argument text of a card: the last block of its content. */
  function ArgsText(card: Card): string {
    if card.content != [] && card.content[|card.content| - 1].TextBlock? then card.content[|card.content| - 1].text else ""
  }

  /** The text of a fragment, empty where there is none. */
  function PartOf(event: Event): string
    requires event.ArgsDelta?
  {
    match event.argumentsPart case Some(text) => text case None => ""
  }

  /** The kinds of the built-in tools. */
  const KINDS: map<string, Kind> := map[
    "Read" := Read, "Glob" := Read, "Grep" := Read, "Write" := Edit, "Edit" := Edit, "Bash" := Execute, "Terminal" := Execute,
    "WebFetch" := Fetch, "WebSearch" := Fetch, "Think" := ThinkTool]

  function KindOf(name: string): Kind {
    if name in KINDS then KINDS[name] else Kind.Other
  }

  /** The card of a started call: its description or name, the parsed arguments, and the display before their text. */
  ghost predicate ShowsStart(card: Card, event: Event)
    requires event.Started?
  {
    && card.title == (match event.description case Some(text) => text case None => event.name)
    && card.kind == KindOf(event.name) && card.status == InProgress && card.rawInput == Some(event.args)
    && card.content == (match event.display case Some(block) => [block, TextBlock(event.args)] case None => [TextBlock(event.args)])
  }

  /** The card of a call known by its first fragment only. */
  ghost predicate ShowsFragment(card: Card, event: Event)
    requires event.ArgsDelta?
  {
    && card.title == (match event.callName case Some(name) => name case None => "tool")
    && card.kind == (match event.callName case Some(name) => KindOf(name) case None => Kind.Other)
    && card.status == Pending && card.rawInput == None
    && card.content == [TextBlock(PartOf(event))]
  }

  lemma KindIsInferred(name: string)
    ensures InferToolKind(name) == KindOf(name)
  {
  }

  lemma StartIsShown(event: Event)
    requires event.Started?
    ensures ShowsStart(StartedCard(event), event)
    ensures forall card | ShowsStart(card, event) :: card == StartedCard(event)
  {
    hide InferToolKind;
    KindIsInferred(event.name);
  }

  lemma FragmentIsShown(event: Event)
    requires event.ArgsDelta?
    ensures ShowsFragment(LazyCard(event), event)
    ensures forall card | ShowsFragment(card, event) :: card == LazyCard(event)
  {
    hide InferToolKind;
    KindIsInferred("");
    if event.callName.Some? {
      KindIsInferred(event.callName.value);
    }
  }

  /** What one call's card should show after one more of the call's own events. */
  function OwnNext(card: Option<Card>, event: Event): Card
    requires !event.Unrelated?
  {
    if event.Started? then
      Card(match event.description case Some(text) => text case None => event.name, KindOf(event.name), InProgress, Some(event.args),
           match event.display case Some(block) => [block, TextBlock(event.args)] case None => [TextBlock(event.args)])
    else if card.None? then
      Card(match event.callName case Some(name) => name case None => "tool",
           match event.callName case Some(name) => KindOf(name) case None => Kind.Other, Pending, None,
           [TextBlock(PartOf(event))])
    else card.value.(status := InProgress, content := [TextBlock(ArgsText(card.value) + PartOf(event))])
  }

  /** The card of one call, computed from that call's events alone. */
  function OwnCard(events: seq<Event>, turnId: int, toolCallId: string): Option<Card> {
    if events == [] then None
    else
      var card := OwnCard(events[..|events| - 1], turnId, toolCallId);
      var event := events[|events| - 1];
      if IsFor(event, turnId, toolCallId) then Some(OwnNext(card, event)) else card
  }

  /** The turn of the last event for a raw id. */
  function LatestTurn(events: seq<Event>, toolCallId: string): Option<int> {
    if events == [] then None
    else
      var event := events[|events| - 1];
      if IsMain(event) && event.toolCallId == toolCallId then Some(event.turnId)
      else LatestTurn(events[..|events| - 1], toolCallId)
  }

  function Lookup(cards: map<string, Card>, wireId: string): Option<Card> {
    if wireId in cards then Some(cards[wireId]) else None
  }

  function Display(events: seq<Event>): map<string, Card> { Shown(Sent(events)) }

  /** The client shows for every call what that call's own events say. */
  ghost predicate Faithful(events: seq<Event>) {
    forall t, r :: Lookup(Display(events), AcpToolCallId(t, r)) == OwnCard(events, t, r)
  }

  /** A fragment for a known call whose raw id was last used by another turn. */
  predicate IsReturn(before: seq<Event>, event: Event) {
    && IsMain(event) && event.ArgsDelta?
    && OwnCard(before, event.turnId, event.toolCallId).Some?
    && LatestTurn(before, event.toolCallId) != Some(event.turnId)
  }

  lemma ShownSnoc(notes: seq<Notification>, note: Notification)
    ensures Shown(notes + [note]) == Show(Shown(notes), note)
  {
    assert (notes + [note])[..|notes|] == notes;
  }

  lemma DisplaySnoc(before: seq<Event>, event: Event)
    ensures Display(before + [event]) ==
            if IsMain(event) then Show(Display(before), CardNote(After(before), event)) else Display(before)
  {
    hide CardNote, After, Sent;
    SentSnoc(before, event);
    if IsMain(event) {
      var note := CardNote(After(before), event);
      ShownSnoc(Sent(before), note);
      if event.Started? && event.plan.Some? {
        ShownSnoc(Sent(before) + [note], Plan(event.plan.value));
      }
    }
  }

  lemma OwnSnoc(before: seq<Event>, event: Event, t: int, r: string)
    ensures OwnCard(before + [event], t, r) ==
            if IsFor(event, t, r) then Some(OwnNext(OwnCard(before, t, r), event)) else OwnCard(before, t, r)
    ensures LatestTurn(before + [event], r) ==
            if IsMain(event) && event.toolCallId == r then Some(event.turnId) else LatestTurn(before, r)
  {
    assert (before + [event])[..|before|] == before;
  }

  /** An event makes its own card known, in the started set and on show. */
  lemma EventStarts(st: State, cards: map<string, Card>, event: Event)
    requires cards.Keys == st.started
    ensures Next(st, event).started == if IsMain(event) then st.started + {WireId(event)} else st.started
    ensures IsMain(event) ==> Show(cards, CardNote(st, event)).Keys == st.started + {WireId(event)}
  {
    hide AcpToolCallId, StartedCard, LazyCard;
  }

  lemma SameWireId(event: Event, t: int, r: string)
    requires IsMain(event)
    ensures AcpToolCallId(t, r) == WireId(event) <==> IsFor(event, t, r)
  {
    if AcpToolCallId(t, r) == WireId(event) {
      AcpToolCallIdInjective(t, r, event.turnId, event.toolCallId);
    }
  }

  /** The cards on show, the ids remembered as started and the calls seen are the same. */
  lemma {:induction false} CardsAreStarted(events: seq<Event>)
    ensures Display(events).Keys == After(events).started
    ensures forall t, r :: AcpToolCallId(t, r) in After(events).started <==> OwnCard(events, t, r).Some?
  {
    if events != [] {
      hide AcpToolCallId, OwnNext, OwnCard, After, Next, Display, Show, CardNote;
      var before, event := events[..|events| - 1], events[|events| - 1];
      assert events == before + [event];
      CardsAreStarted(before);
      DisplaySnoc(before, event);
      AfterSnoc(before, event);
      EventStarts(After(before), Display(before), event);
      forall t, r ensures AcpToolCallId(t, r) in After(events).started <==> OwnCard(events, t, r).Some? {
        OwnSnoc(before, event, t, r);
        if IsMain(event) {
          SameWireId(event, t, r);
        }
      }
    }
  }

  lemma {:induction false} LatestHasCard(events: seq<Event>, r: string)
    ensures LatestTurn(events, r).Some? ==> OwnCard(events, LatestTurn(events, r).value, r).Some?
  {
    hide StartedCard, LazyCard, OwnNext;
    if events != [] {
      LatestHasCard(events[..|events| - 1], r);
    }
  }

  /** The card an event is about ends up showing the text in the cache. */
  lemma NoteShowsCache(st: State, cards: map<string, Card>, event: Event)
    requires IsMain(event) && cards.Keys == st.started
    ensures var next := Show(cards, CardNote(st, event));
            && WireId(event) in next && event.toolCallId in Next(st, event).args
            && ArgsText(next[WireId(event)]) == Next(st, event).args[event.toolCallId]
            && (forall w | w != WireId(event) :: Lookup(next, w) == Lookup(cards, w))
  {
    hide AcpToolCallId;
  }

  /** The cached text of a raw id is the text on the card it was last used for, whatever came before. */
  lemma {:induction false} CacheMatchesDisplay(events: seq<Event>, r: string)
    ensures LatestTurn(events, r).None? ==> r !in After(events).args
    ensures LatestTurn(events, r).Some? ==>
              var card := Lookup(Display(events), AcpToolCallId(LatestTurn(events, r).value, r));
              r in After(events).args && card.Some? && After(events).args[r] == ArgsText(card.value)
  {
    hide AcpToolCallId, ArgsText, Show, CardNote, Shown, Sent;
    if events != [] {
      var before, event := events[..|events| - 1], events[|events| - 1];
      assert events == before + [event];
      CacheMatchesDisplay(before, r);
      DisplaySnoc(before, event);
      AfterSnoc(before, event);
      OwnSnoc(before, event, 0, r);
      if IsMain(event) {
        CardsAreStarted(before);
        NoteShowsCache(After(before), Display(before), event);
        if event.toolCallId != r && LatestTurn(before, r).Some? {
          OtherWireId(event, LatestTurn(before, r).value, r);
        }
      }
    }
  }

  lemma OtherWireId(event: Event, t: int, r: string)
    requires IsMain(event) && !IsFor(event, t, r)
    ensures AcpToolCallId(t, r) != WireId(event)
  {
    if AcpToolCallId(t, r) == WireId(event) {
      AcpToolCallIdInjective(t, r, event.turnId, event.toolCallId);
    }
  }

  // ----- when the client is right -----

  /** The texts the two turns' own events spell out for this raw id agree at this point. */
  predicate SameText(before: seq<Event>, event: Event)
    requires IsReturn(before, event)
  {
    var r := event.toolCallId;
    LatestHasCard(before, r);
    CardNeedsTurn(before, event.turnId, r);
    ArgsText(OwnCard(before, LatestTurn(before, r).value, r).value) == ArgsText(OwnCard(before, event.turnId, r).value)
  }

  lemma {:induction false} CardNeedsTurn(events: seq<Event>, t: int, r: string)
    requires OwnCard(events, t, r).Some?
    ensures LatestTurn(events, r).Some?
  {
    hide OwnNext;
    if !IsFor(events[|events| - 1], t, r) {
      CardNeedsTurn(events[..|events| - 1], t, r);
    }
  }

  /** What the event's card becomes, given what it showed. */
  function Becomes(card: Option<Card>, event: Event, cached: string): Card
    requires IsMain(event)
  {
    if event.ArgsDelta? && card.Some? then
      card.value.(status := InProgress, content := [TextBlock(cached + PartOf(event))])
    else OwnNext(card, event)
  }

  /** The listener's cards for a start and a first fragment are the right ones. */
  lemma FirstCards(event: Event)
    requires IsMain(event)
    ensures event.Started? ==> forall card: Option<Card> :: StartedCard(event) == OwnNext(card, event)
    ensures event.ArgsDelta? ==> LazyCard(event) == OwnNext(None, event)
  {
    hide StartedCard, LazyCard;
    if event.Started? {
      StartIsShown(event);
      assert ShowsStart(OwnNext(None, event), event);
    } else {
      FragmentIsShown(event);
      assert ShowsFragment(OwnNext(None, event), event);
    }
  }

  lemma NoteCard(st: State, cards: map<string, Card>, event: Event)
    requires IsMain(event) && cards.Keys == st.started
    ensures var cached := if event.toolCallId in st.args then st.args[event.toolCallId] else "";
            Lookup(Show(cards, CardNote(st, event)), WireId(event)) == Some(Becomes(Lookup(cards, WireId(event)), event, cached))
  {
    hide AcpToolCallId, StartedCard, LazyCard, OwnNext;
    FirstCards(event);
  }

  lemma AppendCancels(a: string, b: string, tail: string)
    ensures a + tail == b + tail <==> a == b
  {
    if a + tail == b + tail {
      assert |a| == |b|;
      assert a == (a + tail)[..|a|] == (b + tail)[..|a|] == b;
    }
  }

  /** A card fed from the cache is the right one unless another turn's text was cached. */
  lemma BecomesOwn(card: Option<Card>, event: Event, cached: string)
    requires IsMain(event)
    ensures Becomes(card, event, cached) == OwnNext(card, event)
            <==> (event.ArgsDelta? && card.Some? ==> cached == ArgsText(card.value))
  {
    hide StartedCard, LazyCard;
    if event.ArgsDelta? && card.Some? {
      var tail := PartOf(event);
      AppendCancels(cached, ArgsText(card.value), tail);
      assert Becomes(card, event, cached) == OwnNext(card, event) ==>
        Becomes(card, event, cached).content[0].text == OwnNext(card, event).content[0].text;
    }
  }

  /** Where the client is right, the cache holds the own text of the latest call of a raw id. */
  lemma CachedOwnText(before: seq<Event>, event: Event)
    requires Faithful(before) && IsMain(event) && event.ArgsDelta?
    requires OwnCard(before, event.turnId, event.toolCallId).Some?
    ensures var r := event.toolCallId;
            && r in After(before).args
            && (After(before).args[r] == ArgsText(OwnCard(before, event.turnId, r).value)
                <==> (IsReturn(before, event) ==> SameText(before, event)))
  {
    hide AcpToolCallId, ArgsText, OwnCard, LatestTurn, After, Display;
    var t, r := event.turnId, event.toolCallId;
    CardNeedsTurn(before, t, r);
    LatestHasCard(before, r);
    CacheMatchesDisplay(before, r);
    var latest := LatestTurn(before, r).value;
    assert Lookup(Display(before), AcpToolCallId(latest, r)) == OwnCard(before, latest, r);
  }

  /** One event keeps a right client right exactly when it is no return or the texts agree. */
  lemma StepFaithful(before: seq<Event>, event: Event)
    requires Faithful(before)
    ensures Faithful(before + [event]) <==> (IsReturn(before, event) ==> SameText(before, event))
  {
    hide AcpToolCallId, ArgsText, OwnCard, LatestTurn, After, Display, OwnNext, Becomes, Show, CardNote, Next, SameText;
    DisplaySnoc(before, event);
    if !IsMain(event) {
      forall t, r ensures OwnCard(before + [event], t, r) == OwnCard(before, t, r) {
        OwnSnoc(before, event, t, r);
      }
      return;
    }
    var st, cards, t, r := After(before), Display(before), event.turnId, event.toolCallId;
    var next := Show(cards, CardNote(st, event));
    var cached := if r in st.args then st.args[r] else "";
    var own := OwnCard(before, t, r);
    CardsAreStarted(before);
    NoteShowsCache(st, cards, event);
    forall t', r' | !IsFor(event, t', r')
      ensures Lookup(next, AcpToolCallId(t', r')) == OwnCard(before + [event], t', r')
    {
      OwnSnoc(before, event, t', r');
      OtherWireId(event, t', r');
      assert Lookup(cards, AcpToolCallId(t', r')) == OwnCard(before, t', r');
    }
    NoteCard(st, cards, event);
    assert Lookup(cards, AcpToolCallId(t, r)) == own;
    OwnSnoc(before, event, t, r);
    BecomesOwn(own, event, cached);
    if event.ArgsDelta? && own.Some? {
      CachedOwnText(before, event);
    }
    assert Faithful(before + [event]) <==> Lookup(next, AcpToolCallId(t, r)) == OwnCard(before + [event], t, r);
  }

  /**
   * At every moment the client shows for each call what its own events spell out, if and only if
   * fragments come back to an earlier turn's call only while both turns' texts are the same.
   */
  lemma {:induction false} FaithfulExactly(events: seq<Event>)
    ensures (forall i | 0 <= i <= |events| :: Faithful(events[..i]))
            <==> (forall i | 0 <= i < |events| && IsReturn(events[..i], events[i]) :: SameText(events[..i], events[i]))
  {
    hide Faithful, IsReturn, SameText;
    if events == [] {
      NothingShown();
      assert events[..0] == [];
    } else {
      var n := |events| - 1;
      var before := events[..n];
      FaithfulExactly(before);
      assert forall i | 0 <= i <= n :: before[..i] == events[..i];
      assert events[..|events|] == events == before + [events[n]];
      assert events[..n] == before;
      if Faithful(before) {
        StepFaithful(before, events[n]);
      }
    }
  }

  lemma NothingShown()
    ensures Faithful([])
  {
  }

  /** The turns using a raw id never go back. */
  ghost predicate Forward(events: seq<Event>) {
    forall i, j | 0 <= i < j < |events| && IsMain(events[i]) && IsMain(events[j])
                  && events[i].toolCallId == events[j].toolCallId :: events[i].turnId <= events[j].turnId
  }

  lemma ForwardPrefix(events: seq<Event>, n: nat)
    requires n <= |events| && Forward(events)
    ensures Forward(events[..n])
  {
  }

  lemma {:induction false} LatestIsEvent(events: seq<Event>, r: string)
    requires LatestTurn(events, r).Some?
    ensures exists i | 0 <= i < |events| :: IsFor(events[i], LatestTurn(events, r).value, r)
  {
    var init, last := events[..|events| - 1], events[|events| - 1];
    if IsMain(last) && last.toolCallId == r {
      assert IsFor(events[|events| - 1], LatestTurn(events, r).value, r);
    } else {
      LatestIsEvent(init, r);
      var i :| 0 <= i < |init| && IsFor(init[i], LatestTurn(init, r).value, r);
      assert IsFor(events[i], LatestTurn(events, r).value, r);
    }
  }

  lemma {:induction false} LatestIsHighest(events: seq<Event>, t: int, r: string)
    requires Forward(events) && OwnCard(events, t, r).Some?
    ensures LatestTurn(events, r).Some? && t <= LatestTurn(events, r).value
  {
    hide OwnNext;
    var n := |events| - 1;
    if !IsFor(events[n], t, r) {
      ForwardPrefix(events, n);
      LatestIsHighest(events[..n], t, r);
      LatestIsEvent(events[..n], r);
    }
  }

  lemma ForwardNeverReturns(events: seq<Event>, i: nat)
    requires i < |events| && Forward(events)
    ensures !IsReturn(events[..i], events[i])
  {
    hide OwnCard, LatestTurn;
    if IsReturn(events[..i], events[i]) {
      var r := events[i].toolCallId;
      ForwardPrefix(events, i);
      LatestIsHighest(events[..i], events[i].turnId, r);
      LatestIsEvent(events[..i], r);
    }
  }

  /** In particular, when turns never go back the client is always right. */
  lemma ForwardTurnsAreFaithful(events: seq<Event>)
    requires Forward(events)
    ensures Faithful(events)
  {
    hide Faithful, IsReturn, SameText, Forward;
    forall i | 0 <= i < |events| ensures !IsReturn(events[..i], events[i]) {
      ForwardNeverReturns(events, i);
    }
    FaithfulExactly(events);
    assert events[..|events|] == events;
  }

  lemma MixedOwn(first: Event, second: Event, back: Event)
    requires first == ArgsDelta(None, 1, "x", None, Some("a"))
    requires second == ArgsDelta(None, 2, "x", None, Some("b"))
    requires back == ArgsDelta(None, 1, "x", None, Some("c"))
    ensures OwnCard([first, second, back], 1, "x").Some?
    ensures ArgsText(OwnCard([first, second, back], 1, "x").value) == "ac"
  {
    assert [first] == [] + [first];
    assert [first, second] == [first] + [second];
    assert [first, second, back] == [first, second] + [back];
    OwnSnoc([], first, 1, "x");
    OwnSnoc([first], second, 1, "x");
    OwnSnoc([first, second], back, 1, "x");
    assert "a" + "c" == "ac";
  }

  lemma MixedCache(first: Event, second: Event, back: Event)
    requires first == ArgsDelta(None, 1, "x", None, Some("a"))
    requires second == ArgsDelta(None, 2, "x", None, Some("b"))
    requires back == ArgsDelta(None, 1, "x", None, Some("c"))
    ensures var card := Lookup(Display([first, second, back]), AcpToolCallId(1, "x"));
            card.Some? && ArgsText(card.value) == "bc"
  {
    hide AcpToolCallId;
    assert [first] == [] + [first];
    assert [first, second] == [first] + [second];
    assert [first, second, back] == [first, second] + [back];
    AfterSnoc([], first);
    AfterSnoc([first], second);
    AfterSnoc([first, second], back);
    OtherWireId(first, 2, "x");
    assert "b" + "c" == "bc";
    OwnSnoc([first, second], back, 1, "x");
    CacheMatchesDisplay([first, second, back], "x");
  }

  /** Turn 1 streams "a", turn 2 reuses the raw id with "b", then turn 1 gets "c": its card shows "bc". */
  lemma ReturningFragmentMixesTexts()
    ensures var first := ArgsDelta(None, 1, "x", None, Some("a"));
            var second := ArgsDelta(None, 2, "x", None, Some("b"));
            var back := ArgsDelta(None, 1, "x", None, Some("c"));
            var card := Lookup(Display([first, second, back]), AcpToolCallId(1, "x"));
            card.Some? && ArgsText(card.value) == "bc" && !Faithful([first, second, back])
  {
    var first := ArgsDelta(None, 1, "x", None, Some("a"));
    var second := ArgsDelta(None, 2, "x", None, Some("b"));
    var back := ArgsDelta(None, 1, "x", None, Some("c"));
    MixedCache(first, second, back);
    MixedOwn(first, second, back);
  }

  // ----- the argument text in closed form -----

  /** The fragments of one call, in order. */
  function Fragments(events: seq<Event>, t: int, r: string): string {
    if events == [] then ""
    else
      var event := events[|events| - 1];
      Fragments(events[..|events| - 1], t, r)
      + if IsFor(event, t, r) && event.ArgsDelta? then PartOf(event) else ""
  }

  function CardText(card: Option<Card>): string {
    if card.Some? then ArgsText(card.value) else ""
  }

  /** A fragment extends the text of its call. */
  lemma FragmentExtends(before: seq<Event>, event: Event, t: int, r: string)
    requires IsFor(event, t, r) ==> event.ArgsDelta?
    ensures CardText(OwnCard(before + [event], t, r)) ==
            CardText(OwnCard(before, t, r)) + (if IsFor(event, t, r) then PartOf(event) else "")
    ensures Fragments(before + [event], t, r) ==
            Fragments(before, t, r) + (if IsFor(event, t, r) then PartOf(event) else "")
  {
    OwnSnoc(before, event, t, r);
    assert (before + [event])[..|before|] == before;
  }

  /** A card's text before its call starts is the fragments so far. */
  lemma {:induction false} TextBeforeStart(events: seq<Event>, t: int, r: string)
    requires forall i | 0 <= i < |events| && IsFor(events[i], t, r) :: events[i].ArgsDelta?
    ensures CardText(OwnCard(events, t, r)) == Fragments(events, t, r)
  {
    hide CardText, IsFor, OwnCard, Fragments;
    if events == [] {
      NoText(t, r);
    } else {
      var init, last := events[..|events| - 1], events[|events| - 1];
      assert events == init + [last];
      TextBeforeStart(init, t, r);
      FragmentExtends(init, last, t, r);
    }
  }

  lemma NoText(t: int, r: string)
    ensures CardText(OwnCard([], t, r)) == Fragments([], t, r) == ""
  {
  }

  lemma TextAtStart(before: seq<Event>, start: Event, t: int, r: string)
    requires start.Started? && IsFor(start, t, r)
    ensures CardText(OwnCard(before + [start], t, r)) == start.args
  {
    OwnSnoc(before, start, t, r);
  }

  /** Afterwards it is the started arguments followed by the later fragments. */
  lemma {:induction false} TextAfterStart(before: seq<Event>, start: Event, after: seq<Event>, t: int, r: string)
    requires start.Started? && IsFor(start, t, r)
    requires forall i | 0 <= i < |after| && IsFor(after[i], t, r) :: after[i].ArgsDelta?
    ensures CardText(OwnCard(before + [start] + after, t, r)) == start.args + Fragments(after, t, r)
  {
    hide CardText, IsFor, OwnCard, Fragments, StartedCard;
    if after == [] {
      assert before + [start] + after == before + [start];
      TextAtStart(before, start, t, r);
      NoText(t, r);
    } else {
      var init, last := after[..|after| - 1], after[|after| - 1];
      TextAfterStart(before, start, init, t, r);
      assert before + [start] + after == before + [start] + init + [last];
      assert after == init + [last];
      FragmentExtends(before + [start] + init, last, t, r);
      FragmentExtends(init, last, t, r);
    }
  }

  // ----- what a single event sends -----

  predicate IsText(blocks: seq<Block>) { |blocks| == 1 && blocks[0].TextBlock? }

  /**
   * Every start of the main agent sends exactly one note about its own card, showing all it knows: an
   * upgrade of a card that is known, a creation otherwise.  A plan follows if there is one.
   */
  lemma StartSendsItsCard(before: seq<Event>, event: Event) returns (note: Notification)
    requires IsMain(event) && event.Started?
    ensures !note.Plan? && note.wireId == AcpToolCallId(event.turnId, event.toolCallId)
    ensures if OwnCard(before, event.turnId, event.toolCallId).Some? then note.Upgrade? else note.Create?
    ensures ShowsStart(note.card, event)
    ensures Sent(before + [event]) == Sent(before) + [note] + match event.plan case Some(p) => [Plan(p)] case None => []
  {
    hide AcpToolCallId, OwnCard, StartedCard, After, Display, Sent;
    CardsAreStarted(before);
    SentSnoc(before, event);
    StartIsShown(event);
    note := CardNote(After(before), event);
    assert Sent(before) + [note] + [] == Sent(before) + [note];
  }

  /** Every fragment of the main agent sends exactly one note: the first creates the card, a later one replaces its text. */
  lemma FragmentSendsItsCard(before: seq<Event>, event: Event) returns (note: Notification)
    requires IsMain(event) && event.ArgsDelta?
    ensures !note.Plan? && note.wireId == AcpToolCallId(event.turnId, event.toolCallId)
    ensures if OwnCard(before, event.turnId, event.toolCallId).Some?
            then note.Progress? && note.status == InProgress && IsText(note.content)
            else note.Create? && ShowsFragment(note.card, event)
    ensures Sent(before + [event]) == Sent(before) + [note]
  {
    hide AcpToolCallId, OwnCard, LazyCard, After, Display, Sent, ShowsFragment;
    CardsAreStarted(before);
    SentSnoc(before, event);
    FragmentIsShown(event);
    note := CardNote(After(before), event);
  }

  function MainOnly(events: seq<Event>): seq<Event> {
    if events == [] then []
    else
      var before, last := MainOnly(events[..|events| - 1]), events[|events| - 1];
      if IsMain(last) then before + [last] else before
  }

  /** Events of subagents, and all others, leave no trace. */
  lemma {:induction false} OthersLeaveNoTrace(events: seq<Event>)
    ensures Sent(MainOnly(events)) == Sent(events) && After(MainOnly(events)) == After(events)
  {
    hide Next, Emits;
    if events != [] {
      var before, last := events[..|events| - 1], events[|events| - 1];
      assert events == before + [last];
      OthersLeaveNoTrace(before);
      AfterSnoc(before, last);
      AfterSnoc(MainOnly(before), last);
      if !IsMain(last) {
        IgnoresOthers(After(before), last);
      }
    }
  }

  lemma IgnoresOthers(st: State, event: Event)
    requires !IsMain(event)
    ensures Next(st, event) == st && Emits(st, event) == []
  {
  }
}
