// Whole runs of the adapter, told by the frames alone: what each frame adds to what was sent.
module AdapterRuns {
  import opened AccountModels
  import opened ToolText
  import opened Sequences
  import opened Citations
  import opened CitationText
  import opened StreamAdapter
  import opened AdapterSources

  // ---------------------------------------------------------------------------
  // The history that matters
  // ---------------------------------------------------------------------------

  /** The answer has begun. */
  ghost predicate TextBegan(frames: seq<Frame>) { exists i :: 0 <= i < |frames| && KindOf(frames[i]).Answer? }

  /** The line of thinking a frame brings: a formatted tool card, or a thinking token without its bullet. */
  function LineIn(f: Frame): string {
    match KindOf(f)
    case Tool => f.toolLine
    case Thought => if "- " <= f.token.value then f.token.value[2..] else f.token.value
    case _ => ""
  }

  /** Frame i spoke while thinking was still shown. */
  ghost predicate Spoke(frames: seq<Frame>, i: int)
    requires i < |frames|
  {
    0 <= i && LineIn(frames[i]) != "" && !TextBegan(frames[..i])
  }

  /** Some agent has said the line, as far as agent and line can be told apart. */
  ghost predicate Said(frames: seq<Frame>, key: string) {
    exists i :: 0 <= i < |frames| && Spoke(frames, i) && key == frames[i].rollout + ":" + LineIn(frames[i])
  }

  /** The agent that spoke last; frames without an agent leave it. */
  ghost predicate LastAgent(frames: seq<Frame>, agent: string) {
    || (exists i :: 0 <= i < |frames| && Spoke(frames, i) && frames[i].rollout == agent != ""
                    && forall j :: i < j < |frames| && Spoke(frames, j) ==> frames[j].rollout == "")
    || (agent == "" && forall j :: 0 <= j < |frames| && Spoke(frames, j) ==> frames[j].rollout == "")
  }

  /** The cards attached so far; a later card replaces an earlier one of its name. */
  function CardsOf(frames: seq<Frame>): map<string, Card> {
    if frames == [] then map[]
    else
      var cards, f := CardsOf(frames[..|frames| - 1]), frames[|frames| - 1];
      if f.Response? && f.attachment.Some? then cards[f.attachment.value.id := f.attachment.value.card] else cards
  }

  /** All search results found so far. */
  function FoundIn(frames: seq<Frame>): seq<Source> {
    if frames == [] then []
    else
      var f := frames[|frames| - 1];
      FoundIn(frames[..|frames| - 1]) + (if f.Response? then f.sources else [])
  }

  // ---------------------------------------------------------------------------
  // The adapter's state is this history
  // ---------------------------------------------------------------------------

  ghost predicate Remembers(a: Adapter, frames: seq<Frame>) {
    && (a.out.contentStarted <==> TextBegan(frames))
    && (forall key :: key in a.keys <==> Said(frames, key))
    && LastAgent(frames, a.lastRollout)
    && a.cards == CardsOf(frames) && Collected(FoundIn(frames), a.sources)
  }

  lemma PrefixOfMore(frames: seq<Frame>, f: Frame)
    ensures (frames + [f])[..|frames|] == frames
    ensures forall i :: 0 <= i <= |frames| ==> (frames + [f])[..i] == frames[..i]
  {
  }

  lemma BeganOneMore(frames: seq<Frame>, f: Frame)
    ensures TextBegan(frames + [f]) <==> TextBegan(frames) || KindOf(f).Answer?
  {
    var all := frames + [f];
    assert all[|frames|] == f;
    if TextBegan(frames) {
      var i :| 0 <= i < |frames| && KindOf(frames[i]).Answer?;
      assert all[i] == frames[i];
    }
  }

  lemma SpokeOneMore(frames: seq<Frame>, f: Frame)
    ensures forall i :: 0 <= i < |frames| ==> (Spoke(frames + [f], i) <==> Spoke(frames, i))
    ensures Spoke(frames + [f], |frames|) <==> LineIn(f) != "" && !TextBegan(frames)
  {
    PrefixOfMore(frames, f);
  }

  lemma SaidOneMore(frames: seq<Frame>, f: Frame, key: string)
    ensures Said(frames + [f], key) <==>
              Said(frames, key) || (LineIn(f) != "" && !TextBegan(frames) && key == f.rollout + ":" + LineIn(f))
  {
    var all := frames + [f];
    SpokeOneMore(frames, f);
    assert all[|frames|] == f;
    if Said(frames, key) {
      var i :| 0 <= i < |frames| && Spoke(frames, i) && key == frames[i].rollout + ":" + LineIn(frames[i]);
      assert Spoke(all, i) && all[i] == frames[i];
    }
    if LineIn(f) != "" && !TextBegan(frames) && key == f.rollout + ":" + LineIn(f) {
      assert Spoke(all, |frames|);
    }
  }

  lemma AgentOneMore(frames: seq<Frame>, f: Frame, agent: string)
    requires LastAgent(frames, agent)
    ensures LastAgent(frames + [f], if LineIn(f) != "" && !TextBegan(frames)
            && f.rollout != "" then f.rollout else agent)
  {
    var all := frames + [f];
    SpokeOneMore(frames, f);
    assert all[|frames|] == f;
    if LineIn(f) != "" && !TextBegan(frames) && f.rollout != "" {
      assert Spoke(all, |frames|);
    } else if agent != "" {
      var i :| 0 <= i < |frames| && Spoke(frames, i) && frames[i].rollout == agent
          && forall j :: i < j < |frames| && Spoke(frames, j) ==> frames[j].rollout == "";
      assert Spoke(all, i) && all[i] == frames[i];
    }
  }

  ghost predicate SameHistory(a: Adapter, b: Adapter) {
    a.out.contentStarted == b.out.contentStarted && a.keys == b.keys && a.lastRollout == b.lastRollout
  }

  lemma {:induction false} TakeInChanges(a: Adapter, f: Frame)
    ensures var s := TakeInStep(a, f);
            && SameHistory(a, s.adapter) && s.events == ImageReport(f) && s.adapter.numbering == a.numbering
            && s.adapter.cards == (if f.Response? && f.attachment.Some?
                                   then a.cards[f.attachment.value.id := f.attachment.value.card] else a.cards)
            && s.adapter.sources == AddSources(a.sources, if f.Response? then f.sources else [])
  {
  }

  /** A line of thinking that comes in time is remembered with its agent. */
  ghost predicate Heard(a: Adapter, f: Frame, a': Adapter) {
    var speaks := LineIn(f) != "" && !a.out.contentStarted;
    && a'.keys == a.keys + (if speaks then {f.rollout + ":" + LineIn(f)} else {})
    && a'.lastRollout == (if speaks && f.rollout != "" then f.rollout else a.lastRollout)
  }

  lemma {:induction false} ToolHeard(a: Adapter, f: Frame)
    requires KindOf(f).Tool?
    ensures var a' := MessageStep(a, f).adapter;
            Heard(a, f, a') && a'.out.contentStarted == a.out.contentStarted && a'.cards == a.cards
              && a'.sources == a.sources
  {
  }

  lemma {:induction false} ThoughtHeard(a: Adapter, f: Frame)
    requires KindOf(f).Thought?
    ensures var a' := MessageStep(a, f).adapter;
            Heard(a, f, a') && a'.out.contentStarted == a.out.contentStarted && a'.cards == a.cards
              && a'.sources == a.sources
  {
  }

  lemma {:induction false} MessageHeard(a: Adapter, f: Frame)
    ensures var a' := MessageStep(a, f).adapter;
            Heard(a, f, a') && (a'.out.contentStarted <==> a.out.contentStarted || KindOf(f).Answer?)
              && a'.cards == a.cards && a'.sources == a.sources
  {
    if KindOf(f).Tool? {
      ToolHeard(a, f);
    } else if KindOf(f).Thought? {
      ThoughtHeard(a, f);
    }
  }

  /** What one frame changes of the state that matters. */
  lemma {:induction false} FedChanges(a: Adapter, f: Frame)
    ensures var a' := Fed(a, f).adapter;
            && (a'.out.contentStarted <==> a.out.contentStarted || KindOf(f).Answer?) && Heard(a, f, a')
            && a'.cards == (if f.Response? && f.attachment.Some?
                            then a.cards[f.attachment.value.id := f.attachment.value.card] else a.cards)
            && a'.sources == AddSources(a.sources, if f.Response? then f.sources else [])
  {
    TakeInChanges(a, f);
    MessageHeard(TakeInStep(a, f).adapter, f);
  }

  lemma {:induction false} RememberOneMore(a: Adapter, frames: seq<Frame>, f: Frame)
    requires Remembers(a, frames)
    ensures Remembers(Fed(a, f).adapter, frames + [f])
  {
    var a' := Fed(a, f).adapter;
    FedChanges(a, f);
    assert a'.out.contentStarted <==> TextBegan(frames + [f]) by {
      BeganOneMore(frames, f);
    }
    assert forall key :: key in a'.keys <==> Said(frames + [f], key) by {
      forall key ensures key in a'.keys <==> Said(frames + [f], key) {
        SaidOneMore(frames, f, key);
      }
    }
    assert LastAgent(frames + [f], a'.lastRollout) by {
      AgentOneMore(frames, f, a.lastRollout);
    }
    TakenInRemembered(a, frames, f);
    TakeInChanges(a, f);
  }

  lemma {:induction false} TakenInRemembered(a: Adapter, frames: seq<Frame>, f: Frame)
    requires a.cards == CardsOf(frames) && Collected(FoundIn(frames), a.sources)
    ensures TakeInStep(a, f).adapter.cards == CardsOf(frames + [f])
    ensures Collected(FoundIn(frames + [f]), TakeInStep(a, f).adapter.sources)
  {
    PrefixOfMore(frames, f);
    TakeInChanges(a, f);
    AddCollects(FoundIn(frames), a.sources, if f.Response? then f.sources else []);
  }

  lemma {:induction false} RememberNext(front: seq<Frame>, f: Frame, frames: seq<Frame>, s: Step, t: Step)
    requires Remembers(s.adapter, front) && frames == front + [f] && t == Then(s, Fed(s.adapter, f))
    ensures Remembers(t.adapter, frames)
  {
    RememberOneMore(s.adapter, front, f);
  }

  lemma {:induction false} FreshRemembers()
    ensures Remembers(FRESH, [])
  {
    NothingCollected();
  }

  lemma {:induction false} RunRemembers(frames: seq<Frame>)
    ensures Remembers(FedAll(frames).adapter, frames)
  {
    if frames == [] {
      FreshRemembers();
    } else {
      var front, f := frames[..|frames| - 1], frames[|frames| - 1];
      RunRemembers(front);
      assert front + [f] == frames;
      RememberNext(front, f, frames, FedAll(front), FedAll(frames));
    }
  }

  // ---------------------------------------------------------------------------
  // What a frame adds
  // ---------------------------------------------------------------------------

  /** An image's printed progress, and its address once it is finished and not moderated. */
  function ImageReport(f: Frame): seq<Event> {
    if f.Response? && f.attachment.Some? && f.attachment.value.chunk.Some? then
      var c := f.attachment.value.chunk.value;
      (if c.progress.Some? then [ImageProgress(c.progress.value, c.uuid)] else [])
        + (if c.finished && !c.moderated then [Image("https://assets.grok.com/" + c.path, c.uuid)] else [])
    else []
  }

  /** A line of thinking ends with a newline. */
  function AsLine(line: string): string { if line != "" && line[|line| - 1] == '\n' then line else line + "\n" }

  /** A change of agent among thinking tokens is announced, and a line is sent unless it was said before. */
  ghost predicate ThinkingAdded(frames: seq<Frame>, f: Frame, events: seq<Event>)
    requires f.Response?
  {
    events ==
      (if KindOf(f).Thought? && f.rollout != "" && !LastAgent(frames, f.rollout)
       then [Thinking("\n[" + f.rollout + "]\n", f.rollout)] else [])
      + (if Said(frames, f.rollout + ":" + LineIn(f)) then [] else [Thinking(AsLine(LineIn(f)), f.rollout)])
  }

  /** The cleaned token, followed by its annotations, each titled after its card or the search results. */
  ghost predicate AnswerAdded(frames: seq<Frame>, f: Frame, events: seq<Event>)
    requires f.Response? && f.token.Some?
  {
    exists text ::
      && Sent(f.token.value, CardsOf(frames + [f]), CitedByFrames(frames), text)
      && (text == "" ==> events == [])
      && (text != "" ==> |events| > 0 && events[0] == Text(text)
                         && Annotated(events[1..], CardsOf(frames + [f]), FoundIn(frames + [f])))
  }

  ghost predicate Annotated(events: seq<Event>, cards: map<string, Card>, found: seq<Source>) {
    forall i :: 0 <= i < |events| ==> events[i].Annotation? && CiteTitled(events[i].spot.cite, cards, found)
  }

  ghost predicate MessageAdded(frames: seq<Frame>, f: Frame, events: seq<Event>) {
    if KindOf(f).Answer? then f.Response? && f.token.Some? && AnswerAdded(frames, f, events)
    else if KindOf(f).Stop? then events == [SoftStop]
    else if LineIn(f) != "" && !TextBegan(frames) then f.Response? && ThinkingAdded(frames, f, events)
    else events == []
  }

  lemma OneAgent(frames: seq<Frame>, a: string, b: string)
    requires LastAgent(frames, a) && LastAgent(frames, b)
    ensures a == b
  {
  }

  lemma {:induction false} LineSent(a: Adapter, line: string, rollout: string)
    requires line != ""
    ensures LineStep(a, line, rollout).events
            == if rollout + ":" + line in a.keys then [] else [Thinking(AsLine(line), rollout)]
  {
  }

  lemma {:induction false} SpeechSent(a: Adapter, f: Frame)
    requires f.Response? && LineIn(f) != "" && !a.out.contentStarted
    ensures MessageStep(a, f).events ==
              (if KindOf(f).Thought? && f.rollout != "" && f.rollout != a.lastRollout
               then [Thinking("\n[" + f.rollout + "]\n", f.rollout)] else [])
              + (if f.rollout + ":" + LineIn(f) in a.keys then [] else [Thinking(AsLine(LineIn(f)), f.rollout)])
  {
    if KindOf(f).Tool? {
      LineSent(if f.rollout != "" then a.(lastRollout := f.rollout) else a, LineIn(f), f.rollout);
    } else {
      LineSent(AgentStep(a, f.rollout).adapter, LineIn(f), f.rollout);
    }
  }

  lemma {:induction false} ThoughtAdds(a: Adapter, s: Adapter, frames: seq<Frame>, f: Frame)
    requires Remembers(a, frames) && SameHistory(a, s) && f.Response? && LineIn(f) != "" && !TextBegan(frames)
    ensures ThinkingAdded(frames, f, MessageStep(s, f).events)
  {
    SpeechSent(s, f);
    if LastAgent(frames, f.rollout) {
      OneAgent(frames, f.rollout, a.lastRollout);
    }
  }

  lemma TitledAmongAll(c: Cite, cards: map<string, Card>, sources: seq<Source>, found: seq<Source>)
    requires CiteTitled(c, cards, sources) && Collected(found, sources) && c.url != ""
    ensures CiteTitled(c, cards, found)
  {
    var id :| id in cards && cards[id].url == c.url && Titled(cards[id], sources, c.title);
    TitleAmongAll(found, sources, cards[id], c.title);
  }

  /** The events of a text are the text and then its citations, titled. */
  lemma {:induction false} TextAnnotated(out: Output, text: string, spots: seq<Spot>, cites: seq<Cite>,
                                         cards: map<string, Card>, sources: seq<Source>, found: seq<Source>)
    requires text != "" && AreOf(spots, cites) && AllTitled(cites, cards, sources) && Collected(found, sources)
    ensures TextEvents(out, text, spots)[0] == Text(text)
    ensures Annotated(TextEvents(out, text, spots)[1..], cards, found)
  {
    var events := TextEvents(out, text, spots);
    forall i | 0 <= i < |events[1..]|
      ensures events[1..][i].Annotation? && CiteTitled(events[1..][i].spot.cite, cards, found)
    {
      assert events[1..][i] == Annotation(Moved(spots[i], out.textOffset));
      TitledAmongAll(cites[i], cards, sources, found);
    }
  }

  /** The events for an answer token are the cleaned text and then its annotations. */
  lemma {:induction false} AnswerAdds(s: Adapter, frames: seq<Frame>, f: Frame)
    requires KindOf(f).Answer? && f.Response? && f.token.Some?
    requires s.cards == CardsOf(frames + [f]) && Collected(FoundIn(frames + [f]), s.sources)
    requires s.numbering == NumberingOf(CitedByFrames(frames))
    ensures AnswerAdded(frames, f, AnswerStep(s, f.token.value).events)
  {
    var token, cited := f.token.value, CitedByFrames(frames);
    var clean := Cleaned(token, s.cards, s.sources, s.numbering);
    var spots := Located(clean.text, clean.cites, 0, 0, []);
    CleanedIsSent(token, s.cards, s.sources, cited);
    assert AreOf(spots, clean.cites) by {
      CleanedFollows(token, s.cards, s.sources, cited);
      LocatedIsExact(clean.text, clean.cites);
    }
    CleanedTitles(token, s.cards, s.sources, s.numbering);
    if clean.text != "" {
      TextAnnotated(s.out, clean.text, spots, clean.cites, s.cards, s.sources, FoundIn(frames + [f]));
    }
    AnswerIs(frames, f, clean.text, TextEvents(s.out, clean.text, spots));
  }

  lemma AnswerIs(frames: seq<Frame>, f: Frame, text: string, events: seq<Event>)
    requires f.Response? && f.token.Some? && Sent(f.token.value, CardsOf(frames + [f]), CitedByFrames(frames), text)
    requires text == "" ==> events == []
    requires text != "" ==> |events| > 0 && events[0] == Text(text)
                            && Annotated(events[1..], CardsOf(frames + [f]), FoundIn(frames + [f]))
    ensures AnswerAdded(frames, f, events)
  {
  }

  lemma {:induction false} MessageAdds(a: Adapter, s: Adapter, frames: seq<Frame>, f: Frame)
    requires Remembers(a, frames) && SameHistory(a, s)
    requires s.cards == CardsOf(frames + [f]) && Collected(FoundIn(frames + [f]), s.sources)
    requires s.numbering == NumberingOf(CitedByFrames(frames))
    ensures MessageAdded(frames, f, MessageStep(s, f).events)
  {
    assert TextBegan(frames) <==> s.out.contentStarted;
    if KindOf(f).Answer? {
      AnswerAdds(s, frames, f);
    } else if LineIn(f) != "" && !TextBegan(frames) {
      ThoughtAdds(a, s, frames, f);
    } else {
      NothingSaid(s, f);
    }
  }

  lemma {:induction false} FedEvents(a: Adapter, f: Frame)
    ensures Fed(a, f).events == ImageReport(f) + MessageStep(TakeInStep(a, f).adapter, f).events
  {
    TakeInChanges(a, f);
  }

  /** One frame adds the report of its image and its message. */
  lemma {:induction false} FrameAdds(a: Adapter, frames: seq<Frame>, f: Frame) returns (message: seq<Event>)
    requires Remembers(a, frames) && a.numbering == NumberingOf(CitedByFrames(frames))
    requires TakeInStep(a, f).adapter.cards == CardsOf(frames + [f])
    requires Collected(FoundIn(frames + [f]), TakeInStep(a, f).adapter.sources)
    ensures MessageAdded(frames, f, message) && Fed(a, f).events == ImageReport(f) + message
  {
    var s := TakeInStep(a, f).adapter;
    assert SameHistory(a, s) && s.numbering == a.numbering by {
      TakeInChanges(a, f);
    }
    message := MessageStep(s, f).events;
    MessageAdds(a, s, frames, f);
    FedEvents(a, f);
  }

  lemma {:induction false} NothingSaid(a: Adapter, f: Frame)
    requires !KindOf(f).Answer? && (LineIn(f) == "" || a.out.contentStarted)
    ensures MessageStep(a, f).events == if KindOf(f).Stop? then [SoftStop] else []
  {
  }

  lemma FedOneMore(frames: seq<Frame>, f: Frame)
    ensures FedAll(frames + [f]) == Then(FedAll(frames), Fed(FedAll(frames).adapter, f))
  {
    PrefixOfMore(frames, f);
  }

  /** Every run, frame by frame: to what the frames before it sent, a frame adds the report of its
      image and what its message says, and nothing else. */
  lemma {:induction false} RunAdds(frames: seq<Frame>, f: Frame)
    ensures exists message ::
              MessageAdded(frames, f, message)
              && FedAll(frames + [f]).events == FedAll(frames).events + (ImageReport(f) + message)
  {
    var a := FedAll(frames).adapter;
    RunRemembers(frames);
    TakenInRemembered(a, frames, f);
    assert a.numbering == NumberingOf(CitedByFrames(frames)) by {
      RunKeeps(frames);
    }
    var message := FrameAdds(a, frames, f);
    FedOneMore(frames, f);
  }
}
