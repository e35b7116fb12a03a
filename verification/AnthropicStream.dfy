// The content-block emitter of the messages endpoint, without tools, and the grammar of its trace.
module AnthropicStream {
  import opened AccountModels
  import opened Citations
  import opened Sequences
  import opened StreamAdapter

  datatype BlockKind = ThinkingBlock | TextBlock

  datatype Sse =
    | MessageStart
    | Ping
    | BlockStart(index: nat, kind: BlockKind)
    | BlockDelta(index: nat, kind: BlockKind, text: string)
    | BlockStop(index: nat)
    | MessageDelta(annotations: seq<Spot>)
    | MessageStop
    | DoneMark

  // ---------------------------------------------------------------------------
  // The grammar
  // ---------------------------------------------------------------------------

  function Deltas(index: nat, kind: BlockKind, parts: seq<string>): (r: seq<Sse>)
    ensures |r| == |parts| && forall j :: 0 <= j < |r| ==> r[j] == BlockDelta(index, kind, parts[j])
  {
    seq(|parts|, j requires 0 <= j < |parts| => BlockDelta(index, kind, parts[j]))
  }

  /** A block that is not closed yet; one that would be empty is not opened. */
  function Opened(index: nat, kind: BlockKind, parts: seq<string>): seq<Sse> {
    if parts == [] then [] else [BlockStart(index, kind)] + Deltas(index, kind, parts)
  }

  function Block(index: nat, kind: BlockKind, parts: seq<string>): seq<Sse> {
    if parts == [] then [] else Opened(index, kind, parts) + [BlockStop(index)]
  }

  /** A whole message: at most one thinking block, then at most one text block, numbered from 0. */
  function Trace(thinks: seq<string>, texts: seq<string>, annotations: seq<Spot>): seq<Sse> {
    [MessageStart, Ping] + Block(0, ThinkingBlock, thinks) + Block(if thinks == [] then 0 else 1, TextBlock, texts)
    + [MessageDelta(annotations), MessageStop, DoneMark]
  }

  ghost predicate Grammatical(out: seq<Sse>) {
    exists thinks, texts, annotations :: out == Trace(thinks, texts, annotations)
  }

  lemma StartsInBlock(index: nat, kind: BlockKind, parts: seq<string>, x: Sse)
    requires x in Block(index, kind, parts) && x.BlockStart?
    ensures parts != [] && x == BlockStart(index, kind)
  {
  }

  lemma StartsInTrace(thinks: seq<string>, texts: seq<string>, annotations: seq<Spot>, x: Sse)
    requires x in Trace(thinks, texts, annotations) && x.BlockStart?
    ensures (x == BlockStart(0, ThinkingBlock) && thinks != [])
            || x == BlockStart(if thinks == [] then 0 else 1, TextBlock)
  {
    if x in Block(0, ThinkingBlock, thinks) {
      StartsInBlock(0, ThinkingBlock, thinks, x);
    } else {
      assert x in Block(if thinks == [] then 0 else 1, TextBlock, texts);
      StartsInBlock(if thinks == [] then 0 else 1, TextBlock, texts, x);
    }
  }

  /** Two blocks of one index are no message. */
  lemma TwoBlocksAtZero(out: seq<Sse>)
    requires BlockStart(0, ThinkingBlock) in out && BlockStart(0, TextBlock) in out
    ensures !Grammatical(out)
  {
    if Grammatical(out) {
      var thinks, texts, annotations :| out == Trace(thinks, texts, annotations);
      StartsInTrace(thinks, texts, annotations, BlockStart(0, ThinkingBlock));
      StartsInTrace(thinks, texts, annotations, BlockStart(0, TextBlock));
    }
  }

  // ---------------------------------------------------------------------------
  // The emitter
  // ---------------------------------------------------------------------------

  datatype Emitter = Emitter(
    out: seq<Sse>, thinkStarted: bool, thinkClosed: bool, textStarted: bool, index: nat, annotations: seq<Spot>)

  const OPENING := Emitter([MessageStart, Ping], false, false, false, 0, [])

  function EmitThinking(s: Emitter, content: string): Emitter {
    var start := if s.thinkStarted then [] else [BlockStart(s.index, ThinkingBlock)];
    s.(thinkStarted := true, out := s.out + (start + [BlockDelta(s.index, ThinkingBlock, content)]))
  }

  function CloseThinking(s: Emitter): Emitter {
    if s.thinkStarted && !s.thinkClosed
    then s.(thinkClosed := true, out := s.out + [BlockStop(s.index)], index := s.index + 1)
    else s
  }

  function EmitText(s: Emitter, content: string): Emitter {
    var start := if s.textStarted then [] else [BlockStart(s.index, TextBlock)];
    if content == "" then s
    else s.(textStarted := true, out := s.out + (start + [BlockDelta(s.index, TextBlock, content)]))
  }

  /** One event of the adapter, with or without thinking shown. */
  function Emit(s: Emitter, e: Event, thinking: bool): Emitter {
    match e
    case Thinking(content, _) => if thinking && !s.thinkClosed then EmitThinking(s, content) else s
    case Text(content) => EmitText(CloseThinking(s), content)
    case Annotation(spot) => s.(annotations := s.annotations + [spot])
    case _ => s
  }

  function EmitAll(events: seq<Event>, thinking: bool): Emitter {
    if events == [] then OPENING else Emit(EmitAll(events[..|events| - 1], thinking), events[|events| - 1], thinking)
  }

  /** Resolved images and references join the text block if there is one; then blocks close. */
  function Finish(s: Emitter, extras: seq<string>): seq<Sse> {
    var more := if s.textStarted then Deltas(s.index, TextBlock, extras) else [];
    var t := CloseThinking(s.(out := s.out + more));
    t.out + (if t.textStarted then [BlockStop(t.index)] else []) + [MessageDelta(t.annotations), MessageStop, DoneMark]
  }

  // ---------------------------------------------------------------------------
  // What the trace must show
  // ---------------------------------------------------------------------------

  /** Nonempty texts. */
  function Texts(events: seq<Event>): seq<string> {
    Collect((e: Event) => if e.Text? && e.content != "" then [e.content] else [], events)
  }

  /** Thinking up to the first text that follows it. */
  function Thinks(events: seq<Event>, thinking: bool): seq<string> {
    if events == [] then []
    else
      var front, e := events[..|events| - 1], events[|events| - 1];
      Thinks(front, thinking) + (if thinking && e.Thinking? && !Closed(front, thinking) then [e.content] else [])
  }

  predicate Closed(events: seq<Event>, thinking: bool) {
    events != [] &&
    var front, e := events[..|events| - 1], events[|events| - 1];
    Closed(front, thinking) || (e.Text? && Thinks(front, thinking) != [])
  }

  /** The first thinking comes after text. */
  ghost predicate Disordered(events: seq<Event>, thinking: bool) {
    thinking && exists i, j :: 0 <= i < j < |events| && IsText(events[i]) && FirstThinking(events, j)
  }

  predicate IsText(e: Event) { e.Text? && e.content != "" }

  ghost predicate FirstThinking(events: seq<Event>, j: int)
    requires j < |events|
  {
    0 <= j && events[j].Thinking? && forall k :: 0 <= k < j ==> !events[k].Thinking?
  }

  lemma OneMore(events: seq<Event>, e: Event, thinking: bool)
    ensures EmitAll(events + [e], thinking) == Emit(EmitAll(events, thinking), e, thinking)
    ensures Texts(events + [e]) == Texts(events) + (if IsText(e) then [e.content] else [])
    ensures Thinks(events + [e], thinking) == Thinks(events, thinking)
            + (if thinking && e.Thinking? && !Closed(events, thinking) then [e.content] else [])
    ensures Closed(events + [e], thinking) == (Closed(events, thinking) || (e.Text? && Thinks(events, thinking) != []))
  {
    assert (events + [e])[..|events + [e]| - 1] == events;
  }

  lemma {:induction false} NoTextShown(events: seq<Event>)
    ensures Texts(events) == [] <==> forall i :: 0 <= i < |events| ==> !IsText(events[i])
  {
    if events != [] {
      var front, e := events[..|events| - 1], events[|events| - 1];
      NoTextShown(front);
      assert events == front + [e];
      OneMore(front, e, true);
    }
  }

  lemma {:induction false} NothingShown(events: seq<Event>, thinking: bool)
    ensures thinking ==> (Thinks(events, thinking) == [] <==> forall i :: 0 <= i < |events| ==> !events[i].Thinking?)
    ensures Closed(events, thinking) ==> Thinks(events, thinking) != []
    ensures !thinking ==> Thinks(events, thinking) == []
  {
    if events != [] {
      var front, e := events[..|events| - 1], events[|events| - 1];
      NothingShown(front, thinking);
      assert events == front + [e];
      OneMore(front, e, thinking);
    }
  }

  lemma DisorderedLonger(events: seq<Event>, e: Event, thinking: bool)
    requires Disordered(events, thinking)
    ensures Disordered(events + [e], thinking)
  {
    var i, j :| 0 <= i < j < |events| && IsText(events[i]) && FirstThinking(events, j);
    assert IsText((events + [e])[i]) && FirstThinking(events + [e], j);
  }

  lemma DisorderedOneMore(events: seq<Event>, e: Event, thinking: bool)
    ensures Disordered(events + [e], thinking)
            <==> (Disordered(events, thinking)
                  || (thinking && e.Thinking? && Thinks(events, thinking) == [] && Texts(events) != []))
  {
    var all, n := events + [e], |events|;
    NoTextShown(events);
    NothingShown(events, thinking);
    if Disordered(events, thinking) {
      DisorderedLonger(events, e, thinking);
    } else if thinking && e.Thinking? && Thinks(events, thinking) == [] && Texts(events) != [] {
      var i :| 0 <= i < n && IsText(events[i]);
      assert IsText(all[i]) && FirstThinking(all, n);
    } else if Disordered(all, thinking) {
      var i, j :| 0 <= i < j < |all| && IsText(all[i]) && FirstThinking(all, j);
      assert events[i] == all[i];
      assert forall k :: 0 <= k < n ==> events[k] == all[k];
      if j < n {
        assert FirstThinking(events, j);
      }
    }
  }

  // ---------------------------------------------------------------------------
  // The emitter shows it, or breaks the grammar
  // ---------------------------------------------------------------------------

  function Stopped(closed: bool): seq<Sse> { if closed then [BlockStop(0)] else [] }

  /** What has been sent before the end. */
  function Partial(thinks: seq<string>, closed: bool, texts: seq<string>): seq<Sse> {
    [MessageStart, Ping] + Opened(0, ThinkingBlock, thinks) + Stopped(closed)
      + Opened(if closed then 1 else 0, TextBlock, texts)
  }

  ghost predicate TwoBlocks(out: seq<Sse>) { BlockStart(0, ThinkingBlock) in out && BlockStart(0, TextBlock) in out }

  /** What the trace has to show of some events, and whether they came in disorder. */
  datatype View = View(thinks: seq<string>, closed: bool, texts: seq<string>, bad: bool, annotations: seq<Spot>)

  ghost function ViewOf(events: seq<Event>, thinking: bool): View {
    View(Thinks(events, thinking), Closed(events, thinking), Texts(events), Disordered(events, thinking),
      SpotsOf(events))
  }

  /** The effect of one more event. */
  function Viewed(v: View, e: Event, thinking: bool): View {
    match e
    case Thinking(content, _) =>
      if thinking && !v.closed
      then v.(thinks := v.thinks + [content], bad := v.bad || (v.thinks == [] && v.texts != []))
      else v
    case Text(content) => v.(texts := v.texts + (if content == "" then [] else [content]), closed := v.thinks != [])
    case Annotation(spot) => v.(annotations := v.annotations + [spot])
    case _ => v
  }

  lemma ViewOneMore(events: seq<Event>, e: Event, thinking: bool)
    ensures ViewOf(events + [e], thinking) == Viewed(ViewOf(events, thinking), e, thinking)
  {
    NothingShown(events, thinking);
    OneMore(events, e, thinking);
    DisorderedOneMore(events, e, thinking);
    CollectOneMore(SpotPart, events, e);
  }

  ghost predicate FlagsAgree(s: Emitter, v: View) {
    && s.thinkStarted == (v.thinks != []) && s.thinkClosed == v.closed && s.textStarted == (v.texts != [])
    && s.index == (if v.closed then 1 else 0) && (v.closed ==> v.thinks != []) && s.annotations == v.annotations
  }

  /** What has been sent is the beginning of a message. */
  ghost predicate Good(s: Emitter, v: View) {
    s.out == Partial(v.thinks, v.closed, v.texts) && (v.thinks != [] && v.texts != [] ==> v.closed)
  }

  /** What the emitter has sent and remembers. Once in disorder, no message can come of it. */
  ghost predicate Shows(s: Emitter, v: View) {
    FlagsAgree(s, v) && (if v.bad then TwoBlocks(s.out) else Good(s, v))
  }

  lemma OpenedOneMore(index: nat, kind: BlockKind, parts: seq<string>, part: string)
    ensures Opened(index, kind, parts + [part])
            == Opened(index, kind, parts) + ((if parts == [] then [BlockStart(index, kind)] else [])
               + [BlockDelta(index, kind, part)])
  {
    assert Deltas(index, kind, parts + [part]) == Deltas(index, kind, parts) + [BlockDelta(index, kind, part)];
    assert Deltas(index, kind, []) == [];
  }

  lemma ThinkingShows(s: Emitter, v: View, content: string)
    requires Shows(s, v) && !v.closed && (v.bad || v.texts == [])
    ensures Shows(EmitThinking(s, content), v.(thinks := v.thinks + [content]))
  {
    if !v.bad {
      OpenedOneMore(0, ThinkingBlock, v.thinks, content);
    }
  }

  /** A thinking block opened over an open text block. */
  lemma ThinkingBad(s: Emitter, v: View, content: string)
    requires Shows(s, v) && !v.closed && !v.bad && v.texts != []
    ensures Shows(EmitThinking(s, content), v.(thinks := v.thinks + [content], bad := true))
  {
    var start := Opened(0, TextBlock, v.texts);
    assert start[0] == BlockStart(0, TextBlock);
    assert BlockStart(0, TextBlock) in start;
    assert BlockStart(0, TextBlock) in s.out;
  }

  lemma CloseShows(s: Emitter, v: View)
    requires Shows(s, v)
    ensures Shows(CloseThinking(s), v.(closed := v.thinks != []))
  {
  }

  lemma TextShows(s: Emitter, v: View, content: string)
    requires Shows(s, v) && v.closed == (v.thinks != []) && content != ""
    ensures Shows(EmitText(s, content), v.(texts := v.texts + [content]))
  {
    if !v.bad {
      var index := if v.closed then 1 else 0;
      OpenedOneMore(index, TextBlock, v.texts, content);
      InTwoParts([MessageStart, Ping] + Opened(0, ThinkingBlock, v.thinks) + Stopped(v.closed),
        Opened(index, TextBlock, v.texts),
        (if v.texts == [] then [BlockStart(index, TextBlock)] else []) + [BlockDelta(index, TextBlock, content)]);
    }
  }

  lemma {:induction false} EmitShows(s: Emitter, v: View, e: Event, thinking: bool)
    requires Shows(s, v)
    ensures Shows(Emit(s, e, thinking), Viewed(v, e, thinking))
  {
    if thinking && e.Thinking? && !v.closed {
      if v.bad || v.texts == [] {
        ThinkingShows(s, v, e.content);
      } else {
        ThinkingBad(s, v, e.content);
      }
    } else if e.Text? {
      CloseShows(s, v);
      if e.content != "" {
        TextShows(CloseThinking(s), v.(closed := v.thinks != []), e.content);
      } else {
        assert v.texts + [] == v.texts;
      }
    }
  }

  lemma {:induction false} EmitFollows(s: Emitter, events: seq<Event>, e: Event, thinking: bool)
    requires Shows(s, ViewOf(events, thinking))
    ensures Shows(Emit(s, e, thinking), ViewOf(events + [e], thinking))
  {
    EmitShows(s, ViewOf(events, thinking), e, thinking);
    ViewOneMore(events, e, thinking);
  }

  lemma OpeningFollows(thinking: bool)
    ensures Shows(OPENING, ViewOf([], thinking))
  {
    assert Partial([], false, []) == [MessageStart, Ping];
  }

  lemma {:induction false} EmitAllFollows(events: seq<Event>, thinking: bool)
    ensures Shows(EmitAll(events, thinking), ViewOf(events, thinking))
  {
    if events == [] {
      OpeningFollows(thinking);
    } else {
      var front, e := events[..|events| - 1], events[|events| - 1];
      EmitAllFollows(front, thinking);
      assert events == front + [e];
      EmitFollows(EmitAll(front, thinking), front, e, thinking);
    }
  }

  function AllTexts(texts: seq<string>, extras: seq<string>): seq<string> { if texts == [] then [] else texts + extras }

  lemma {:induction false} OpenedMore(index: nat, kind: BlockKind, parts: seq<string>, more: seq<string>)
    requires parts != []
    ensures Opened(index, kind, parts + more) == Opened(index, kind, parts) + Deltas(index, kind, more)
  {
    assert Deltas(index, kind, parts + more) == Deltas(index, kind, parts) + Deltas(index, kind, more);
    InTwoParts([BlockStart(index, kind)], Deltas(index, kind, parts), Deltas(index, kind, more));
  }

  lemma ExtrasGood(s: Emitter, v: View, extras: seq<string>)
    requires Shows(s, v) && !v.bad
    ensures var more := if s.textStarted then Deltas(s.index, TextBlock, extras) else [];
            Shows(s.(out := s.out + more), v.(texts := AllTexts(v.texts, extras)))
  {
    if v.texts != [] {
      OpenedMore(s.index, TextBlock, v.texts, extras);
      InTwoParts([MessageStart, Ping] + Opened(0, ThinkingBlock, v.thinks) + Stopped(v.closed),
        Opened(s.index, TextBlock, v.texts), Deltas(s.index, TextBlock, extras));
    } else {
      assert s.out + [] == s.out;
    }
  }

  lemma {:induction false} FinishGood(s: Emitter, v: View, extras: seq<string>)
    requires Shows(s, v) && !v.bad
    ensures Finish(s, extras) == Trace(v.thinks, AllTexts(v.texts, extras), v.annotations)
  {
    var s' := s.(out := s.out + (if s.textStarted then Deltas(s.index, TextBlock, extras) else []));
    var v' := v.(texts := AllTexts(v.texts, extras));
    ExtrasGood(s, v, extras);
    CloseShows(s', v');
    FinishShape(CloseThinking(s').out, v'.thinks, v'.texts, [MessageDelta(s.annotations), MessageStop, DoneMark]);
  }

  lemma FinishShape(out: seq<Sse>, thinks: seq<string>, texts: seq<string>, tail: seq<Sse>)
    requires out == Partial(thinks, thinks != [], texts)
    ensures out + (if texts != [] then [BlockStop(if thinks != [] then 1 else 0)] else []) + tail
            == [MessageStart, Ping] + Block(0, ThinkingBlock, thinks)
               + Block(if thinks == [] then 0 else 1, TextBlock, texts) + tail
  {
  }

  /** The exact condition: for any events at all, the trace is a message of the grammar if and only
      if the first thinking does not come after text, and then it shows the thinking that precedes
      the text, the whole text with the extras, and the annotations. */
  lemma {:induction false} GrammarExact(events: seq<Event>, thinking: bool, extras: seq<string>)
    ensures Grammatical(Finish(EmitAll(events, thinking), extras)) <==> !Disordered(events, thinking)
    ensures !Disordered(events, thinking) ==>
              Finish(EmitAll(events, thinking), extras)
              == Trace(Thinks(events, thinking), AllTexts(Texts(events), extras), SpotsOf(events))
  {
    var s := EmitAll(events, thinking);
    EmitAllFollows(events, thinking);
    if Disordered(events, thinking) {
      TwoBlocksAtZero(Finish(s, extras));
    } else {
      FinishGood(s, ViewOf(events, thinking), extras);
    }
  }

  /** What the adapter sends is in order. */
  lemma PlacedIsOrdered(events: seq<Event>, thinking: bool)
    requires WellPlaced(events)
    ensures !Disordered(events, thinking)
  {
    if Disordered(events, thinking) {
      var i: nat, j: nat :| i < j < |events| && IsText(events[i]) && FirstThinking(events, j);
      ThinkingComesFirst(events, i, j);
    }
  }

  /** All text is shown, and no part of it is empty. */
  lemma {:induction false} TextsAreAll(events: seq<Event>)
    ensures Join(Texts(events)) == Join(TextOf(events)) && "" !in Texts(events)
  {
    if events != [] {
      var front, e := events[..|events| - 1], events[|events| - 1];
      TextsAreAll(front);
      assert events == front + [e];
      OneMore(front, e, true);
      CollectOneMore(TextPart, front, e);
      if e.Text? {
        JoinOneMore(TextOf(front), e.content);
        LineJoined(Texts(front), if IsText(e) then [e.content] else [], e.content);
      } else {
        assert Texts(front) + [] == Texts(front) && TextOf(front) + [] == TextOf(front);
      }
    }
  }

  /** Of what the adapter sends all thinking is shown. */
  lemma {:induction false} ThinksAreAll(events: seq<Event>, thinking: bool)
    requires WellPlaced(events)
    ensures Thinks(events, thinking) == if thinking then ThinkingOf(events) else []
    ensures Closed(events, thinking) ==> TextOf(events) != []
  {
    if events != [] {
      var front, e := events[..|events| - 1], events[|events| - 1];
      ThinksAreAll(front, thinking);
      assert events == front + [e];
      CollectOneMore(ThinkingPart, front, e);
      CollectOneMore(TextPart, front, e);
    }
  }

  // ---------------------------------------------------------------------------
  // The whole stream
  // ---------------------------------------------------------------------------

  datatype Line = DataLine(frame: Frame) | DoneLine | OtherLine

  lemma {:induction false} PlacedPrefix(events: seq<Event>, n: nat)
    requires WellPlaced(events) && n <= |events|
    ensures WellPlaced(events[..n])
  {
    if n < |events| {
      var front := events[..|events| - 1];
      PlacedPrefix(front, n);
      assert front[..n] == events[..n];
    } else {
      assert events[..n] == events;
    }
  }

  /** A trace for events that the adapter sent first. */
  lemma {:induction false} FinishOrdered(shown: seq<Event>, emitted: seq<Event>, thinking: bool, extras: seq<string>)
    requires shown <= emitted && WellPlaced(emitted)
    ensures Finish(EmitAll(shown, thinking), extras)
            == Trace(Thinks(shown, thinking), AllTexts(Texts(shown), extras), SpotsOf(shown))
  {
    assert emitted[..|shown|] == shown;
    PlacedPrefix(emitted, |shown|);
    PlacedIsOrdered(shown, thinking);
    GrammarExact(shown, thinking, extras);
  }

  /** The events before the first soft stop. */
  function UpToStop(events: seq<Event>): seq<Event> {
    if events == [] || events[0].SoftStop? then [] else [events[0]] + UpToStop(events[1..])
  }

  /** An attempt in progress: the adapter, the events it has shown, and whether the stream ended. */
  datatype Reading = Reading(adapter: Adapter, shown: seq<Event>, ended: bool)

  const UNREAD := Reading(FRESH, [], false)

  function ReadFrame(r: Reading, f: Frame): Reading {
    var s := Fed(r.adapter, f);
    Reading(s.adapter, r.shown + UpToStop(s.events), UpToStop(s.events) != s.events)
  }

  /** The lines from number k on: up to the end mark, or the frame with a soft stop. */
  function ReadFrom(lines: seq<Line>, k: nat, r: Reading): Reading
    requires k <= |lines|
    decreases |lines| - k
  {
    if k == |lines| || r.ended then r
    else match lines[k]
      case DoneLine => r
      case OtherLine => ReadFrom(lines, k + 1, r)
      case DataLine(f) => ReadFrom(lines, k + 1, ReadFrame(r, f))
  }

  lemma {:induction false} StopSplits(events: seq<Event>)
    ensures UpToStop(events) <= events
    ensures UpToStop(events) != events ==> |UpToStop(events)| < |events| && events[|UpToStop(events)|] == SoftStop
    ensures SoftStop !in UpToStop(events)
  {
    if events != [] && !events[0].SoftStop? {
      StopSplits(events[1..]);
      assert events == [events[0]] + events[1..];
    }
  }

  /** The frames of the data lines before the end mark. */
  function FramesOf(lines: seq<Line>): seq<Frame> {
    if lines == [] || lines[0].DoneLine? then []
    else (if lines[0].DataLine? then [lines[0].frame] else []) + FramesOf(lines[1..])
  }

  /** The first n frames are read: no soft stop before the last of them, and on to the end without one. */
  ghost predicate ReadUpTo(frames: seq<Frame>, n: nat) {
    && n <= |frames| && (forall k :: 0 <= k < n ==> SoftStop !in FedAll(frames[..k]).events)
    && (n == |frames| || SoftStop in FedAll(frames[..n]).events)
  }

  /** All events before the first soft stop. */
  ghost predicate BeforeStop(events: seq<Event>, shown: seq<Event>) {
    shown <= events && SoftStop !in shown && (shown == events || events[|shown|] == SoftStop)
  }

  /** The reading of a run of frames. */
  ghost predicate ReadingOf(frames: seq<Frame>, n: nat, r: Reading) {
    ReadUpTo(frames, n) && r.adapter == FedAll(frames[..n]).adapter && BeforeStop(FedAll(frames[..n]).events, r.shown)
  }

  /** Frames read so far, none of which has stopped the stream. */
  ghost predicate Unstopped(frames: seq<Frame>, r: Reading) {
    && !r.ended && r.adapter == FedAll(frames).adapter && r.shown == FedAll(frames).events
    && forall k :: 0 <= k <= |frames| ==> SoftStop !in FedAll(frames[..k]).events
  }

  lemma RunOneMore(frames: seq<Frame>, f: Frame)
    ensures FedAll(frames + [f]) == Then(FedAll(frames), Fed(FedAll(frames).adapter, f))
  {
    assert (frames + [f])[..|frames + [f]| - 1] == frames;
  }

  lemma StopBehind(past: seq<Event>, events: seq<Event>)
    requires SoftStop !in past
    ensures BeforeStop(past + events, past + UpToStop(events))
    ensures SoftStop in past + events <==> UpToStop(events) != events
  {
    StopSplits(events);
    if UpToStop(events) != events {
      assert (past + events)[|past + UpToStop(events)|] == SoftStop;
    }
  }

  lemma PrefixesOf(frames: seq<Frame>, f: Frame, more: seq<Frame>)
    ensures (frames + [f] + more)[..|frames| + 1] == frames + [f]
    ensures forall k :: 0 <= k <= |frames| ==> (frames + [f] + more)[..k] == frames[..k]
  {
  }

  lemma {:induction false} ReadUpToHere(frames: seq<Frame>, f: Frame, more: seq<Frame>)
    requires forall k :: 0 <= k <= |frames| ==> SoftStop !in FedAll(frames[..k]).events
    requires SoftStop in FedAll(frames + [f]).events
    ensures ReadUpTo(frames + [f] + more, |frames| + 1)
  {
    PrefixesOf(frames, f, more);
  }

  lemma {:induction false} StoppedHere(frames: seq<Frame>, r: Reading, f: Frame, more: seq<Frame>)
    requires Unstopped(frames, r) && ReadFrame(r, f).ended
    ensures ReadingOf(frames + [f] + more, |frames| + 1, ReadFrame(r, f))
  {
    assert frames[..|frames|] == frames;
    RunOneMore(frames, f);
    StopBehind(r.shown, Fed(r.adapter, f).events);
    ReadUpToHere(frames, f, more);
    PrefixesOf(frames, f, more);
  }

  lemma {:induction false} GoesOn(frames: seq<Frame>, r: Reading, f: Frame)
    requires Unstopped(frames, r) && !ReadFrame(r, f).ended
    ensures Unstopped(frames + [f], ReadFrame(r, f))
  {
    assert frames[..|frames|] == frames;
    RunOneMore(frames, f);
    StopBehind(r.shown, Fed(r.adapter, f).events);
    PrefixesOf(frames, f, []);
    assert frames + [f] + [] == frames + [f] && (frames + [f])[..|frames| + 1] == frames + [f];
  }

  /** Reading lines is running the adapter over their frames. */
  lemma {:induction false} ReadIsRun(lines: seq<Line>, k: nat, r: Reading, frames: seq<Frame>) returns (n: nat)
    requires k <= |lines| && Unstopped(frames, r)
    ensures ReadingOf(frames + FramesOf(lines[k..]), n, ReadFrom(lines, k, r))
    decreases |lines| - k
  {
    n := |frames|;
    if k == |lines| || lines[k].DoneLine? {
      assert frames + [] == frames && frames[..n] == frames;
    } else {
      assert lines[k..][1..] == lines[k + 1..];
      if lines[k].OtherLine? {
        assert [] + FramesOf(lines[k + 1..]) == FramesOf(lines[k + 1..]);
        n := ReadIsRun(lines, k + 1, r, frames);
      } else {
        var f := lines[k].frame;
        InTwoParts(frames, [f], FramesOf(lines[k + 1..]));
        ReadOneMore(lines, k, r);
        if ReadFrame(r, f).ended {
          StoppedHere(frames, r, f, FramesOf(lines[k + 1..]));
          n := n + 1;
        } else {
          GoesOn(frames, r, f);
          n := ReadIsRun(lines, k + 1, ReadFrame(r, f), frames + [f]);
        }
      }
    }
  }

  /** The trace of a run of frames: the thinking and text they show, then resolved images and references. */
  ghost predicate ShowsRun(out: seq<Sse>, frames: seq<Frame>, thinking: bool, resolve: Event -> Option<string>,
                           references: seq<Source> -> string) {
    exists n, r ::
      && ReadingOf(frames, n, r)
      && out == Trace(if thinking then ThinkingOf(r.shown) else [],
                      AllTexts(Texts(r.shown), Extras(r.adapter.out.images, resolve, references(r.adapter.sources))),
                      SpotsOf(r.shown))
  }

  lemma {:induction false} ReadShowsRun(lines: seq<Line>, out: seq<Sse>, thinking: bool,
                                        resolve: Event -> Option<string>, references: seq<Source> -> string)
    requires var r := ReadFrom(lines, 0, UNREAD);
             out == Trace(Thinks(r.shown, thinking),
                          AllTexts(Texts(r.shown), Extras(r.adapter.out.images, resolve,
                            references(r.adapter.sources))),
                          SpotsOf(r.shown))
    requires WellPlaced(ReadFrom(lines, 0, UNREAD).shown)
    ensures ShowsRun(out, FramesOf(lines), thinking, resolve, references)
  {
    ThinksAreAll(ReadFrom(lines, 0, UNREAD).shown, thinking);
    var n := ReadIsRun(lines, 0, UNREAD, []);
    assert lines[0..] == lines && [] + FramesOf(lines) == FramesOf(lines);
  }

  /** One successful attempt: for any upstream lines, the trace is start, ping, at most one thinking
      block, at most one text block, message delta and stop. It shows what the adapter makes of the
      lines, up to the end of the stream. */
  method RunStream(lines: seq<Line>, thinking: bool, resolve: Event -> Option<string>,
                   references: seq<Source> -> string)
      returns (out: seq<Sse>)
    ensures var r := ReadFrom(lines, 0, UNREAD);
            out == Trace(Thinks(r.shown, thinking),
                         AllTexts(Texts(r.shown), Extras(r.adapter.out.images, resolve, references(r.adapter.sources))),
                         SpotsOf(r.shown))
    ensures Grammatical(out) && ShowsRun(out, FramesOf(lines), thinking, resolve, references)
  {
    var adapter := new StreamAdapter();
    var s;
    ghost var r;
    s, r := EmitLines(adapter, lines, thinking);
    var extras := Extras(adapter.out.images, resolve, references(adapter.sources));
    FreshKeeps();
    ghost var emitted, cited := ReadKeeps(lines, 0, UNREAD, [], []);
    SoundIsPlaced(r.adapter.numbering, r.adapter.out, emitted, cited);
    FinishOrdered(r.shown, emitted, thinking, extras);
    out := Finish(s, extras);
    assert emitted[..|r.shown|] == r.shown;
    PlacedPrefix(emitted, |r.shown|);
    ReadShowsRun(lines, out, thinking, resolve, references);
  }

  /** The loop over the upstream lines, up to the end mark or a soft stop. */
  method EmitLines(adapter: StreamAdapter, lines: seq<Line>, thinking: bool) returns (s: Emitter, ghost r: Reading)
    requires adapter.Now() == FRESH
    modifies adapter
    ensures r == ReadFrom(lines, 0, UNREAD) && adapter.Now() == r.adapter && s == EmitAll(r.shown, thinking)
  {
    var ended, k := false, 0;
    s, r := OPENING, UNREAD;
    while k < |lines| && !ended && !lines[k].DoneLine?
      invariant 0 <= k <= |lines| && adapter.Now() == r.adapter && ended == r.ended
      invariant s == EmitAll(r.shown, thinking)
      invariant ReadFrom(lines, k, r) == ReadFrom(lines, 0, UNREAD)
    {
      if lines[k].DataLine? {
        s, ended := EmitData(adapter, s, lines[k].frame, thinking, r);
        r := ReadFrame(r, lines[k].frame);
      }
      k := k + 1;
    }
  }

  method EmitData(adapter: StreamAdapter, s0: Emitter, f: Frame, thinking: bool, ghost r: Reading)
      returns (s: Emitter, ended: bool)
    requires adapter.Now() == r.adapter && s0 == EmitAll(r.shown, thinking)
    modifies adapter
    ensures adapter.Now() == ReadFrame(r, f).adapter && ended == ReadFrame(r, f).ended
    ensures s == EmitAll(ReadFrame(r, f).shown, thinking)
  {
    var events := adapter.Feed(f);
    s, ended := EmitFrame(s0, events, thinking, r.shown);
  }

  lemma {:induction false} FrameKeeps(r: Reading, f: Frame, emitted: seq<Event>, cited: seq<string>)
    requires Keeps(r.adapter, emitted, cited) && r.shown == emitted
    ensures Keeps(ReadFrame(r, f).adapter, emitted + Fed(r.adapter, f).events, cited + CitedByFrame(r.adapter, f))
    ensures var after := ReadFrame(r, f);
            && after.shown <= emitted + Fed(r.adapter, f).events
            && (!after.ended ==> after.shown == emitted + Fed(r.adapter, f).events)
  {
    FedKeeps(r.adapter, emitted, cited, f);
    ShownSoFar(emitted, Fed(r.adapter, f).events);
  }

  lemma {:induction false} ReadOneMore(lines: seq<Line>, k: nat, r: Reading)
    requires k < |lines| && !r.ended && lines[k].DataLine?
    ensures ReadFrom(lines, k, r) == ReadFrom(lines, k + 1, ReadFrame(r, lines[k].frame))
  {
  }

  /** What is shown is the beginning of what the adapter sends. */
  lemma {:induction false} ReadKeeps(lines: seq<Line>, k: nat, r: Reading, emitted: seq<Event>, cited: seq<string>)
      returns (after: seq<Event>, seen: seq<string>)
    requires k <= |lines| && Keeps(r.adapter, emitted, cited) && r.shown <= emitted && (!r.ended ==> r.shown == emitted)
    ensures Keeps(ReadFrom(lines, k, r).adapter, after, seen) && ReadFrom(lines, k, r).shown <= after
    decreases |lines| - k
  {
    after, seen := emitted, cited;
    if k < |lines| && !r.ended && !lines[k].DoneLine? {
      if lines[k].DataLine? {
        var f := lines[k].frame;
        var next := ReadFrame(r, f);
        FrameKeeps(r, f, emitted, cited);
        ReadOneMore(lines, k, r);
        after, seen := ReadKeeps(lines, k + 1, next, emitted + Fed(r.adapter, f).events,
          cited + CitedByFrame(r.adapter, f));
      } else {
        after, seen := ReadKeeps(lines, k + 1, r, emitted, cited);
      }
    }
  }

  lemma ShownSoFar(past: seq<Event>, events: seq<Event>)
    ensures past + UpToStop(events) <= past + events
  {
    StopSplits(events);
  }

  /** The events of one frame, up to a soft stop. */
  method EmitFrame(s0: Emitter, events: seq<Event>, thinking: bool, ghost shown: seq<Event>)
      returns (s: Emitter, ended: bool)
    requires s0 == EmitAll(shown, thinking)
    ensures s == EmitAll(shown + UpToStop(events), thinking)
    ensures ended <==> UpToStop(events) != events
  {
    s, ended := s0, false;
    var k := 0;
    assert shown + events[..0] == shown;
    while k < |events| && !ended
      decreases |events| - k, !ended
      invariant 0 <= k <= |events| && s == EmitAll(shown + events[..k], thinking)
      invariant forall i :: 0 <= i < k ==> !events[i].SoftStop?
      invariant ended ==> k < |events| && events[k] == SoftStop
    {
      if events[k].SoftStop? {
        ended := true;
      } else {
        OneShown(shown, events, k, thinking);
        s := Emit(s, events[k], thinking);
        k := k + 1;
      }
    }
    StopsThere(events, k);
  }

  lemma {:induction false} OneShown(shown: seq<Event>, events: seq<Event>, k: nat, thinking: bool)
    requires k < |events|
    ensures EmitAll(shown + events[..k + 1], thinking)
            == Emit(EmitAll(shown + events[..k], thinking), events[k], thinking)
  {
    Taken(shown, events, k);
    OneMore(shown + events[..k], events[k], thinking);
  }

  lemma {:induction false} StopsThere(events: seq<Event>, k: nat)
    requires k <= |events| && forall i :: 0 <= i < k ==> !events[i].SoftStop?
    requires k < |events| ==> events[k] == SoftStop
    ensures UpToStop(events) == events[..k] && (k < |events| <==> UpToStop(events) != events)
  {
    if k > 0 {
      StopsThere(events[1..], k - 1);
      assert events == [events[0]] + events[1..] && events[..k] == [events[0]] + events[1..][..k - 1];
    }
  }

  /** Images that resolve to text, a line each, then the references. */
  function Extras(images: seq<Event>, resolve: Event -> Option<string>, references: string): seq<string> {
    Collect((e: Event) => if resolve(e).Some? then [resolve(e).value + "\n"] else [], images)
      + (if references == "" then [] else [references])
  }

  /** The text that image i adds: its resolution and a newline, if it resolves. */
  function ImageLine(resolve: Event -> Option<string>, e: Event): string {
    match resolve(e) case None => "" case Some(text) => text + "\n"
  }

  function ImageLines(resolve: Event -> Option<string>, images: seq<Event>): (r: seq<string>)
    ensures |r| == |images| && forall i :: 0 <= i < |r| ==> r[i] == ImageLine(resolve, images[i])
  {
    seq(|images|, i requires 0 <= i < |images| => ImageLine(resolve, images[i]))
  }

  /** Joined, the extras are a line for each image that resolves, in order, and then the references. */
  lemma {:induction false} ExtrasJoined(images: seq<Event>, resolve: Event -> Option<string>, references: string)
    ensures Join(Extras(images, resolve, references)) == Join(ImageLines(resolve, images)) + references
    ensures "" !in Extras(images, resolve, references)
  {
    var f := (e: Event) => if resolve(e).Some? then [resolve(e).value + "\n"] else [];
    LinesJoined(images, resolve, f);
    if references == "" {
      assert Collect(f, images) + [] == Collect(f, images);
    } else {
      JoinOneMore(Collect(f, images), references);
    }
  }

  lemma {:induction false} LinesJoined(images: seq<Event>, resolve: Event -> Option<string>, f: Event -> seq<string>)
    requires forall e :: f(e) == if resolve(e).Some? then [resolve(e).value + "\n"] else []
    ensures Join(Collect(f, images)) == Join(ImageLines(resolve, images)) && "" !in Collect(f, images)
  {
    if images != [] {
      var front, e := images[..|images| - 1], images[|images| - 1];
      LinesJoined(front, resolve, f);
      assert ImageLines(resolve, images) == ImageLines(resolve, front) + [ImageLine(resolve, e)];
      JoinOneMore(ImageLines(resolve, front), ImageLine(resolve, e));
      LineJoined(Collect(f, front), f(e), ImageLine(resolve, e));
    }
  }

  lemma LineJoined(lines: seq<string>, more: seq<string>, line: string)
    requires more == if line == "" then [] else [line]
    ensures Join(lines + more) == Join(lines) + line
  {
    if line == "" {
      assert lines + more == lines && Join(lines) + line == Join(lines);
    } else {
      JoinOneMore(lines, line);
    }
  }
}
