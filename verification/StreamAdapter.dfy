// The adapter that turns upstream frames into events, in its detailed thinking mode.
module StreamAdapter {
  import opened AccountModels
  import opened ToolText
  import opened Citations
  import opened CitationText
  import opened Sequences

  /** A generated image in progress: its printed progress where it has one. */
  datatype Chunk = Chunk(progress: Option<string>, finished: bool, moderated: bool, path: string, uuid: string)

  datatype Attachment = Attachment(id: string, card: Card, chunk: Option<Chunk>)

  datatype FrameTag = ToolCard | RawResult | Final | OtherTag

  /** What the adapter reads of a frame. sources: the web results, then the posts; toolLine: the
      formatted tool card; cardOnly: a follow-up frame that only names a tool card. */
  datatype Frame =
    | NoResponse
    | Response(
        attachment: Option<Attachment>, sources: seq<Source>, token: Option<string>, thinking: bool,
        tag: FrameTag, rollout: string, toolLine: string, cardOnly: bool, stop: bool)

  datatype Event =
    | Thinking(content: string, rollout: string)
    | Text(content: string)
    | Annotation(spot: Spot)
    | ImageProgress(content: string, id: string)
    | Image(content: string, id: string)
    | SoftStop

  const IMAGE_BASE := "https://assets.grok.com/"

  // ---------------------------------------------------------------------------
  // Exact citations
  // ---------------------------------------------------------------------------

  /** The annotations with their offsets shifted. */
  function Shifted(spots: seq<Spot>, offset: nat): (r: seq<Spot>)
    ensures |r| == |spots| && forall j :: 0 <= j < |r| ==> r[j] == Moved(spots[j], offset)
  {
    seq(|spots|, j requires 0 <= j < |spots| => Moved(spots[j], offset))
  }

  function CitesOf(spots: seq<Spot>): (r: seq<Cite>)
    ensures |r| == |spots| && forall j :: 0 <= j < |r| ==> r[j] == spots[j].cite
  {
    seq(|spots|, j requires 0 <= j < |spots| => spots[j].cite)
  }

  /** The annotations of a text are exact for a history of citations: one for each citation that
      is not an immediate repeat, in order and disjoint, each on the printed form of its address
      with the address's number. */
  ghost predicate Exact(spots: seq<Spot>, text: string, cited: seq<string>) {
    && Spotted(spots, text, |text|)
    && Urls(CitesOf(spots)) == Collapse(cited)
    && AllLabelled(CitesOf(spots), Distinct(cited))
  }

  lemma MarksShifted(spot: Spot, before: string, text: string)
    requires Marks(spot, text)
    ensures Marks(Moved(spot, |before|), before + text)
  {
    assert (before + text)[spot.start + |before|..spot.end + |before|] == text[spot.start..spot.end];
  }

  lemma MarksLonger(spot: Spot, text: string, more: string)
    requires Marks(spot, text)
    ensures Marks(spot, text + more)
  {
    assert (text + more)[spot.start..spot.end] == text[spot.start..spot.end];
  }

  lemma {:induction false} SpottedLonger(spots: seq<Spot>, text: string, end: nat, more: string)
    requires Spotted(spots, text, end)
    ensures Spotted(spots, text + more, end)
    decreases |spots|
  {
    if spots != [] {
      var s := spots[|spots| - 1];
      SpottedLonger(spots[..|spots| - 1], text, s.start, more);
      MarksLonger(s, text, more);
    }
  }

  function Moved(s: Spot, offset: nat): Spot { Spot(s.cite, s.start + offset, s.end + offset) }

  /** The spots of a text followed by the moved spots of the text behind it. */
  lemma {:induction false} SpottedBoth(past: seq<Spot>, text: string, spots: seq<Spot>, more: string, end: nat,
                                       all: seq<Spot>, whole: string)
    requires Spotted(past, text, |text|) && Spotted(spots, more, end) && whole == text + more
    requires |all| == |past| + |spots| && all[..|past|] == past
    requires forall j :: 0 <= j < |spots| ==> all[|past| + j] == Moved(spots[j], |text|)
    ensures Spotted(all, whole, |text| + end)
    decreases |spots|
  {
    if spots == [] {
      assert all == past;
      SpottedLonger(past, text, |text|, more);
      SpottedBy(past, whole, |text|, |text| + end);
    } else {
      var front, s, n := spots[..|spots| - 1], spots[|spots| - 1], |all| - 1;
      assert all[..n][..|past|] == past;
      SpottedBoth(past, text, front, more, s.start, all[..n], whole);
      MarksShifted(s, text, more);
      assert all[n] == Moved(s, |text|);
    }
  }

  lemma SpottedAll(past: seq<Spot>, text: string, spots: seq<Spot>, more: string)
    requires Spotted(past, text, |text|) && Spotted(spots, more, |more|)
    ensures Spotted(past + Shifted(spots, |text|), text + more, |text + more|)
  {
    var all := past + Shifted(spots, |text|);
    assert all[..|past|] == past;
    SpottedBoth(past, text, spots, more, |more|, all, text + more);
  }

  /** A cleaned token and its annotations keep the whole exact. */
  lemma {:induction false} ExactBoth(past: seq<Spot>, text: string, cited: seq<string>, r: Sub, spots: seq<Spot>,
                                     more: seq<string>)
    requires Exact(past, text, cited) && Follows(r, cited, more)
    requires Spotted(spots, r.text, |r.text|) && AreOf(spots, r.cites)
    ensures Exact(past + Shifted(spots, |text|), text + r.text, cited + more)
  {
    SpottedAll(past, text, spots, r.text);
    CitesOfBoth(past, spots, |text|, r.cites);
    UrlsOfBoth(CitesOf(past), r.cites);
    DistinctGrows(cited, more);
    LabelledBoth(CitesOf(past), r.cites, Distinct(cited), Distinct(cited + more));
  }

  lemma CitesOfBoth(past: seq<Spot>, spots: seq<Spot>, offset: nat, cites: seq<Cite>)
    requires AreOf(spots, cites)
    ensures CitesOf(past + Shifted(spots, offset)) == CitesOf(past) + cites
  {
  }

  /** The number an annotation prints is one more than the number of different addresses cited
      before its own first appeared. */
  lemma LabelIsFirstAppearance(spots: seq<Spot>, text: string, cited: seq<string>, j: nat)
    requires Exact(spots, text, cited) && j < |spots|
    ensures Marks(spots[j], text)
    ensures exists i :: 0 <= i < |cited| && cited[i] == spots[j].cite.url && cited[i] !in cited[..i]
                     && spots[j].cite.needle == Needle(|Distinct(cited[..i])| + 1, cited[i])
  {
    var url := spots[j].cite.url;
    assert Labelled(CitesOf(spots)[j].url, CitesOf(spots)[j].needle, Distinct(cited));
    var k :| PlaceIs(Distinct(cited), url, k) && spots[j].cite.needle == Needle(k, url);
    DistinctContents(cited);
    assert Distinct(cited)[k - 1] in Distinct(cited);
    var i := FirstOf(cited, url);
    FirstAppearance(cited, i);
    assert Distinct(cited)[|Distinct(cited[..i])|] == Distinct(cited)[k - 1];
    SpottedAt(spots, text, |text|, j);
  }

  function FirstOf(cited: seq<string>, url: string): (i: nat)
    requires url in cited
    ensures i < |cited| && cited[i] == url && url !in cited[..i]
  {
    if cited[0] == url then 0
    else
      var i := FirstOf(cited[1..], url) + 1;
      assert cited[..i] == [cited[0]] + cited[1..][..i - 1];
      i
  }

  // ---------------------------------------------------------------------------
  // Reading a trace
  // ---------------------------------------------------------------------------

  function TextPart(e: Event): seq<string> { if e.Text? then [e.content] else [] }
  function ThinkingPart(e: Event): seq<string> { if e.Thinking? then [e.content] else [] }
  function SpotPart(e: Event): seq<Spot> { if e.Annotation? then [e.spot] else [] }
  function ImagePart(e: Event): seq<Event> { if e.Image? then [e] else [] }

  function TextOf(events: seq<Event>): seq<string> { Collect(TextPart, events) }
  function ThinkingOf(events: seq<Event>): seq<string> { Collect(ThinkingPart, events) }
  function SpotsOf(events: seq<Event>): seq<Spot> { Collect(SpotPart, events) }
  function ImagesOf(events: seq<Event>): seq<Event> { Collect(ImagePart, events) }

  /** An event in its place: thinking before any text, an annotation on text already sent. */
  ghost predicate InPlace(before: seq<Event>, e: Event) {
    && (e.Thinking? ==> TextOf(before) == [])
    && (e.Annotation? ==> Marks(e.spot, Join(TextOf(before))))
  }

  ghost predicate WellPlaced(events: seq<Event>) {
    events == [] || (WellPlaced(events[..|events| - 1]) && InPlace(events[..|events| - 1], events[|events| - 1]))
  }

  /** No thinking comes after text. */
  lemma {:induction false} ThinkingComesFirst(events: seq<Event>, i: nat, j: nat)
    requires WellPlaced(events) && i < j < |events| && events[i].Text?
    ensures !events[j].Thinking?
  {
    var front := events[..|events| - 1];
    if j < |events| - 1 {
      ThinkingComesFirst(front, i, j);
    } else {
      CollectMember(TextPart, front, i);
    }
  }

  /** Every annotation marks its printed citation in the text sent before it. */
  lemma {:induction false} AnnotationsAreBacked(events: seq<Event>, n: nat)
    requires WellPlaced(events) && n < |events| && events[n].Annotation?
    ensures Marks(events[n].spot, Join(TextOf(events[..n])))
  {
    var front := events[..|events| - 1];
    if n < |events| - 1 {
      assert front[..n] == events[..n];
      AnnotationsAreBacked(front, n);
    }
  }

  lemma PlacedOneMore(events: seq<Event>, e: Event)
    requires WellPlaced(events) && InPlace(events, e)
    ensures WellPlaced(events + [e])
  {
    assert (events + [e])[..|events + [e]| - 1] == events;
  }

  lemma {:induction false} PlacedMore(events: seq<Event>, more: seq<Event>)
    requires WellPlaced(events) && forall n :: 0 <= n < |more| ==> InPlace(events + more[..n], more[n])
    ensures WellPlaced(events + more)
  {
    if more == [] {
      assert events + more == events;
    } else {
      var k := |more| - 1;
      var front := more[..k];
      assert forall n :: 0 <= n < k ==> front[..n] == more[..n];
      PlacedMore(events, front);
      assert events + more == events + front + [more[k]];
      PlacedOneMore(events + front, more[k]);
    }
  }

  /** Images, progress and the end of the stream. */
  ghost predicate Aside(events: seq<Event>) {
    forall i :: 0 <= i < |events| ==> events[i].ImageProgress? || events[i].Image? || events[i].SoftStop?
  }

  function AnnotationEvents(spots: seq<Spot>): (r: seq<Event>)
    ensures |r| == |spots| && forall j :: 0 <= j < |r| ==> r[j] == Annotation(spots[j])
  {
    seq(|spots|, j requires 0 <= j < |spots| => Annotation(spots[j]))
  }

  lemma {:induction false} AnnotationSpots(spots: seq<Spot>)
    ensures SpotsOf(AnnotationEvents(spots)) == spots
  {
    if spots != [] {
      var front, s := spots[..|spots| - 1], spots[|spots| - 1];
      AnnotationSpots(front);
      assert AnnotationEvents(spots) == AnnotationEvents(front) + [Annotation(s)];
      CollectOneMore(SpotPart, AnnotationEvents(front), Annotation(s));
      assert spots == front + [s];
    }
  }

  /** Annotations that follow their text are in place. */
  lemma SpotsPlaced(events: seq<Event>, spots: seq<Spot>)
    requires WellPlaced(events) && forall j :: 0 <= j < |spots| ==> Marks(spots[j], Join(TextOf(events)))
    ensures WellPlaced(events + AnnotationEvents(spots))
  {
    var more := AnnotationEvents(spots);
    forall n | 0 <= n < |more| ensures TextOf(events + more[..n]) == TextOf(events) {
      CollectNothing(TextPart, more[..n]);
      CollectBoth(TextPart, events, more[..n]);
    }
    PlacedMore(events, more);
  }

  // ---------------------------------------------------------------------------
  // Trace and buffers
  // ---------------------------------------------------------------------------

  /** What the adapter has collected. */
  datatype Output = Output(
    texts: seq<string>, textOffset: nat, annotations: seq<Spot>, thinking: seq<string>, images: seq<Event>,
    contentStarted: bool)

  /** The events sent agree with what was collected, except that thinking which comes after the
      text has started is collected but not sent. */
  ghost predicate Agrees(events: seq<Event>, out: Output) {
    && TextOf(events) == out.texts && SpotsOf(events) == out.annotations && ImagesOf(events) == out.images
    && (if out.contentStarted then ThinkingOf(events) <= out.thinking
        else ThinkingOf(events) == out.thinking && out.texts == [])
    && WellPlaced(events)
  }

  lemma AgreesThinking(events: seq<Event>, out: Output, content: string, rollout: string)
    requires Agrees(events, out) && !out.contentStarted
    ensures Agrees(events + [Thinking(content, rollout)], out.(thinking := out.thinking + [content]))
  {
    var e := Thinking(content, rollout);
    CollectOneMore(TextPart, events, e);
    CollectOneMore(ThinkingPart, events, e);
    CollectOneMore(SpotPart, events, e);
    CollectOneMore(ImagePart, events, e);
    PlacedOneMore(events, e);
  }

  lemma AgreesAside(events: seq<Event>, out: Output, more: seq<Event>)
    requires Agrees(events, out) && Aside(more)
    ensures Agrees(events + more, out.(images := out.images + ImagesOf(more)))
  {
    CollectNothing(TextPart, more);
    CollectNothing(ThinkingPart, more);
    CollectNothing(SpotPart, more);
    CollectBoth(TextPart, events, more);
    CollectBoth(ThinkingPart, events, more);
    CollectBoth(SpotPart, events, more);
    CollectBoth(ImagePart, events, more);
    PlacedMore(events, more);
  }

  lemma AgreesText(events: seq<Event>, out: Output, text: string)
    requires Agrees(events, out)
    ensures Agrees(events + [Text(text)], out.(texts := out.texts + [text], contentStarted := true))
  {
    var e := Text(text);
    CollectOneMore(TextPart, events, e);
    CollectOneMore(ThinkingPart, events, e);
    CollectOneMore(SpotPart, events, e);
    CollectOneMore(ImagePart, events, e);
    PlacedOneMore(events, e);
  }

  lemma AgreesSpots(events: seq<Event>, out: Output, more: seq<Spot>)
    requires Agrees(events, out) && forall j :: 0 <= j < |more| ==> Marks(more[j], Join(out.texts))
    ensures Agrees(events + AnnotationEvents(more), out.(annotations := out.annotations + more))
  {
    var added := AnnotationEvents(more);
    AnnotationSpots(more);
    CollectNothing(TextPart, added);
    CollectNothing(ThinkingPart, added);
    CollectNothing(ImagePart, added);
    CollectBoth(TextPart, events, added);
    CollectBoth(ThinkingPart, events, added);
    CollectBoth(SpotPart, events, added);
    CollectBoth(ImagePart, events, added);
    SpotsPlaced(events, more);
  }

  function TextAdded(out: Output, text: string, spots: seq<Spot>): Output {
    var placed := Shifted(spots, out.textOffset);
    if text == "" then out.(contentStarted := true)
    else out.(texts := out.texts + [text], annotations := out.annotations + placed,
      textOffset := out.textOffset + |text|, contentStarted := true)
  }

  function TextEvents(out: Output, text: string, spots: seq<Spot>): seq<Event> {
    if text == "" then [] else [Text(text)] + AnnotationEvents(Shifted(spots, out.textOffset))
  }

  lemma AgreesTextSpots(events: seq<Event>, out: Output, text: string, placed: seq<Spot>)
    requires Agrees(events, out) && forall j :: 0 <= j < |placed| ==> Marks(placed[j], Join(out.texts + [text]))
    ensures Agrees(events + ([Text(text)] + AnnotationEvents(placed)),
                   out.(texts := out.texts + [text], annotations := out.annotations + placed, contentStarted := true))
  {
    AgreesText(events, out, text);
    var events', out' := events + [Text(text)], out.(texts := out.texts + [text], contentStarted := true);
    AgreesSpots(events', out', placed);
    assert events + ([Text(text)] + AnnotationEvents(placed)) == events' + AnnotationEvents(placed);
  }

  lemma MarksPlaced(spots: seq<Spot>, parts: seq<string>, text: string)
    requires Spotted(spots, text, |text|)
    ensures var placed := Shifted(spots, |Join(parts)|);
            forall j :: 0 <= j < |placed| ==> Marks(placed[j], Join(parts + [text]))
  {
    JoinOneMore(parts, text);
    forall j: nat | j < |spots| ensures Marks(Shifted(spots, |Join(parts)|)[j], Join(parts + [text])) {
      SpottedAt(spots, text, |text|, j);
      MarksShifted(spots[j], Join(parts), text);
    }
  }

  /** Text with its annotations. */
  lemma AgreesTextAdded(events: seq<Event>, out: Output, text: string, spots: seq<Spot>)
    requires Agrees(events, out) && out.textOffset == |Join(out.texts)| && Spotted(spots, text, |text|)
    ensures Agrees(events + TextEvents(out, text, spots), TextAdded(out, text, spots))
  {
    if text == "" {
      assert events + [] == events;
    } else {
      MarksPlaced(spots, out.texts, text);
      AgreesTextSpots(events, out, text, Shifted(spots, out.textOffset));
    }
  }

  // ---------------------------------------------------------------------------
  // Thinking lines
  // ---------------------------------------------------------------------------

  function WithNewline(s: string): string { if s != "" && s[|s| - 1] == '\n' then s else s + "\n" }

  function ReasoningKey(rollout: string, line: string): string { rollout + ":" + line }

  /** One name continues the other behind a colon. */
  predicate Extends(a: string, b: string) { a != b && (a + ":" <= b + ":" || b + ":" <= a + ":") }

  lemma SharedKey(a: string, t: string, b: string, u: string)
    requires ReasoningKey(a, t) == ReasoningKey(b, u) && |a| <= |b|
    ensures (a == b && t == u) || (a != b && a + ":" <= b + ":")
  {
    var key := ReasoningKey(a, t);
    assert key[..|a|] == a && key[..|b|] == b && key[|a|] == ':';
    assert b[..|a|] == key[..|b|][..|a|] == a;
    if |a| == |b| {
      assert key[|a| + 1..] == t && key[|b| + 1..] == u;
    } else {
      assert b[|a|] == key[|a|];
      assert (b + ":")[..|a| + 1] == a + ":";
    }
  }

  lemma ExtendedShares(a: string, b: string) returns (t: string)
    requires a != b && a + ":" <= b + ":"
    ensures ReasoningKey(a, t) == ReasoningKey(b, "")
  {
    LongerName(a, b);
    t := b[|a| + 1..] + ":";
    assert b[..|a|] == (b + ":")[..|a| + 1][..|a|] == a && b[|a|] == (b + ":")[..|a| + 1][|a|] == ':';
    assert b == a + ":" + b[|a| + 1..];
  }

  lemma LongerName(a: string, b: string)
    requires a != b && a + ":" <= b + ":"
    ensures |a| < |b|
  {
    assert a == (a + ":")[..|a|] && b == (b + ":")[..|b|];
  }

  /** The key tells the lines of two agents apart, whatever the lines, if and only if neither name
      continues the other behind a colon. */
  lemma KeyIsExact(a: string, b: string)
    ensures (forall t, u :: ReasoningKey(a, t) == ReasoningKey(b, u) ==> a == b && t == u) <==> !Extends(a, b)
  {
    if Extends(a, b) {
      if a + ":" <= b + ":" {
        var t := ExtendedShares(a, b);
        assert ReasoningKey(a, t) == ReasoningKey(b, "");
      } else {
        var t := ExtendedShares(b, a);
        assert ReasoningKey(a, "") == ReasoningKey(b, t);
      }
    } else {
      forall t, u | ReasoningKey(a, t) == ReasoningKey(b, u) ensures a == b && t == u {
        if |a| <= |b| {
          SharedKey(a, t, b, u);
        } else {
          SharedKey(b, u, a, t);
        }
      }
    }
  }

  /** With a colon in a name, one agent's line can silence another's. */
  lemma KeysCanCollide()
    ensures ReasoningKey("a", "b:c") == ReasoningKey("a:b", "c")
  {
    assert ReasoningKey("a", "b:c") == "a:b:c" == ReasoningKey("a:b", "c");
  }

  // ---------------------------------------------------------------------------
  // The adapter
  // ---------------------------------------------------------------------------

  function AddSources(sources: seq<Source>, more: seq<Source>): seq<Source>
    decreases |more|
  {
    if more == [] then sources
    else if more[0].url == "" || more[0].url in UrlsSeen(sources) then AddSources(sources, more[1..])
    else AddSources(sources + [more[0]], more[1..])
  }

  function UrlsSeen(sources: seq<Source>): set<string> { set s | s in sources :: s.url }

  /** What an attachment reports of its image. */
  function ChunkEvents(chunk: Option<Chunk>): seq<Event> {
    match chunk
    case None => []
    case Some(c) =>
      (if c.progress.Some? then [ImageProgress(c.progress.value, c.uuid)] else [])
      + (if c.finished && !c.moderated then [Image(IMAGE_BASE + c.path, c.uuid)] else [])
  }

  function Unbulleted(token: string): string { if "- " <= token then token[2..] else token }

  /** Citations are numbered and placed exactly. */
  ghost predicate CitationsExact(numbering: Numbering, out: Output, cited: seq<string>) {
    numbering == NumberingOf(cited) && Exact(out.annotations, Join(out.texts), cited)
      && out.textOffset == |Join(out.texts)|
  }

  lemma {:induction false} CitationsAdded(numbering: Numbering, out: Output, cited: seq<string>, clean: Sub,
                                          spots: seq<Spot>,
                       more: seq<string>)
    requires CitationsExact(numbering, out, cited) && Follows(clean, cited, more)
    requires Spotted(spots, clean.text, |clean.text|) && AreOf(spots, clean.cites)
    ensures CitationsExact(clean.numbering, TextAdded(out, clean.text, spots), cited + more)
  {
    ExactBoth(out.annotations, Join(out.texts), cited, clean, spots, more);
    if clean.text == "" {
      LabelsNotEmpty(clean.cites, Distinct(cited + more));
      NothingSpotted(spots, clean.cites);
      assert out.annotations + Shifted(spots, out.textOffset) == out.annotations;
      assert Join(out.texts) + clean.text == Join(out.texts);
    } else {
      JoinOneMore(out.texts, clean.text);
    }
  }

  lemma LabelsNotEmpty(cites: seq<Cite>, order: seq<string>)
    requires AllLabelled(cites, order)
    ensures forall j :: 0 <= j < |cites| ==> cites[j].needle != ""
  {
    forall j | 0 <= j < |cites| ensures cites[j].needle != "" {
      assert Labelled(cites[j].url, cites[j].needle, order);
    }
  }

  lemma NothingSpotted(spots: seq<Spot>, cites: seq<Cite>)
    requires AreOf(spots, cites) && Spotted(spots, "", 0) && forall j :: 0 <= j < |cites| ==> cites[j].needle != ""
    ensures spots == []
  {
  }

  datatype FrameKind = Tool | Thought | Answer | Stop | Ignored

  function KindOf(f: Frame): FrameKind {
    if f.NoResponse? then Ignored
    else match f.tag
      case ToolCard => Tool
      case RawResult => Ignored
      case _ =>
        if f.cardOnly then Ignored
        else if f.token.Some? && f.thinking then Thought
        else if f.token.Some? && f.tag.Final? then Answer
        else if f.stop then Stop
        else Ignored
  }

  /** Everything the adapter keeps, over its whole run. */
  ghost predicate Sound(numbering: Numbering, out: Output, emitted: seq<Event>, cited: seq<string>) {
    CitationsExact(numbering, out, cited) && Agrees(emitted, out)
  }

  /** Thinking comes first, and annotations follow their text. */
  lemma SoundIsPlaced(numbering: Numbering, out: Output, emitted: seq<Event>, cited: seq<string>)
    requires Sound(numbering, out, emitted, cited)
    ensures WellPlaced(emitted)
  {
  }

  lemma SoundAside(numbering: Numbering, out: Output, emitted: seq<Event>, cited: seq<string>, more: seq<Event>)
    requires Sound(numbering, out, emitted, cited) && Aside(more)
    ensures Sound(numbering, out.(images := out.images + ImagesOf(more)), emitted + more, cited)
  {
    AgreesAside(emitted, out, more);
  }

  lemma SoundAfterStop(numbering: Numbering, out: Output, emitted: seq<Event>, cited: seq<string>)
    requires Sound(numbering, out, emitted, cited)
    ensures Sound(numbering, out, emitted + [SoftStop], cited)
  {
    CollectOne(ImagePart, SoftStop);
    AgreesAside(emitted, out, [SoftStop]);
    assert out.(images := out.images + []) == out;
  }

  lemma SoundAfterThinking(numbering: Numbering, out: Output, emitted: seq<Event>, cited: seq<string>, content: string,
                           rollout: string)
    requires Sound(numbering, out, emitted, cited) && !out.contentStarted
    ensures Sound(numbering, out.(thinking := out.thinking + [content]), emitted + [Thinking(content, rollout)], cited)
  {
    AgreesThinking(emitted, out, content, rollout);
  }

  lemma {:induction false} SoundAfterText(numbering: Numbering, out: Output, emitted: seq<Event>, cited: seq<string>,
                                          clean: Sub,
                       spots: seq<Spot>, more: seq<string>)
    requires Sound(numbering, out, emitted, cited) && Follows(clean, cited, more)
    requires Spotted(spots, clean.text, |clean.text|) && AreOf(spots, clean.cites)
    ensures Sound(clean.numbering, TextAdded(out, clean.text, spots), emitted + TextEvents(out, clean.text, spots),
            cited + more)
    ensures Join(TextAdded(out, clean.text, spots).texts) == Join(out.texts) + clean.text
  {
    CitationsAdded(numbering, out, cited, clean, spots, more);
    AgreesTextAdded(emitted, out, clean.text, spots);
    JoinOneMore(out.texts, clean.text);
  }

  // ---------------------------------------------------------------------------
  // The adapter as a function
  // ---------------------------------------------------------------------------

  datatype Adapter = Adapter(
    cards: map<string, Card>, sources: seq<Source>, numbering: Numbering, out: Output, lastRollout: string,
    keys: set<string>)

  const FRESH := Adapter(map[], [], Numbering([], map[], 0), Output([], 0, [], [], [], false), "", {})

  /** The adapter after some input, and what it sent. */
  datatype Step = Step(adapter: Adapter, events: seq<Event>)

  function Then(s: Step, t: Step): Step { Step(t.adapter, s.events + t.events) }

  function Thinks(out: Output, content: string): Output { out.(thinking := out.thinking + [content]) }

  /** A piece of thinking is kept and sent. */
  function ThinkStep(a: Adapter, content: string, rollout: string): Step {
    Step(a.(out := Thinks(a.out, content)), [Thinking(content, rollout)])
  }

  /** A line of reasoning, unless it is empty or this agent has said it before. */
  function LineStep(a: Adapter, line: string, rollout: string): Step {
    var key := ReasoningKey(rollout, line);
    if line == "" || key in a.keys then Step(a, [])
    else ThinkStep(a.(keys := a.keys + {key}), WithNewline(line), rollout)
  }

  /** A change of agent is announced, however often the agent has spoken before. */
  function AgentStep(a: Adapter, rollout: string): Step {
    if rollout != "" && rollout != a.lastRollout then
      ThinkStep(a.(lastRollout := rollout), "\n[" + rollout + "]\n", rollout)
    else Step(a, [])
  }

  /** A tool card before the text is formatted into the reasoning; a late one is dropped. */
  function ToolStep(a: Adapter, line: string, rollout: string): Step {
    if a.out.contentStarted || line == "" then Step(a, [])
    else LineStep(if rollout != "" then a.(lastRollout := rollout) else a, line, rollout)
  }

  /** Thinking after the text has started is kept and not sent. */
  function LateStep(a: Adapter, token: string): Step {
    var raw := Strip(token);
    Step(if raw == "" then a else a.(out := Thinks(a.out, WithNewline(raw))), [])
  }

  /** A thinking token; a bullet is taken off. */
  function ThoughtStep(a: Adapter, token: string, rollout: string): Step {
    var raw := Unbulleted(token);
    if a.out.contentStarted then LateStep(a, token)
    else if raw == "" then Step(a, [])
    else
      var header := AgentStep(a, rollout);
      Then(header, LineStep(header.adapter, raw, rollout))
  }

  /** The cleaned token joins the text, and its citations the annotations. */
  function AnswerStep(a: Adapter, token: string): Step {
    var clean := Cleaned(token, a.cards, a.sources, a.numbering);
    var spots := Located(clean.text, clean.cites, 0, 0, []);
    Step(a.(numbering := clean.numbering, out := TextAdded(a.out, clean.text, spots)),
      TextEvents(a.out, clean.text, spots))
  }

  /** A card is cached, and its image reported. */
  function CardStep(a: Adapter, attached: Attachment): Step {
    var events := ChunkEvents(attached.chunk);
    Step(a.(cards := a.cards[attached.id := attached.card], out := a.out.(images := a.out.images + ImagesOf(events))),
      events)
  }

  /** What a frame brings besides its message: an attached card and search results. */
  function TakeInStep(a: Adapter, f: Frame): Step {
    if f.NoResponse? then Step(a, [])
    else
      var s := if f.attachment.Some? then CardStep(a, f.attachment.value) else Step(a, []);
      Step(s.adapter.(sources := AddSources(s.adapter.sources, f.sources)), s.events)
  }

  function MessageStep(a: Adapter, f: Frame): Step {
    match KindOf(f)
    case Tool => ToolStep(a, f.toolLine, f.rollout)
    case Thought => ThoughtStep(a, f.token.value, f.rollout)
    case Answer => AnswerStep(a, f.token.value)
    case Stop => Step(a, [SoftStop])
    case Ignored => Step(a, [])
  }

  /** One frame. */
  function Fed(a: Adapter, f: Frame): Step {
    var s := TakeInStep(a, f);
    Then(s, MessageStep(s.adapter, f))
  }

  /** The addresses a frame cites. */
  function CitedByFrame(a: Adapter, f: Frame): seq<string> {
    if KindOf(f).Answer? then CitedIn(f.token.value, TakeInStep(a, f).adapter.cards) else []
  }

  // ---------------------------------------------------------------------------
  // What every frame keeps
  // ---------------------------------------------------------------------------

  /** The facts about an adapter that has sent these events and seen these citations. */
  ghost predicate Keeps(a: Adapter, emitted: seq<Event>, cited: seq<string>) {
    Sound(a.numbering, a.out, emitted, cited)
  }

  lemma ThinkKeeps(a: Adapter, emitted: seq<Event>, cited: seq<string>, content: string, rollout: string)
    requires Keeps(a, emitted, cited) && !a.out.contentStarted
    ensures var s := ThinkStep(a, content, rollout);
            Keeps(s.adapter, emitted + s.events, cited) && !s.adapter.out.contentStarted
  {
    SoundAfterThinking(a.numbering, a.out, emitted, cited, content, rollout);
  }

  lemma LineKeeps(a: Adapter, emitted: seq<Event>, cited: seq<string>, line: string, rollout: string)
    requires Keeps(a, emitted, cited) && !a.out.contentStarted
    ensures var s := LineStep(a, line, rollout); Keeps(s.adapter, emitted + s.events, cited)
  {
    var key := ReasoningKey(rollout, line);
    if line == "" || key in a.keys {
      assert emitted + [] == emitted;
    } else {
      ThinkKeeps(a.(keys := a.keys + {key}), emitted, cited, WithNewline(line), rollout);
    }
  }

  lemma AgentKeeps(a: Adapter, emitted: seq<Event>, cited: seq<string>, rollout: string)
    requires Keeps(a, emitted, cited) && !a.out.contentStarted
    ensures var s := AgentStep(a, rollout); Keeps(s.adapter, emitted + s.events, cited) && !s.adapter.out.contentStarted
  {
    if rollout != "" && rollout != a.lastRollout {
      ThinkKeeps(a.(lastRollout := rollout), emitted, cited, "\n[" + rollout + "]\n", rollout);
    } else {
      assert emitted + [] == emitted;
    }
  }

  lemma NothingKeeps(a: Adapter, after: Adapter, emitted: seq<Event>, cited: seq<string>)
    requires Keeps(a, emitted, cited) && after.numbering == a.numbering && after.out == a.out
    ensures Keeps(after, emitted + [], cited)
  {
    assert emitted + [] == emitted;
  }

  lemma ToolKeeps(a: Adapter, emitted: seq<Event>, cited: seq<string>, line: string, rollout: string)
    requires Keeps(a, emitted, cited)
    ensures var s := ToolStep(a, line, rollout); Keeps(s.adapter, emitted + s.events, cited)
  {
    if a.out.contentStarted || line == "" {
      NothingKeeps(a, a, emitted, cited);
    } else {
      LineKeeps(if rollout != "" then a.(lastRollout := rollout) else a, emitted, cited, line, rollout);
    }
  }

  lemma LateKeeps(a: Adapter, emitted: seq<Event>, cited: seq<string>, token: string)
    requires Keeps(a, emitted, cited) && a.out.contentStarted
    ensures var s := LateStep(a, token); Keeps(s.adapter, emitted + s.events, cited)
  {
    assert emitted + [] == emitted;
  }

  lemma {:induction false} ThoughtKeeps(a: Adapter, emitted: seq<Event>, cited: seq<string>, token: string,
                                        rollout: string)
    requires Keeps(a, emitted, cited)
    ensures var s := ThoughtStep(a, token, rollout); Keeps(s.adapter, emitted + s.events, cited)
  {
    var raw := Unbulleted(token);
    if a.out.contentStarted {
      LateKeeps(a, emitted, cited, token);
    } else if raw == "" {
      NothingKeeps(a, a, emitted, cited);
    } else {
      var header := AgentStep(a, rollout);
      AgentKeeps(a, emitted, cited, rollout);
      LineKeeps(header.adapter, emitted + header.events, cited, raw, rollout);
      InTwoParts(emitted, header.events, LineStep(header.adapter, raw, rollout).events);
    }
  }

  /** The citations of an answer are numbered, placed and remembered. */
  lemma {:induction false} AnswerKeeps(a: Adapter, emitted: seq<Event>, cited: seq<string>, token: string)
    requires Keeps(a, emitted, cited)
    ensures var s := AnswerStep(a, token); Keeps(s.adapter, emitted + s.events, cited + CitedIn(token, a.cards))
  {
    CleanedFollows(token, a.cards, a.sources, cited);
    var clean := Cleaned(token, a.cards, a.sources, a.numbering);
    LocatedIsExact(clean.text, clean.cites);
    SoundAfterText(a.numbering, a.out, emitted, cited, clean, Located(clean.text, clean.cites, 0, 0, []),
      CitedIn(token, a.cards));
  }

  lemma TakeInKeeps(a: Adapter, emitted: seq<Event>, cited: seq<string>, f: Frame)
    requires Keeps(a, emitted, cited)
    ensures var s := TakeInStep(a, f); Keeps(s.adapter, emitted + s.events, cited)
  {
    if f.Response? && f.attachment.Some? {
      SoundAside(a.numbering, a.out, emitted, cited, ChunkEvents(f.attachment.value.chunk));
    } else {
      assert emitted + [] == emitted;
    }
  }

  lemma MessageKeeps(a: Adapter, emitted: seq<Event>, cited: seq<string>, f: Frame)
    requires Keeps(a, emitted, cited)
    ensures var s := MessageStep(a, f);
            Keeps(s.adapter, emitted + s.events,
                  if KindOf(f).Answer? then cited + CitedIn(f.token.value, a.cards) else cited)
  {
    match KindOf(f)
    case Tool => ToolKeeps(a, emitted, cited, f.toolLine, f.rollout);
    case Thought => ThoughtKeeps(a, emitted, cited, f.token.value, f.rollout);
    case Answer => AnswerKeeps(a, emitted, cited, f.token.value);
    case Stop => SoundAfterStop(a.numbering, a.out, emitted, cited);
    case Ignored => NothingKeeps(a, a, emitted, cited);
  }

  /** One frame keeps thinking before text, annotations on text already sent, and the annotations
      exactly those of the cited addresses without immediate repeats. */
  lemma {:induction false} FedKeeps(a: Adapter, emitted: seq<Event>, cited: seq<string>, f: Frame)
    requires Keeps(a, emitted, cited)
    ensures Keeps(Fed(a, f).adapter, emitted + Fed(a, f).events, cited + CitedByFrame(a, f))
  {
    var s := TakeInStep(a, f);
    TakeInKeeps(a, emitted, cited, f);
    MessageKeeps(s.adapter, emitted + s.events, cited, f);
    InTwoParts(emitted, s.events, MessageStep(s.adapter, f).events);
    assert cited + [] == cited;
  }

  /** The text grows, and is sent, by exactly what an answer token shows; other frames add no text. */
  ghost predicate TextGrows(a: Adapter, cited: seq<string>, f: Frame, after: Adapter, events: seq<Event>) {
    if KindOf(f).Answer? then
      && f.Response? && f.token.Some?
      && exists text ::
        && Sent(f.token.value, after.cards, cited, text) && Join(after.out.texts) == Join(a.out.texts) + text
        && TextOf(events) == if text == "" then [] else [text]
    else after.out.texts == a.out.texts && TextOf(events) == []
  }

  lemma TextOfText(out: Output, text: string, spots: seq<Spot>)
    ensures TextOf(TextEvents(out, text, spots)) == if text == "" then [] else [text]
    ensures Join(TextAdded(out, text, spots).texts) == Join(out.texts) + text
  {
    var placed := AnnotationEvents(Shifted(spots, out.textOffset));
    CollectOne(TextPart, Text(text));
    CollectNothing(TextPart, placed);
    CollectBoth(TextPart, [Text(text)], placed);
    JoinOneMore(out.texts, text);
    assert Join(out.texts) + "" == Join(out.texts);
  }

  lemma {:induction false} AnswerText(a: Adapter, cited: seq<string>, token: string)
    requires a.numbering == NumberingOf(cited)
    ensures exists text :: Sent(token, a.cards, cited, text)
                           && Join(AnswerStep(a, token).adapter.out.texts) == Join(a.out.texts) + text
  {
    var clean := Cleaned(token, a.cards, a.sources, a.numbering);
    CleanedIsSent(token, a.cards, a.sources, cited);
    TextOfText(a.out, clean.text, Located(clean.text, clean.cites, 0, 0, []));
  }

  lemma {:induction false} MessageText(a: Adapter, cited: seq<string>, f: Frame)
    requires a.numbering == NumberingOf(cited)
    ensures TextGrows(a, cited, f, MessageStep(a, f).adapter, MessageStep(a, f).events)
  {
    if KindOf(f).Answer? {
      var clean := Cleaned(f.token.value, a.cards, a.sources, a.numbering);
      CleanedIsSent(f.token.value, a.cards, a.sources, cited);
      TextOfText(a.out, clean.text, Located(clean.text, clean.cites, 0, 0, []));
    } else {
      NoTextIn(a, f);
    }
  }

  lemma {:induction false} NoTextIn(a: Adapter, f: Frame)
    requires !KindOf(f).Answer?
    ensures MessageStep(a, f).adapter.out.texts == a.out.texts && TextOf(MessageStep(a, f).events) == []
  {
    if KindOf(f).Tool? {
      LineTextless(if f.rollout != "" then a.(lastRollout := f.rollout) else a, f.toolLine, f.rollout);
    } else if KindOf(f).Thought? {
      LineTextless(AgentStep(a, f.rollout).adapter, Unbulleted(f.token.value), f.rollout);
    }
    NoThinkingText(MessageStep(a, f).events);
  }

  lemma LineTextless(a: Adapter, line: string, rollout: string)
    ensures var s := LineStep(a, line, rollout);
            s.adapter.out.texts == a.out.texts && forall i :: 0 <= i < |s.events| ==> s.events[i].Thinking?
  {
  }

  lemma NoThinkingText(events: seq<Event>)
    requires forall i :: 0 <= i < |events| ==> !events[i].Text?
    ensures TextOf(events) == []
  {
    CollectNothing(TextPart, events);
  }

  lemma {:induction false} TextOfFed(a: Adapter, cited: seq<string>, f: Frame)
    requires a.numbering == NumberingOf(cited)
    ensures TextGrows(a, cited, f, Fed(a, f).adapter, Fed(a, f).events)
  {
    var s := TakeInStep(a, f);
    var t := MessageStep(s.adapter, f);
    MessageText(s.adapter, cited, f);
    NoThinkingText(s.events);
    CollectBoth(TextPart, s.events, t.events);
    assert [] + TextOf(t.events) == TextOf(t.events);
  }

  lemma FreshKeeps()
    ensures Keeps(FRESH, [], [])
  {
  }

  /** A run of frames. */
  function FedAll(frames: seq<Frame>): Step {
    if frames == [] then Step(FRESH, [])
    else
      var s := FedAll(frames[..|frames| - 1]);
      Then(s, Fed(s.adapter, frames[|frames| - 1]))
  }

  function CitedByFrames(frames: seq<Frame>): seq<string> {
    if frames == [] then []
    else
      var front := frames[..|frames| - 1];
      CitedByFrames(front) + CitedByFrame(FedAll(front).adapter, frames[|frames| - 1])
  }

  /** Every run of frames keeps them. */
  lemma {:induction false} RunKeeps(frames: seq<Frame>)
    ensures Keeps(FedAll(frames).adapter, FedAll(frames).events, CitedByFrames(frames))
  {
    if frames == [] {
      FreshKeeps();
    } else {
      var front := frames[..|frames| - 1];
      RunKeeps(front);
      FedKeeps(FedAll(front).adapter, FedAll(front).events, CitedByFrames(front), frames[|frames| - 1]);
    }
  }

  // ---------------------------------------------------------------------------
  // The adapter itself
  // ---------------------------------------------------------------------------

  class StreamAdapter {
    var cards: map<string, Card>
    var sources: seq<Source>
    var numbering: Numbering
    var out: Output
    var lastRollout: string
    var emittedKeys: set<string>

    ghost var emitted: seq<Event>     // every event so far
    ghost var cited: seq<string>      // every address cited so far

    function Now(): Adapter
      reads this
    {
      Adapter(cards, sources, numbering, out, lastRollout, emittedKeys)
    }

    ghost predicate Valid()
      reads this
    {
      Keeps(Now(), emitted, cited)
    }

    constructor ()
      ensures Valid() && Now() == FRESH && emitted == [] && cited == []
    {
      cards, sources, numbering := map[], [], Numbering([], map[], 0);
      out := Output([], 0, [], [], [], false);
      lastRollout, emittedKeys := "", {};
      emitted, cited := [], [];
    }

    /** Cache the card of an attachment and report its image. */
    method HandleCard(a: Attachment) returns (events: seq<Event>)
      modifies this`cards, this`out
      ensures Step(Now(), events) == CardStep(old(Now()), a)
    {
      cards := cards[a.id := a.card];
      events := [];
      if a.chunk.Some? {
        var c := a.chunk.value;
        if c.progress.Some? {
          events := [ImageProgress(c.progress.value, c.uuid)];
        }
        if c.finished && !c.moderated {
          events := events + [Image(IMAGE_BASE + c.path, c.uuid)];
        }
      }
      out := out.(images := out.images + ImagesOf(events));
    }

    /** Emit a line of reasoning unless this agent has said it before. */
    method AppendReasoning(line: string, rollout: string) returns (events: seq<Event>)
      modifies this`emittedKeys, this`out
      ensures Step(Now(), events) == LineStep(old(Now()), line, rollout)
    {
      if line == "" {
        return [];
      }
      var key := ReasoningKey(rollout, line);
      if key in emittedKeys {
        return [];
      }
      emittedKeys := emittedKeys + {key};
      out := Thinks(out, WithNewline(line));
      events := [Thinking(WithNewline(line), rollout)];
    }

    /** A tool card before the text is formatted into the reasoning; a late one is dropped. */
    method ToolCardFrame(line: string, rollout: string) returns (events: seq<Event>)
      modifies this`lastRollout, this`emittedKeys, this`out
      ensures Step(Now(), events) == ToolStep(old(Now()), line, rollout)
    {
      if out.contentStarted || line == "" {
        return [];
      }
      if rollout != "" {
        lastRollout := rollout;
      }
      events := AppendReasoning(line, rollout);
    }

    /** Thinking after the text has started only reaches the buffer. */
    method LateThinking(token: string)
      modifies this`out
      ensures Step(Now(), []) == LateStep(old(Now()), token)
    {
      var raw := Strip(token);
      if raw != "" {
        out := Thinks(out, WithNewline(raw));
      }
    }

    /** A thinking token: a late one only reaches the buffer, and a change of agent gets a header. */
    method ThinkingFrame(token: string, rollout: string) returns (events: seq<Event>)
      modifies this`lastRollout, this`emittedKeys, this`out
      ensures Step(Now(), events) == ThoughtStep(old(Now()), token, rollout)
    {
      events := [];
      if out.contentStarted {
        LateThinking(token);
        return;
      }
      var raw := Unbulleted(token);
      if raw == "" {
        return;
      }
      if rollout != "" && rollout != lastRollout {
        lastRollout := rollout;
        out := Thinks(out, "\n[" + rollout + "]\n");
        events := [Thinking("\n[" + rollout + "]\n", rollout)];
      }
      var line := AppendReasoning(raw, rollout);
      events := events + line;
    }

    /** Final text: clean it, number and place its citations. */
    method FinalText(token: string) returns (events: seq<Event>)
      modifies this`numbering, this`out
      ensures Step(Now(), events) == AnswerStep(old(Now()), token)
      ensures old(Valid()) ==>
                exists text :: Sent(token, cards, cited, text) && Join(out.texts) == Join(old(out).texts) + text
    {
      if Valid() {
        AnswerText(Now(), cited, token);
      }
      var clean := Cleaned(token, cards, sources, numbering);
      var spots := Locate(clean.text, clean.cites);
      numbering := clean.numbering;
      events := TextEvents(out, clean.text, spots);
      out := TextAdded(out, clean.text, spots);
    }

    method CollectSources(more: seq<Source>)
      modifies this`sources
      ensures sources == AddSources(old(sources), more)
    {
      for k := 0 to |more|
        invariant AddSources(sources, more[k..]) == AddSources(old(sources), more)
      {
        if more[k].url != "" && more[k].url !in UrlsSeen(sources) {
          sources := sources + [more[k]];
        }
      }
    }

    /** What a frame brings besides its message: an attached card and search results. */
    method TakeIn(f: Frame) returns (events: seq<Event>)
      modifies this`cards, this`out, this`sources
      ensures Step(Now(), events) == TakeInStep(old(Now()), f)
    {
      events := [];
      if f.Response? {
        if f.attachment.Some? {
          events := HandleCard(f.attachment.value);
        }
        CollectSources(f.sources);
      }
    }

    method FeedMessage(f: Frame) returns (events: seq<Event>)
      modifies this`lastRollout, this`emittedKeys, this`numbering, this`out
      ensures Step(Now(), events) == MessageStep(old(Now()), f)
      ensures old(Valid()) ==> TextGrows(old(Now()), cited, f, Now(), events)
    {
      if Valid() {
        MessageText(Now(), cited, f);
      }
      events := [];
      if f.NoResponse? {
      } else if f.tag.ToolCard? {
        events := ToolCardFrame(f.toolLine, f.rollout);
      } else if f.tag.RawResult? || f.cardOnly {
      } else if f.token.Some? && f.thinking {
        events := ThinkingFrame(f.token.value, f.rollout);
      } else if f.token.Some? && f.tag.Final? {
        events := FinalText(f.token.value);
      } else if f.stop {
        events := [SoftStop];
      }
    }

    /** One frame: the function of it, and what every frame keeps. */
    method Feed(f: Frame) returns (events: seq<Event>)
      modifies this
      ensures emitted == old(emitted) + events && (old(Valid()) ==> Valid())
      ensures Step(Now(), events) == Fed(old(Now()), f)
      ensures old(Valid()) ==> TextGrows(old(Now()), old(cited), f, Now(), events)
      ensures cited == old(cited) + CitedByFrame(old(Now()), f)
    {
      if Valid() {
        FedKeeps(Now(), emitted, cited, f);
        TextOfFed(Now(), cited, f);
      }
      ghost var more := CitedByFrame(Now(), f);
      var images := TakeIn(f);
      var rest := FeedMessage(f);
      events := images + rest;
      emitted := emitted + events;
      cited := cited + more;
    }
  }
}
