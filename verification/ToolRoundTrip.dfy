// The printer, any chunking, the sieve and the parser together.
module ToolRoundTrip {
  import opened AccountModels
  import opened Sequences
  import opened ToolText
  import opened ToolXml
  import opened ToolSieve

  /** A capturing sieve has buffered a block from its opening tag on. */
  predicate BufferOk(t: Tags, s: State) { s.capturing ==> StartsWithTag(t.open, s.buf) }

  lemma CaptureStarts(t: Tags, buf: string)
    requires StartsWithTag(t.open, buf) && |t.open| <= |t.close|
    ensures var f := Capture(t, buf);
            BufferOk(t, f.state) && (f.block.Some? ==> StartsWithTag(t.open, f.block.value))
  {
  }

  /** Every block handed to the parser starts with the opening tag. */
  lemma FeedStarts(t: Tags, s: State, chunk: string)
    requires t.open != "" && |t.open| <= |t.close| && BufferOk(t, s)
    ensures var f := Feed(t, s, chunk);
            BufferOk(t, f.state) && (f.block.Some? ==> StartsWithTag(t.open, f.block.value))
  {
    var text := s.buf + chunk;
    if s.capturing {
      StartsStable(t.open, s.buf, chunk, 0);
      assert s.buf[0..] == s.buf && text[0..] == text;
      CaptureStarts(t, text);
    } else if Find(t.open, text).Some? {
      FindIsFirst(t.open, text);
      CaptureStarts(t, text[Find(t.open, text).value..]);
    }
  }

  /** Such a block always counts as tool syntax, so the sieve never swallows one silently. */
  lemma BlockIsSyntax<J>(json: Json<J>, block: string, names: seq<string>)
    requires StartsWithTag(ROOT_OPEN, block)
    ensures ParseToolCalls(json, block, names).sawToolSyntax
  {
    assert !IsSpace(block[0]) by {
      assert Lower(block[0]) == ROOT_OPEN[0] == '<';
    }
    NotBlank(block);
    forall i | 0 <= i < |CALL_OPEN| ensures Lower(block[i]) == CALL_OPEN[i] {
      assert Lower(block[i]) == ROOT_OPEN[i] == CALL_OPEN[i];
    }
  }

  /** What a finished stream has delivered, in terms of its whole text: the text before the first
      tag and the calls of the block, which flush ends with the text if it is not closed; without a
      tag, all but the held end, which flush parses. */
  ghost predicate Delivered<J>(t: Tags, json: Json<J>, names: seq<string>, whole: string, text: string,
                               calls: Option<seq<ToolCall>>)
    requires t.open != ""
  {
    match Find(t.open, whole)
    case None => DeliveredText(json, names, whole, Held(t.open, whole), text, calls)
    case Some(p) => DeliveredBlock(json, names, whole, p, BlockEnd(t.close, whole, p), text, calls)
  }

  /** Without a block: all but the held end, which is parsed. */
  ghost predicate DeliveredText<J>(json: Json<J>, names: seq<string>, whole: string, held: nat, text: string,
                                   calls: Option<seq<ToolCall>>)
    requires held <= |whole|
  {
    && text == whole[..|whole| - held]
    && if held == 0 then calls == None else Found(json, names, whole[|whole| - held..], calls)
  }

  /** Where the block from p on ends: behind its closing tag, or with the text. */
  function BlockEnd(close: string, whole: string, p: nat): (end: nat)
    requires p <= |whole|
    ensures end <= |whole|
  {
    match Cut(close, whole[p..]) case None => |whole| case Some(c) => |whole| - |c.after|
  }

  ghost predicate DeliveredBlock<J>(json: Json<J>, names: seq<string>, whole: string, p: nat, end: nat, text: string,
                                    calls: Option<seq<ToolCall>>)
    requires p <= |whole| && end <= |whole|
  {
    p <= end && text == whole[..p] && Found(json, names, whole[p..end], calls)
  }

  lemma {:induction false} BlockEnds(t: Tags, whole: string, p: nat, f: Fed)
    requires p < |whole| && BlockFrom(t, whole, p, f)
    ensures var end := BlockEnd(t.close, whole, p);
            && p < end && f.safe == whole[..p]
            && (f.block == Some(whole[p..end]) || f == Fed(State(whole[p..end], true, false), whole[..p], None))
  {
  }

  /** A stream that ends in or behind a block delivers the calls of the block. */
  lemma {:induction false} BlockDelivers<J>(json: Json<J>, names: seq<string>, whole: string, p: nat, end: nat, f: Fed,
                                            calls: Option<seq<ToolCall>>)
    requires p < end <= |whole| && Finished(json, names, f, calls) && f.safe == whole[..p]
    requires f.block == Some(whole[p..end]) || f == Fed(State(whole[p..end], true, false), whole[..p], None)
    ensures DeliveredBlock(json, names, whole, p, end, f.safe, calls)
  {
    assert whole[p..end] != "";
  }

  lemma {:induction false} HoldDelivers<J>(json: Json<J>, names: seq<string>, whole: string, held: nat, f: Fed,
                                           calls: Option<seq<ToolCall>>)
    requires held <= |whole| && f == Hold(whole, held) && Finished(json, names, f, calls)
    ensures DeliveredText(json, names, whole, held, f.safe, calls)
  {
  }

  lemma {:induction false} ScanDelivers<J>(t: Tags, json: Json<J>, names: seq<string>, whole: string, f: Fed,
                                           calls: Option<seq<ToolCall>>)
    requires t.Valid() && f == Scan(t, whole) && Finished(json, names, f, calls)
    ensures Delivered(t, json, names, whole, f.safe, calls)
  {
    var p := Find(t.open, whole);
    if p.Some? {
      ScanCatchesBlock(t, whole, p.value);
      BlockEnds(t, whole, p.value, f);
      BlockDelivers(json, names, whole, p.value, BlockEnd(t.close, whole, p.value), f, calls);
    } else {
      ScanMissed(t, whole, Held(t.open, whole));
      HoldDelivers(json, names, whole, Held(t.open, whole), f, calls);
    }
  }

  /** The streaming loop of the callers: feed chunk after chunk until calls come back, and flush if
      none did. However the text is cut, printed calls come out as they went in, behind exactly the
      text before them; of a block that never ends the other parsers' calls come out. */
  method Stream<J>(sieve: Sieve<J>, chunks: seq<string>) returns (text: string, calls: Option<seq<ToolCall>>)
    requires sieve.tags == TOOL_TAGS && BufferOk(TOOL_TAGS, sieve.Now())
    modifies sieve
    ensures var f := old(Run(TOOL_TAGS, sieve.Now(), chunks));
            text == f.safe && Finished(sieve.json, sieve.toolNames, f, calls)
    ensures old(sieve.Now()) == START && ExactHead(ROOT_OPEN, Join(chunks)) ==>
              Delivered(TOOL_TAGS, sieve.json, sieve.toolNames, Join(chunks), text, calls)
    ensures old(sieve.Now()) == START ==> forall pre, printed ::
              Prints(sieve.json, sieve.toolNames, pre, printed, Join(chunks)) ==> text == pre && calls == Some(printed)
    ensures old(sieve.Now()) == START ==> forall pre, block ::
              Unclosed(pre, block, Join(chunks)) ==>
                text == pre && calls.Some?
                && OnlyKnown(sieve.json.fallback(block), sieve.toolNames, calls.value)
  {
    ghost var s := sieve.Now();
    text, calls := FeedAll(sieve, chunks);
    if calls.None? {
      calls := sieve.Flush();
    }
    StreamDelivers(sieve.json, sieve.toolNames, s, chunks, text, calls);
  }

  lemma {:induction false} StreamDelivers<J>(json: Json<J>, names: seq<string>, s: State, chunks: seq<string>,
                                             text: string, calls: Option<seq<ToolCall>>)
    requires text == Run(TOOL_TAGS, s, chunks).safe && Finished(json, names, Run(TOOL_TAGS, s, chunks), calls)
    ensures s == START && ExactHead(ROOT_OPEN, Join(chunks)) ==>
              Delivered(TOOL_TAGS, json, names, Join(chunks), text, calls)
    ensures s == START ==> forall pre, printed ::
              Prints(json, names, pre, printed, Join(chunks)) ==> text == pre && calls == Some(printed)
    ensures s == START ==> forall pre, block ::
              Unclosed(pre, block, Join(chunks)) ==>
                text == pre && calls.Some? && OnlyKnown(json.fallback(block), names, calls.value)
  {
    if s == START {
      if ExactHead(ROOT_OPEN, Join(chunks)) {
        TagsAreTags();
        RunIsScan(TOOL_TAGS, chunks, Join(chunks));
        ScanDelivers(TOOL_TAGS, json, names, Join(chunks), Run(TOOL_TAGS, s, chunks), calls);
      }
      forall pre, printed | Prints(json, names, pre, printed, Join(chunks))
        ensures text == pre && calls == Some(printed)
      {
        PrintedCallsSurvive(json, names, pre, printed, chunks);
      }
      forall pre, block | Unclosed(pre, block, Join(chunks))
        ensures text == pre && calls.Some? && OnlyKnown(json.fallback(block), names, calls.value)
      {
        UnclosedFallsBack(json, names, pre, block, chunks, text, calls);
      }
    }
  }

  /** Text free of the opening tag, followed by printed calls of known names. */
  ghost predicate Prints<J>(json: Json<J>, names: seq<string>, pre: string, calls: seq<ToolCall>, whole: string) {
    && Find(ROOT_OPEN, pre).None? && AllPrintable(json, calls)
    && (names == [] || forall c :: c in calls ==> c.name in names)
    && (calls == [] ==> json.fallback(XmlOf(json, calls)) == [])
    && whole == pre + XmlOf(json, calls)
  }

  /** Text free of the opening tag, followed by a block that starts with it and does not end. */
  ghost predicate Unclosed(pre: string, block: string, whole: string) {
    && Find(ROOT_OPEN, pre).None? && ROOT_OPEN <= block && Cut(ROOT_CLOSE, block).None? && whole == pre + block
  }

  /** A block found on the way always yields calls, so no flush follows it. */
  method FeedAll<J>(sieve: Sieve<J>, chunks: seq<string>) returns (text: string, calls: Option<seq<ToolCall>>)
    requires sieve.tags == TOOL_TAGS && BufferOk(TOOL_TAGS, sieve.Now())
    modifies sieve
    ensures var f := old(Run(TOOL_TAGS, sieve.Now(), chunks));
            sieve.Now() == f.state && text == f.safe && Handed(sieve.json, sieve.toolNames, f, calls)
              && (f.block.Some? ==> calls.Some?)
  {
    ghost var t := TOOL_TAGS;
    ghost var goal := Run(t, sieve.Now(), chunks);
    text, calls := "", None;
    ghost var s := sieve.Now();
    AddNothing(goal);
    assert chunks[0..] == chunks;
    for i := 0 to |chunks|
      invariant s == sieve.Now() && calls == None && BufferOk(t, s)
      invariant AddSafe(text, Run(t, s, chunks[i..])) == goal
    {
      RunStep(t, text, s, chunks[i..]);
      assert chunks[i..][0] == chunks[i] && chunks[i..][1..] == chunks[i + 1..];
      FeedStarts(t, s, chunks[i]);
      var safe, found := sieve.FeedChunk(chunks[i]);
      text := text + safe;
      if Feed(t, s, chunks[i]).block.Some? {
        BlockIsSyntax(sieve.json, Feed(t, s, chunks[i]).block.value, sieve.toolNames);
      }
      s := sieve.Now();
      if found.Some? {
        return text, found;
      }
    }
    assert chunks[|chunks|..] == [];
    assert text + "" == text;
  }

  lemma {:induction false} RunStep(t: Tags, text: string, s: State, chunks: seq<string>)
    requires t.open != "" && chunks != []
    ensures var f := Feed(t, s, chunks[0]);
            AddSafe(text, Run(t, s, chunks)) ==
              if f.block.Some? then AddSafe(text, f) else AddSafe(text + f.safe, Run(t, f.state, chunks[1..]))
  {
    var f := Feed(t, s, chunks[0]);
    if f.block.None? {
      AddSafeTwice(text, f.safe, Run(t, f.state, chunks[1..]));
    }
  }

  /** Text without the tag, then the tag: the tag is found where it was put. */
  lemma {:induction false} TagAfterText(tag: string, pre: string, block: string)
    requires IsTag(tag) && Find(tag, pre).None? && StartsWithTag(tag, block) && block[0] == '<'
    ensures Find(tag, pre + block) == Some(|pre|)
  {
    var text := pre + block;
    assert text[|pre|..] == block;
    forall q | 0 <= q < |pre| ensures !StartsWithTag(tag, text[q..]) {
      NoTagBefore(tag, pre, block, q);
    }
    FindUnique(tag, text, |pre|);
  }

  lemma PrintedTag(tag: string, block: string)
    requires IsTag(tag) && |tag| <= |block| && block[..|tag|] == tag
    ensures StartsWithTag(tag, block) && block[0] == '<'
  {
    forall i | 0 <= i < |tag| ensures Lower(block[i]) == tag[i] {
      assert block[i] == block[..|tag|][i];
    }
  }

  lemma HeadSlice(tag: string, pre: string, block: string, n: nat)
    requires n <= |tag| <= |block| && block[..|tag|] == tag
    ensures (pre + block)[|pre|..|pre| + n] == tag[..n]
  {
    SliceOfSecond(pre, block, n);
    SliceTwice(block, |tag|, n);
  }

  lemma HeadIsExact(tag: string, text: string, p: nat)
    requires tag != "" && Find(tag, text) == Some(p) && text[p..p + (|tag| - 1)] == tag[..|tag| - 1]
    ensures ExactHead(tag, text)
  {
  }

  lemma SliceOfSecond(a: string, b: string, n: nat)
    requires n <= |b|
    ensures (a + b)[|a|..|a| + n] == b[..n]
  {
  }

  lemma SliceTwice(b: string, m: nat, n: nat)
    requires n <= m <= |b|
    ensures b[..m][..n] == b[..n]
  {
  }

  lemma {:induction false} NoTagBefore(tag: string, pre: string, block: string, q: nat)
    requires IsTag(tag) && Find(tag, pre).None? && q < |pre| && block != "" && block[0] == '<'
    ensures !StartsWithTag(tag, (pre + block)[q..])
  {
    var text := pre + block;
    FindIsFirst(tag, pre);
    StartsStable(tag, pre, block, q);
    if q + |tag| > |pre| {
      assert text[q..][|pre| - q] == '<' && tag[|pre| - q] != '<';
    }
  }

  lemma {:induction false} ScanOfBlock(t: Tags, pre: string, block: string)
    requires t.open != "" && Find(t.open, pre + block) == Some(|pre|)
    requires Cut(t.close, block).Some? && Cut(t.close, block).value.after == ""
    ensures Scan(t, pre + block) == Fed(State("", false, true), pre, Some(block))
  {
    assert (pre + block)[|pre|..] == block && (pre + block)[..|pre|] == pre;
    WholeBlock(t, block);
  }

  lemma WholeBlock(t: Tags, block: string)
    requires Cut(t.close, block).Some? && Cut(t.close, block).value.after == ""
    ensures Capture(t, block) == Fed(State("", false, true), "", Some(block))
  {
    assert block[..|block|] == block;
  }

  /** The tag at the head of a block is where the search of the whole finds it, and its head is exact. */
  lemma {:induction false} BlockIsFound(pre: string, block: string)
    requires Find(ROOT_OPEN, pre).None? && ROOT_OPEN <= block
    ensures Find(ROOT_OPEN, pre + block) == Some(|pre|) && ExactHead(ROOT_OPEN, pre + block)
  {
    TagsAreTags();
    PrintedTag(ROOT_OPEN, block);
    TagAfterText(ROOT_OPEN, pre, block);
    HeadSlice(ROOT_OPEN, pre, block, |ROOT_OPEN| - 1);
    HeadIsExact(ROOT_OPEN, pre + block, |pre|);
  }

  /** Any text free of the opening tag, followed by printed calls, in any chunking: the sieve
      passes on exactly the text and the parser gives exactly the calls, in order. */
  lemma {:induction false} PrintedCallsSurvive<J>(json: Json<J>, names: seq<string>, pre: string, calls: seq<ToolCall>,
                               chunks: seq<string>)
    requires Prints(json, names, pre, calls, Join(chunks))
    ensures Run(TOOL_TAGS, START, chunks) == Fed(State("", false, true), pre, Some(XmlOf(json, calls)))
    ensures ParseToolCalls(json, XmlOf(json, calls), names) == ParseResult(calls, true)
  {
    var xml := XmlOf(json, calls);
    assert TOOL_TAGS.Valid() by { TagsAreTags(); }
    assert ROOT_OPEN <= xml by { PrintedStart(json, calls); }
    PrintedBlockEnds(json, calls);
    BlockIsFound(pre, xml);
    ScanOfBlock(TOOL_TAGS, pre, xml);
    RunIsScan(TOOL_TAGS, chunks, pre + xml);
    ParseOfPrint(json, calls, names);
  }

  /** A block that never ends is parsed by flush. It has no root element, so the other parsers decide. */
  lemma {:induction false} UnclosedFallsBack<J>(json: Json<J>, names: seq<string>, pre: string, block: string,
                                                chunks: seq<string>, text: string, calls: Option<seq<ToolCall>>)
    requires Unclosed(pre, block, Join(chunks))
    requires text == Run(TOOL_TAGS, START, chunks).safe && Finished(json, names, Run(TOOL_TAGS, START, chunks), calls)
    ensures text == pre && calls.Some? && OnlyKnown(json.fallback(block), names, calls.value)
  {
    TagsAreTags();
    BlockIsFound(pre, block);
    RunIsScan(TOOL_TAGS, chunks, pre + block);
    ScanCatchesBlock(TOOL_TAGS, pre + block, |pre|);
    assert (pre + block)[|pre|..] == block && (pre + block)[..|pre|] == pre;
    PrintedTag(ROOT_OPEN, block);
    BlockIsSyntax(json, block, names);
    NoRootElement(json, block);
    ParseReports(json, block, names);
  }

  lemma {:induction false} NoRootElement<J>(json: Json<J>, block: string)
    requires Cut(ROOT_CLOSE, block).None?
    ensures XmlCalls(json, block) == []
  {
    BlockNeedsClose(ROOT_OPEN, ROOT_CLOSE, block);
  }
}
