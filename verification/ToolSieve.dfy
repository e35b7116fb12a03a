// The streaming sieve: forwards text, holds back what may be the start of a tool-call block,
// buffers the block once it starts, and parses it once it ends.
module ToolSieve {
  import opened AccountModels
  import opened Sequences
  import opened ToolText
  import opened ToolXml

  /** The two tags the sieve looks for. */
  datatype Tags = Tags(open: string, close: string)
  {
    predicate Valid() { IsTag(open) && IsTag(close) }
  }

  const TOOL_TAGS := Tags(ROOT_OPEN, ROOT_CLOSE)

  // ---------------------------------------------------------------------------
  // Holding back
  // ---------------------------------------------------------------------------

  predicate EndsWith(s: string, suffix: string) { |suffix| <= |s| && s[|s| - |suffix|..] == suffix }

  /** How much of the end of a text is a proper prefix of the tag, case and all: the longest such. */
  function HeldLength(s: string, tag: string, most: nat): (n: nat)
    requires most <= |tag| && most <= |s|
    ensures n <= most
  {
    if most == 0 || EndsWith(s, tag[..most]) then most else HeldLength(s, tag, most - 1)
  }

  lemma {:induction false} HeldLengthIsLongest(s: string, tag: string, most: nat)
    requires most <= |tag| && most <= |s|
    ensures EndsWith(s, tag[..HeldLength(s, tag, most)])
    ensures forall i :: HeldLength(s, tag, most) < i <= most ==> !EndsWith(s, tag[..i])
  {
    if most != 0 && !EndsWith(s, tag[..most]) {
      HeldLengthIsLongest(s, tag, most - 1);
    }
  }

  function Held(tag: string, s: string): (n: nat)
    requires tag != ""
    ensures n <= |s| && n < |tag|
  {
    HeldLength(s, tag, Min(|tag| - 1, |s|))
  }

  method SplitAtBoundary(text: string, prefix: string) returns (safe: string, leftover: string)
    requires prefix != ""
    ensures text == safe + leftover && |leftover| == Held(prefix, text)
  {
    var i := Min(|prefix| - 1, |text|);
    while i > 0
      invariant 0 <= i <= Min(|prefix| - 1, |text|)
      invariant HeldLength(text, prefix, i) == Held(prefix, text)
    {
      if EndsWith(text, prefix[..i]) {
        return text[..|text| - i], text[|text| - i..];
      }
      i := i - 1;
    }
    return text, "";
  }

  // ---------------------------------------------------------------------------
  // One chunk
  // ---------------------------------------------------------------------------

  datatype State = State(buf: string, capturing: bool, done: bool)

  const START := State("", false, false)

  /** What a feed does: the new state, the text passed on, and the block handed to the parser. */
  datatype Fed = Fed(state: State, safe: string, block: Option<string>)

  function Capture(t: Tags, buf: string): Fed {
    var c := Cut(t.close, buf);
    if c.None? then Fed(State(buf, true, false), "", None)
    else Fed(State("", false, true), "", Some(buf[..|buf| - |c.value.after|]))
  }

  /** No opening tag: pass on all but the held end, which stays buffered. */
  function Hold(text: string, n: nat): Fed
    requires n <= |text|
  {
    Fed(State(text[|text| - n..], false, false), text[..|text| - n], None)
  }

  /** An opening tag at p: pass on what is before it and capture the rest. */
  function Caught(t: Tags, text: string, p: nat): Fed
    requires p <= |text|
  {
    Capture(t, text[p..]).(safe := text[..p])
  }

  function Scan(t: Tags, text: string): Fed
    requires t.open != ""
  {
    var p := Find(t.open, text);
    if p.None? then Hold(text, Held(t.open, text))
    else Caught(t, text, p.value)
  }

  function Feed(t: Tags, s: State, chunk: string): Fed
    requires t.open != ""
  {
    if s.done || chunk == "" then Fed(s, if s.capturing then "" else chunk, None)
    else if s.capturing then Capture(t, s.buf + chunk)
    else Scan(t, s.buf + chunk)
  }

  function AddSafe(safe: string, f: Fed): Fed { f.(safe := safe + f.safe) }

  /** Feeding chunk by chunk, as callers do: until a block is returned. */
  function Run(t: Tags, s: State, chunks: seq<string>): Fed
    requires t.open != ""
    decreases |chunks|
  {
    if chunks == [] then Fed(s, "", None)
    else
      var f := Feed(t, s, chunks[0]);
      if f.block.Some? then f else AddSafe(f.safe, Run(t, f.state, chunks[1..]))
  }

  // ---------------------------------------------------------------------------
  // Searching the held text and a chunk is searching the whole text
  // ---------------------------------------------------------------------------

  /** The first opening tag, if any, begins in lower case up to its last letter. */
  predicate ExactHead(tag: string, text: string)
    requires tag != ""
  {
    var p := Find(tag, text);
    p.Some? ==> text[p.value..p.value + |tag| - 1] == tag[..|tag| - 1]
  }

  lemma ExactHeadOfPrefix(tag: string, s: string, more: string)
    requires tag != "" && ExactHead(tag, s + more)
    ensures ExactHead(tag, s)
  {
    if Find(tag, s).Some? {
      FindStable(tag, s, more);
      var p := Find(tag, s).value;
      assert (s + more)[p..p + |tag| - 1] == s[p..p + |tag| - 1];
    }
  }

  lemma HeldIsLongest(tag: string, s: string, i: nat)
    requires i < |tag| && i <= |s| && EndsWith(s, tag[..i])
    ensures i <= Held(tag, s)
  {
    HeldLengthIsLongest(s, tag, Min(|tag| - 1, |s|));
  }

  lemma HeldIsEnd(tag: string, s: string)
    requires tag != ""
    ensures EndsWith(s, tag[..Held(tag, s)])
  {
    HeldLengthIsLongest(s, tag, Min(|tag| - 1, |s|));
  }

  lemma EndOfPrefix(s: string, more: string, tag: string)
    requires EndsWith(s + more, tag) && |more| <= |tag|
    ensures EndsWith(s, tag[..|tag| - |more|])
  {
    var t, n := s + more, |tag| - |more|;
    assert n <= |s|;
    forall i | 0 <= i < n ensures s[|s| - n..][i] == tag[..n][i] {
      assert t[|t| - |tag|..][i] == tag[i];
    }
    assert s[|s| - n..] == tag[..n];
  }

  /** An opening tag that a chunk completes starts in the held-back text. */
  lemma TagStartsInHeld(tag: string, seen: string, chunk: string)
    requires tag != "" && ExactHead(tag, seen + chunk) && Find(tag, seen).None?
    requires Find(tag, seen + chunk).Some?
    ensures Find(tag, seen + chunk).value >= |seen| - Held(tag, seen)
  {
    var text := seen + chunk;
    var p := Find(tag, text).value;
    if p < |seen| - Held(tag, seen) {
      FindIsFirst(tag, text);
      FindIsFirst(tag, seen);
      StartsStable(tag, seen, chunk, p);
      var n := |seen| - p;
      assert n < |tag|;
      forall i | 0 <= i < n ensures seen[p..][i] == tag[..n][i] {
        assert text[p..p + |tag| - 1][i] == tag[..|tag| - 1][i];
        assert seen[p + i] == text[p + i];
      }
      assert seen[|seen| - n..] == tag[..n];
      HeldIsLongest(tag, seen, n);
    }
  }

  /** Dropping a prefix in which no match starts. */
  lemma {:induction false} FoundInTail(tag: string, text: string, cut: nat, buf: string, p: nat)
    requires cut <= p <= |text| && Find(tag, text) == Some(p) && buf == text[cut..]
    ensures Find(tag, buf) == Some(p - cut)
    decreases cut
  {
    if cut == 0 {
      assert buf == text;
    } else {
      assert buf == text[1..][cut - 1..];
      FoundInTail(tag, text[1..], cut - 1, buf, p - 1);
    }
  }

  lemma {:induction false} NotFoundInTail(tag: string, text: string, cut: nat)
    requires cut <= |text| && Find(tag, text).None?
    ensures Find(tag, text[cut..]).None?
    decreases cut
  {
    if cut == 0 {
      assert text[cut..] == text;
    } else {
      assert text[cut..] == text[1..][cut - 1..];
      NotFoundInTail(tag, text[1..], cut - 1);
    }
  }

  lemma {:induction false} HeldInTail(tag: string, text: string, cut: nat)
    requires tag != "" && cut <= |text| - Held(tag, text)
    ensures Held(tag, text[cut..]) == Held(tag, text)
  {
    var tail, n := text[cut..], Held(tag, text);
    var k := Held(tag, tail);
    assert n <= k by {
      HeldIsEnd(tag, text);
      EndOfTail(text, cut, tag[..n]);
      HeldIsLongest(tag, tail, n);
    }
    assert k <= n by {
      HeldIsEnd(tag, tail);
      EndOfTail(text, cut, tag[..k]);
      HeldIsLongest(tag, text, k);
    }
  }

  lemma EndOfTail(text: string, cut: nat, suffix: string)
    requires cut <= |text| && |suffix| <= |text| - cut
    ensures EndsWith(text[cut..], suffix) <==> EndsWith(text, suffix)
  {
    var tail := text[cut..];
    assert tail[|tail| - |suffix|..] == text[|text| - |suffix|..];
  }

  /** What is held back of a longer text lies behind what was let go before. */
  lemma HeldMovesOn(tag: string, seen: string, chunk: string)
    requires tag != ""
    ensures |seen| - Held(tag, seen) <= |seen + chunk| - Held(tag, seen + chunk)
  {
    var n := Held(tag, seen + chunk);
    HeldIsEnd(tag, seen + chunk);
    if n > |chunk| {
      EndOfPrefix(seen, chunk, tag[..n]);
      assert tag[..n][..n - |chunk|] == tag[..n - |chunk|];
      HeldIsLongest(tag, seen, n - |chunk|);
    }
  }

  // ---------------------------------------------------------------------------
  // Feeding one more chunk
  // ---------------------------------------------------------------------------

  lemma {:induction false} ScanFound(t: Tags, text: string, p: nat)
    requires t.open != "" && Find(t.open, text) == Some(p)
    ensures Scan(t, text) == Caught(t, text, p)
  {
  }

  lemma {:induction false} ScanFinds(t: Tags, text: string, cut: nat, buf: string, p: nat)
    requires t.open != "" && cut <= p <= |text| && buf == text[cut..]
    requires Scan(t, text) == Caught(t, text, p) && Scan(t, buf) == Caught(t, buf, p - cut)
    ensures AddSafe(text[..cut], Scan(t, buf)) == Scan(t, text)
  {
    CaughtTail(t, text, cut, buf, p);
  }

  lemma {:induction false} CaughtTail(t: Tags, text: string, cut: nat, buf: string, p: nat)
    requires cut <= p <= |text| && buf == text[cut..]
    ensures AddSafe(text[..cut], Caught(t, buf, p - cut)) == Caught(t, text, p)
  {
    assert buf[p - cut..] == text[p..];
    assert text[..cut] + buf[..p - cut] == text[..p];
  }

  lemma {:induction false} ScanMisses(t: Tags, text: string, cut: nat, buf: string)
    requires t.open != "" && Find(t.open, text).None? && cut <= |text| - Held(t.open, text) && buf == text[cut..]
    ensures AddSafe(text[..cut], Scan(t, buf)) == Scan(t, text)
  {
    var n := Held(t.open, text);
    NotFoundInTail(t.open, text, cut);
    HeldInTail(t.open, text, cut);
    ScanMissed(t, buf, n);
    ScanMissed(t, text, n);
    HoldTail(text, cut, n);
  }

  lemma HoldTail(text: string, cut: nat, n: nat)
    requires cut + n <= |text|
    ensures AddSafe(text[..cut], Hold(text[cut..], n)) == Hold(text, n)
  {
    var buf := text[cut..];
    assert buf[|buf| - n..] == text[|text| - n..];
    assert text[..cut] + buf[..|buf| - n] == text[..|text| - n];
  }

  lemma {:induction false} ScanTail(t: Tags, text: string, cut: nat, buf: string)
    requires t.open != "" && cut <= |text| && buf == text[cut..]
    requires if Find(t.open, text).Some? then cut <= Find(t.open, text).value else cut <= |text| - Held(t.open, text)
    ensures AddSafe(text[..cut], Scan(t, buf)) == Scan(t, text)
  {
    if Find(t.open, text).Some? {
      var p := Find(t.open, text).value;
      assert Scan(t, text) == Caught(t, text, p) by {
        ScanFound(t, text, p);
      }
      assert Scan(t, buf) == Caught(t, buf, p - cut) by {
        FoundInTail(t.open, text, cut, buf, p);
        ScanFound(t, buf, p - cut);
      }
      ScanFinds(t, text, cut, buf, p);
    } else {
      ScanMisses(t, text, cut, buf);
    }
  }

  /** Nothing that was let go decides about the longer text. */
  lemma CutIsEarly(tag: string, seen: string, chunk: string)
    requires tag != "" && ExactHead(tag, seen + chunk) && Find(tag, seen).None?
    ensures var cut, text := |seen| - Held(tag, seen), seen + chunk;
            if Find(tag, text).Some? then cut <= Find(tag, text).value else cut <= |text| - Held(tag, text)
  {
    if Find(tag, seen + chunk).Some? {
      TagStartsInHeld(tag, seen, chunk);
    } else {
      HeldMovesOn(tag, seen, chunk);
    }
  }

  lemma HoldParts(seen: string, n: nat, chunk: string)
    requires n <= |seen|
    ensures Hold(seen, n).safe == (seen + chunk)[..|seen| - n]
    ensures Hold(seen, n).state.buf + chunk == (seen + chunk)[|seen| - n..]
  {
  }

  /** From a scanning state: the held text and the chunk decide as the whole text does. */
  lemma {:induction false} ScanExtends(t: Tags, seen: string, chunk: string, cut: nat, h: Fed, text: string)
    requires t.open != "" && cut <= |seen| && h == Hold(seen, |seen| - cut) && text == seen + chunk
    requires if Find(t.open, text).Some? then cut <= Find(t.open, text).value else cut <= |text| - Held(t.open, text)
    ensures AddSafe(h.safe, Scan(t, h.state.buf + chunk)) == Scan(t, text)
  {
    HoldParts(seen, |seen| - cut, chunk);
    ScanTail(t, text, cut, h.state.buf + chunk);
  }

  /** From a capturing state: the buffer grows by the chunk. */
  lemma {:induction false} CaptureExtends(t: Tags, seen: string, chunk: string)
    requires t.open != "" && Find(t.open, seen).Some?
    ensures Scan(t, seen + chunk) == Capture(t, seen[Find(t.open, seen).value..] + chunk).(safe := Scan(t, seen).safe)
  {
    FindStable(t.open, seen, chunk);
    var p := Find(t.open, seen).value;
    assert (seen + chunk)[p..] == seen[p..] + chunk && (seen + chunk)[..p] == seen[..p];
  }

  /** Feeding one more chunk to the state a text leads to leads to the state of the longer text. */
  lemma {:induction false} FeedExtends(t: Tags, seen: string, s: State, safe: string, chunk: string)
    requires t.open != "" && ExactHead(t.open, seen + chunk) && Scan(t, seen) == Fed(s, safe, None)
    ensures AddSafe(safe, Feed(t, s, chunk)) == Scan(t, seen + chunk)
  {
    assert safe + "" == safe;
    if chunk == "" {
      assert seen + chunk == seen;
    } else if Find(t.open, seen).Some? {
      CaptureExtends(t, seen, chunk);
    } else {
      var n := Held(t.open, seen);
      CutIsEarly(t.open, seen, chunk);
      ScanMissed(t, seen, n);
      ScanExtends(t, seen, chunk, |seen| - n, Hold(seen, n), seen + chunk);
    }
  }

  /** Once a block is complete more text does not change it. */
  lemma BlockIsFinal(t: Tags, seen: string, more: string)
    requires t.Valid() && Scan(t, seen).block.Some?
    ensures Scan(t, seen + more) == Scan(t, seen)
  {
    CaptureExtends(t, seen, more);
    CaptureFinal(t, seen[Find(t.open, seen).value..], more);
  }

  lemma CaptureFinal(t: Tags, buf: string, more: string)
    requires t.Valid() && Capture(t, buf).block.Some?
    ensures Capture(t, buf + more) == Capture(t, buf)
  {
    CutStable(t.close, buf, more);
    var after := Cut(t.close, buf).value.after;
    assert (buf + more)[..|buf + more| - |after + more|] == buf[..|buf| - |after|];
  }

  lemma AddNothing(f: Fed)
    ensures AddSafe("", f) == f
  {
    assert "" + f.safe == f.safe;
  }

  lemma AddSafeTwice(a: string, b: string, f: Fed)
    ensures AddSafe(a, AddSafe(b, f)) == AddSafe(a + b, f)
  {
    assert a + (b + f.safe) == (a + b) + f.safe;
  }

  lemma {:induction false} RunFrom(t: Tags, seen: string, s: State, safe: string, chunks: seq<string>, text: string)
    requires t.Valid() && text == seen + Join(chunks) && ExactHead(t.open, text) && Scan(t, seen) == Fed(s, safe, None)
    ensures AddSafe(safe, Run(t, s, chunks)) == Scan(t, text)
    decreases |chunks|
  {
    if chunks == [] {
      assert text == seen && safe + "" == safe;
    } else {
      var c, rest := chunks[0], chunks[1..];
      assert text == (seen + c) + Join(rest);
      ExactHeadOfPrefix(t.open, seen + c, Join(rest));
      FeedExtends(t, seen, s, safe, c);
      var f := Feed(t, s, c);
      if f.block.Some? {
        BlockIsFinal(t, seen + c, Join(rest));
      } else {
        RunFrom(t, seen + c, f.state, safe + f.safe, rest, text);
        AddSafeTwice(safe, f.safe, Run(t, f.state, rest));
      }
    }
  }

  lemma ScanNothing(t: Tags)
    requires t.Valid()
    ensures Scan(t, "") == Fed(START, "", None)
  {
    assert Find(t.open, "") == None;
  }

  /** Any chunking of a text amounts to scanning it in one piece. */
  lemma {:induction false} RunIsScan(t: Tags, chunks: seq<string>, text: string)
    requires t.Valid() && text == Join(chunks) && ExactHead(t.open, text)
    ensures Run(t, START, chunks) == Scan(t, text)
  {
    ScanNothing(t);
    assert text == "" + text;
    RunFrom(t, "", START, "", chunks, text);
    AddNothing(Run(t, START, chunks));
  }

  lemma {:induction false} FirstPieceLetGo(t: Tags, text: string, a: string)
    requires t.Valid() && |t.open| > 1 && !ExactHead(t.open, text)
    requires a == text[..Find(t.open, text).value + |t.open| - 1]
    ensures Feed(t, START, a) == Fed(START, a, None)
  {
    HeadNotFound(t.open, text);
    HeadNotHeld(t.open, text);
    NothingHeld(t, a);
  }

  lemma NothingBefore(a: string)
    ensures "" + a == a && a[..|a| - 0] == a && a[|a| - 0..] == ""
  {
  }

  lemma {:induction false} NothingHeld(t: Tags, a: string)
    requires t.open != "" && Find(t.open, a).None? && Held(t.open, a) == 0
    ensures Feed(t, START, a) == Fed(START, a, None)
  {
    ScanMissed(t, a, 0);
    NothingBefore(a);
  }

  lemma {:induction false} ScanMissed(t: Tags, text: string, n: nat)
    requires t.open != "" && Find(t.open, text).None? && n == Held(t.open, text)
    ensures Scan(t, text) == Hold(text, n)
  {
  }

  lemma RunSafeGrows(t: Tags, s: State, a: string, b: string)
    requires t.open != "" && Feed(t, s, a) == Fed(s, a, None)
    ensures |Run(t, s, [a, b]).safe| >= |a|
  {
    assert Run(t, s, [a, b]) == AddSafe(a, Run(t, s, [a, b][1..]));
  }

  lemma JoinTwo(a: string, b: string)
    ensures Join([a, b]) == a + b
  {
    assert [a, b][1..] == [b] && [b][1..] == [];
    assert Join([b]) == b + "" == b;
  }

  /** Cut a text inside a tag whose head is not exact: the first piece lets the head go. */
  lemma {:induction false} SplitHeadEscapes(t: Tags, text: string) returns (chunks: seq<string>)
    requires t.Valid() && |t.open| > 1 && !ExactHead(t.open, text)
    ensures Join(chunks) == text && Run(t, START, chunks) != Scan(t, text)
  {
    var k := Find(t.open, text).value + |t.open| - 1;
    var a, b := text[..k], text[k..];
    chunks := [a, b];
    JoinTwo(a, b);
    assert a + b == text;
    FirstPieceLetGo(t, text, a);
    ScanFound(t, text, Find(t.open, text).value);
    RunSafeGrows(t, START, a, b);
  }

  lemma {:induction false} HeadNotFound(tag: string, text: string)
    requires IsTag(tag) && Find(tag, text).Some?
    ensures Find(tag, text[..Find(tag, text).value + |tag| - 1]) == None
  {
    var p := Find(tag, text).value;
    var a := text[..p + |tag| - 1];
    FindIsFirst(tag, text);
    assert a + text[|a|..] == text;
    if Find(tag, a).Some? {
      FindStable(tag, a, text[|a|..]);
    }
  }

  lemma {:induction false} HeadNotHeld(tag: string, text: string)
    requires IsTag(tag) && !ExactHead(tag, text)
    ensures Held(tag, text[..Find(tag, text).value + |tag| - 1]) == 0
  {
    var p := Find(tag, text).value;
    var a := text[..p + |tag| - 1];
    var n := Held(tag, a);
    assert StartsWithTag(tag, text[p..]) by { FindIsFirst(tag, text); }
    HeldIsEnd(tag, a);
    if n > 0 {
      HeadEnd(tag, text, p, n);
    }
  }

  lemma {:induction false} HeadEnd(tag: string, text: string, p: nat, n: nat)
    requires IsTag(tag) && p + |tag| <= |text| && StartsWithTag(tag, text[p..]) && 0 < n < |tag|
    requires text[p..p + |tag| - 1] != tag[..|tag| - 1]
    ensures !EndsWith(text[..p + |tag| - 1], tag[..n])
  {
    var a, j := text[..p + |tag| - 1], |tag| - 1 - n;
    assert a[|a| - n..] == text[p + j..p + |tag| - 1];
    if j > 0 {
      assert text[p..][j] == text[p + j] && Lower(text[p..][j]) == tag[j];
      assert a[|a| - n..][0] == text[p + j] != tag[..n][0];
    }
  }

  /** Chunking independence: every chunking of a text behaves as the text in one piece exactly
      when the first opening tag, if there is one, is in lower case up to its last letter. The
      search ignores case but holding back does not. */
  lemma {:induction false} ChunkingIndependence(t: Tags, text: string)
    requires t.Valid() && |t.open| > 1
    ensures (forall chunks :: Join(chunks) == text ==> Run(t, START, chunks) == Scan(t, text))
            <==> ExactHead(t.open, text)
  {
    if ExactHead(t.open, text) {
      forall chunks | Join(chunks) == text ensures Run(t, START, chunks) == Scan(t, text) {
        RunIsScan(t, chunks, text);
      }
    } else {
      var _ := SplitHeadEscapes(t, text);
    }
  }

  // ---------------------------------------------------------------------------
  // What scanning a text does
  // ---------------------------------------------------------------------------

  /** Nothing is lost, and what is held back is the longest end that could begin the tag. */
  ghost predicate KeepsText(tag: string, text: string, f: Fed) {
    && f.block.None? && !f.state.capturing && !f.state.done
    && f.safe + f.state.buf == text
    && |f.state.buf| < |tag| && f.state.buf == tag[..|f.state.buf|]
    && forall i :: |f.state.buf| < i <= |text| && i < |tag| ==> !EndsWith(text, tag[..i])
  }

  lemma HoldKeepsText(tag: string, text: string, n: nat)
    requires tag != "" && n == Held(tag, text)
    ensures KeepsText(tag, text, Hold(text, n))
  {
    HeldLengthIsLongest(text, tag, Min(|tag| - 1, |text|));
    assert text[..|text| - n] + text[|text| - n..] == text;
  }

  /** Without an opening tag the text is passed on or held back. */
  lemma ScanKeepsText(t: Tags, text: string)
    requires t.Valid() && Find(t.open, text).None?
    ensures KeepsText(t.open, text, Scan(t, text))
  {
    ScanMissed(t, text, Held(t.open, text));
    HoldKeepsText(t.open, text, Held(t.open, text));
  }

  /** Where the block of a text ends that starts at p: behind the first closing tag. */
  ghost predicate BlockFrom(t: Tags, text: string, p: nat, f: Fed)
    requires p <= |text|
  {
    match Cut(t.close, text[p..])
    case None => f == Fed(State(text[p..], true, false), text[..p], None)
    case Some(c) => f == Fed(State("", false, true), text[..p], Some(text[p..|text| - |c.after|]))
  }

  lemma CaughtOutcome(t: Tags, text: string, p: nat)
    requires p <= |text|
    ensures BlockFrom(t, text, p, Caught(t, text, p))
  {
    var c := Cut(t.close, text[p..]);
    if c.Some? {
      assert text[p..][..|text| - p - |c.value.after|] == text[p..|text| - |c.value.after|];
    }
  }

  /** With an opening tag at p the text before p is passed on; the block runs from p to the end of
      the first closing tag, or, while there is none, the text from p is kept for flush. */
  lemma ScanCatchesBlock(t: Tags, text: string, p: nat)
    requires t.Valid() && Find(t.open, text) == Some(p)
    ensures BlockFrom(t, text, p, Scan(t, text))
  {
    ScanFound(t, text, p);
    CaughtOutcome(t, text, p);
  }

  /** A stream that ends without an opening tag has passed on all of its text exactly when
      nothing is held back at the end: flush parses the held end but never passes it on. */
  lemma EndOfStreamExact(t: Tags, chunks: seq<string>)
    requires t.Valid() && Find(t.open, Join(chunks)).None?
    ensures Run(t, START, chunks).safe == Join(chunks) <==> Held(t.open, Join(chunks)) == 0
  {
    var text := Join(chunks);
    RunIsScan(t, chunks, text);
    ScanMissed(t, text, Held(t.open, text));
    assert |Hold(text, Held(t.open, text)).safe| == |text| - Held(t.open, text);
  }

  // ---------------------------------------------------------------------------
  // The sieve
  // ---------------------------------------------------------------------------

  lemma {:induction false} CaptureGoesOn(t: Tags, text: string)
    requires Cut(t.close, text).None?
    ensures Capture(t, text) == Fed(State(text, true, false), "", None)
  {
  }

  lemma {:induction false} CaptureEnds(t: Tags, text: string, c: Option<Split>)
    requires c == Cut(t.close, text) && c.Some?
    ensures Capture(t, text) == Fed(State("", false, true), "", Some(text[..|text| - |c.value.after|]))
  {
  }

  lemma HoldSplit(text: string, safe: string, leftover: string)
    requires text == safe + leftover
    ensures Hold(text, |leftover|) == Fed(State(leftover, false, false), safe, None)
  {
  }

  lemma NothingAdded(a: string, b: string)
    ensures a + "" == a && b + "" == b
  {
  }

  /** The calls a block yields: those the parser reports, or none at all without tool syntax. */
  ghost predicate Found<J>(json: Json<J>, names: seq<string>, block: string, calls: Option<seq<ToolCall>>) {
    var r := ParseToolCalls(json, block, names);
    if r.sawToolSyntax then calls == Some(r.calls) else calls == None
  }

  /** What a feed returns: the calls of the block it completes, if it completes one. */
  ghost predicate Handed<J>(json: Json<J>, names: seq<string>, f: Fed, calls: Option<seq<ToolCall>>) {
    match f.block
    case None => calls == None
    case Some(block) => Found(json, names, block, calls)
  }

  /** What a finished stream returns: the calls of its block, or of what flush finds in the buffer. */
  ghost predicate Finished<J>(json: Json<J>, names: seq<string>, f: Fed, calls: Option<seq<ToolCall>>) {
    if f.block.Some? then Found(json, names, f.block.value, calls)
    else if f.state.done || f.state.buf == "" then calls == None
    else Found(json, names, f.state.buf, calls)
  }

  class Sieve<J> {
    const json: Json<J>
    const toolNames: seq<string>
    const tags: Tags
    var buf: string
    var capturing: bool
    var done: bool

    function Now(): State
      reads this
    {
      State(buf, capturing, done)
    }

    constructor (json: Json<J>, toolNames: seq<string>)
      ensures this.json == json && this.toolNames == toolNames && tags == TOOL_TAGS && Now() == START
    {
      this.json, this.toolNames, this.tags := json, toolNames, TOOL_TAGS;
      buf, capturing, done := "", false, false;
    }

    /** Parse a block: its calls, or nothing if the parser sees no tool syntax in it. */
    method ParseBlock(block: string) returns (calls: Option<seq<ToolCall>>)
      ensures Found(json, toolNames, block, calls)
    {
      var r := ParseToolCalls(json, block, toolNames);
      calls := if r.sawToolSyntax then Some(r.calls) else None;
    }

    method FeedCapturing(chunk: string) returns (safe: string, calls: Option<seq<ToolCall>>)
      requires capturing && !done
      modifies this
      ensures var f := Capture(tags, old(buf) + chunk);
              Now() == f.state && safe == f.safe && Handed(json, toolNames, f, calls)
    {
      var text := buf + chunk;
      var c := Cut(tags.close, text);
      if c.None? {
        CaptureGoesOn(tags, text);
        buf := text;
        return "", None;
      }
      var block := text[..|text| - |c.value.after|];
      CaptureEnds(tags, text, c);
      buf, capturing, done := "", false, true;
      safe := "";
      calls := ParseBlock(block);
    }

    method FeedScanning(chunk: string) returns (safe: string, calls: Option<seq<ToolCall>>)
      requires !capturing && !done && tags.open != ""
      modifies this
      ensures var f := Scan(tags, old(buf) + chunk);
              Now() == f.state && safe == f.safe && Handed(json, toolNames, f, calls)
    {
      var combined := buf + chunk;
      buf := "";
      var p := Find(tags.open, combined);
      if p.None? {
        safe, buf := SplitAtBoundary(combined, tags.open);
        calls := None;
        HoldSplit(combined, safe, buf);
      } else {
        var before := combined[..p.value];
        buf := combined[p.value..];
        capturing := true;
        NothingAdded(before, buf);
        var more, found := FeedCapturing("");
        safe, calls := before + more, found;
        assert Capture(tags, combined[p.value..]).safe == "";
      }
    }

    method FeedChunk(chunk: string) returns (safe: string, calls: Option<seq<ToolCall>>)
      requires tags.open != ""
      modifies this
      ensures var f := Feed(tags, old(Now()), chunk);
              Now() == f.state && safe == f.safe && Handed(json, toolNames, f, calls)
    {
      if done || chunk == "" {
        safe, calls := if capturing then "" else chunk, None;
      } else if capturing {
        safe, calls := FeedCapturing(chunk);
      } else {
        safe, calls := FeedScanning(chunk);
      }
    }

    /** At the end of the stream whatever is buffered goes to the parser and is dropped. */
    method Flush() returns (calls: Option<seq<ToolCall>>)
      modifies this
      ensures old(done) || old(buf) == "" ==> calls == None && Now() == old(Now())
      ensures !old(done) && old(buf) != "" ==>
                Found(json, toolNames, old(buf), calls) && Now() == State("", old(capturing), true)
    {
      if done || buf == "" {
        return None;
      }
      done := true;
      calls := ParseBlock(buf);
      buf := "";
    }
  }
}
