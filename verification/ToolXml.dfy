// The printer of tool calls and the parser of the tool-call block.
module ToolXml {
  import opened AccountModels
  import opened ToolText

  /** The id of a call is random and not modelled. */
  datatype ToolCall = ToolCall(name: string, arguments: string)

  /** The JSON library and the secondary parsers, as the parser uses them: values of type J. */
  datatype Json<!J> = Json(
    loads: string -> Option<J>,
    dumps: J -> string,
    asString: J -> Option<string>,       // the Python str a value is, if it is one
    emptyObject: J,
    repair: string -> Option<J>,         // second attempt after a parse error
    otherSyntax: string -> bool,         // the remaining tool-syntax patterns
    fallback: string -> seq<ToolCall>)   // the JSON and alternative-XML parsers

  const ROOT_OPEN := "<tool_calls"
  const ROOT_CLOSE := "</tool_calls"
  const CALL_OPEN := "<tool_call"
  const CALL_CLOSE := "</tool_call"
  const NAME_OPEN := "<tool_name"
  const NAME_CLOSE := "</tool_name"
  const PARAMS_OPEN := "<parameters"
  const PARAMS_CLOSE := "</parameters"

  // ---------------------------------------------------------------------------
  // Printer
  // ---------------------------------------------------------------------------

  function Normalized<J>(json: Json<J>, args: string): string {
    var v := json.loads(args);
    if v.Some? then json.dumps(v.value) else args
  }

  function InnerPieces(name: string, args: string): seq<Piece> {
    [Plain("\n    "), Tag(NAME_OPEN), Plain(name), Tag(NAME_CLOSE),
     Plain("\n    "), Tag(PARAMS_OPEN), Plain(args), Tag(PARAMS_CLOSE), Plain("\n  ")]
  }

  /** Four indented lines: the call element, its name, its parameters, the end. */
  function CallPieces(name: string, args: string): seq<Piece> {
    [Plain("  "), Tag(CALL_OPEN)] + (InnerPieces(name, args) + ([Tag(CALL_CLOSE)] + [Plain("\n")]))
  }

  function CallsPieces<J>(json: Json<J>, calls: seq<ToolCall>): seq<Piece> {
    if calls == [] then []
    else CallPieces(calls[0].name, Normalized(json, calls[0].arguments)) + CallsPieces(json, calls[1..])
  }

  /** The printed block. */
  function XmlOf<J>(json: Json<J>, calls: seq<ToolCall>): string {
    Render([Tag(ROOT_OPEN)] + (([Plain("\n")] + CallsPieces(json, calls)) + [Tag(ROOT_CLOSE)]))
  }

  lemma {:induction false} CallsPiecesAppend<J>(json: Json<J>, calls: seq<ToolCall>, c: ToolCall)
    ensures CallsPieces(json, calls + [c]) == CallsPieces(json, calls)
            + CallPieces(c.name, Normalized(json, c.arguments))
  {
    if calls == [] {
      assert calls + [c] == [c];
    } else {
      assert (calls + [c])[1..] == calls[1..] + [c];
      CallsPiecesAppend(json, calls[1..], c);
    }
  }

  /** Lines are collected in a list; joining them is rendering the pieces. */
  method ToolCallsToXml<J>(json: Json<J>, calls: seq<ToolCall>) returns (xml: string)
    ensures xml == XmlOf(json, calls)
  {
    var lines: seq<Piece> := [];
    for i := 0 to |calls|
      invariant lines == CallsPieces(json, calls[..i])
    {
      var args := calls[i].arguments;
      var v := json.loads(args);
      if v.Some? {
        args := json.dumps(v.value);
      }
      CallsPiecesAppend(json, calls[..i], calls[i]);
      assert calls[..i + 1] == calls[..i] + [calls[i]];
      lines := lines + CallPieces(calls[i].name, args);
    }
    assert calls[..|calls|] == calls;
    xml := Render([Tag(ROOT_OPEN)] + (([Plain("\n")] + lines) + [Tag(ROOT_CLOSE)]));
  }

  // ---------------------------------------------------------------------------
  // Parser
  // ---------------------------------------------------------------------------

  /** The text between the first opening tag and the next closing tag, and the text after. */
  function Block(open: string, close: string, s: string): (r: Option<Split>)
    ensures r.Some? ==> |r.value.after| < |s|
  {
    var o := Cut(open, s);
    if o.None? then None else Cut(close, o.value.after)
  }

  lemma {:induction false} BlockNeedsClose(open: string, close: string, s: string)
    requires Cut(close, s).None?
    ensures Block(open, close, s).None?
  {
    if Cut(open, s).Some? {
      var after := Cut(open, s).value.after;
      CutIsTail(open, s);
      TailHasNone(close, s, after);
    }
  }

  lemma {:induction false} TailHasNone(tag: string, s: string, tail: string)
    requires Cut(tag, s).None? && |tail| <= |s| && s[|s| - |tail|..] == tail
    ensures Cut(tag, tail).None?
  {
    CutInTail(tag, s, |s| - |tail|);
  }

  function ParseTolerant<J>(json: Json<J>, s: string): Option<J> {
    if s == "" then Some(json.emptyObject)
    else if json.loads(s).Some? then json.loads(s)
    else json.repair(s)
  }

  function MakeCall<J>(json: Json<J>, name: string, args: J): ToolCall {
    ToolCall(name, if json.asString(args).Some? then json.asString(args).value else json.dumps(args))
  }

  /** What one call element contributes. */
  function ParseCall<J>(json: Json<J>, inner: string): seq<ToolCall> {
    var name := Block(NAME_OPEN, NAME_CLOSE, inner);
    if name.None? then []
    else
      var params := Block(PARAMS_OPEN, PARAMS_CLOSE, inner);
      var args := ParseTolerant(json, if params.Some? then Strip(params.value.before) else "{}");
      if args.None? then [] else [MakeCall(json, Strip(name.value.before), args.value)]
  }

  function ParseCalls<J>(json: Json<J>, s: string): seq<ToolCall>
    decreases |s|
  {
    var b := Block(CALL_OPEN, CALL_CLOSE, s);
    if b.None? then [] else ParseCall(json, b.value.before) + ParseCalls(json, b.value.after)
  }

  function XmlCalls<J>(json: Json<J>, text: string): seq<ToolCall> {
    var root := Block(ROOT_OPEN, ROOT_CLOSE, text);
    if root.None? then [] else ParseCalls(json, root.value.before)
  }

  lemma ParseStep<J>(json: Json<J>, found: seq<ToolCall>, rest: string)
    ensures var b := Block(CALL_OPEN, CALL_CLOSE, rest);
            found + ParseCalls(json, rest) ==
              if b.None? then found else (found + ParseCall(json, b.value.before)) + ParseCalls(json, b.value.after)
  {
    var b := Block(CALL_OPEN, CALL_CLOSE, rest);
    if b.None? {
      assert ParseCalls(json, rest) == [];
    } else {
      var one, more := ParseCall(json, b.value.before), ParseCalls(json, b.value.after);
      assert ParseCalls(json, rest) == one + more;
      Regroup2(found, one, more);
    }
  }

  method ParseXmlToolCalls<J>(json: Json<J>, text: string) returns (calls: seq<ToolCall>)
    ensures calls == XmlCalls(json, text)
  {
    var root := Block(ROOT_OPEN, ROOT_CLOSE, text);
    calls := [];
    if root.None? {
      return;
    }
    var inner := root.value.before;
    calls := FindCalls(json, inner);
  }

  /** The loop over the call elements of the root. */
  method FindCalls<J>(json: Json<J>, inner: string) returns (calls: seq<ToolCall>)
    ensures calls == ParseCalls(json, inner)
  {
    calls := [];
    var rest, more := inner, true;
    while more
      invariant more ==> calls + ParseCalls(json, rest) == ParseCalls(json, inner)
      invariant !more ==> calls == ParseCalls(json, inner)
      decreases more, |rest|
    {
      ParseStep(json, calls, rest);
      var b := Block(CALL_OPEN, CALL_CLOSE, rest);
      if b.None? {
        more := false;
      } else {
        var one := ParseCall(json, b.value.before);
        calls := calls + one;
        rest := b.value.after;
      }
    }
  }

  datatype ParseResult = ParseResult(calls: seq<ToolCall>, sawToolSyntax: bool)

  predicate HasToolSyntax<J>(json: Json<J>, text: string) { Find(CALL_OPEN, text).Some? || json.otherSyntax(text) }

  function Known(calls: seq<ToolCall>, names: seq<string>): seq<ToolCall> {
    if calls == [] then []
    else (if calls[0].name in names then [calls[0]] else []) + Known(calls[1..], names)
  }

  function ParseToolCalls<J>(json: Json<J>, text: string, available: seq<string>): ParseResult {
    if Strip(text) == "" || !HasToolSyntax(json, text) then ParseResult([], false)
    else
      var xml := XmlCalls(json, text);
      var calls := if xml != [] then xml else json.fallback(text);
      ParseResult(if calls != [] && available != [] then Known(calls, available) else calls, true)
  }

  /** The calls kept are those at the given places, in order: exactly the ones with a known name. An
      empty list of names knows every call. */
  ghost predicate KeptAt(calls: seq<ToolCall>, names: seq<string>, places: seq<nat>, kept: seq<ToolCall>) {
    && |kept| == |places|
    && (forall k :: 0 <= k < |places| ==> places[k] < |calls| && kept[k] == calls[places[k]])
    && (forall j, k :: 0 <= j < k < |places| ==> places[j] < places[k])
    && (forall i :: 0 <= i < |calls| ==> (i in places <==> names == [] || calls[i].name in names))
  }

  ghost predicate OnlyKnown(calls: seq<ToolCall>, names: seq<string>, kept: seq<ToolCall>) {
    exists places :: KeptAt(calls, names, places, kept)
  }

  lemma {:induction false} AllKept(calls: seq<ToolCall>)
    ensures OnlyKnown(calls, [], calls)
  {
    var places := seq(|calls|, (i: nat) => i);
    forall i | 0 <= i < |calls| ensures i in places {
      assert places[i] == i;
    }
    assert KeptAt(calls, [], places, calls);
  }

  lemma {:induction false} KnownAreKept(calls: seq<ToolCall>, names: seq<string>) returns (places: seq<nat>)
    requires names != []
    ensures KeptAt(calls, names, places, Known(calls, names))
  {
    if calls == [] {
      places := [];
    } else {
      var later := KnownAreKept(calls[1..], names);
      var shifted := seq(|later|, k requires 0 <= k < |later| => later[k] + 1);
      places := (if calls[0].name in names then [0] else []) + shifted;
      PlacesShifted(calls, names, later, shifted, places);
    }
  }

  lemma {:induction false} PlacesShifted(calls: seq<ToolCall>, names: seq<string>, later: seq<nat>, shifted: seq<nat>,
                                         places: seq<nat>)
    requires calls != [] && names != [] && |shifted| == |later|
    requires forall k :: 0 <= k < |later| ==> shifted[k] == later[k] + 1
    requires KeptAt(calls[1..], names, later, Known(calls[1..], names))
    requires places == (if calls[0].name in names then [0] else []) + shifted
    ensures KeptAt(calls, names, places, Known(calls, names))
  {
    forall i | 0 <= i < |calls| ensures i in places <==> calls[i].name in names {
      if i > 0 {
        assert i - 1 in later <==> calls[1..][i - 1].name in names;
        if i - 1 in later {
          var k :| 0 <= k < |later| && later[k] == i - 1;
          assert shifted[k] == i;
        }
      }
    }
  }

  /** What a parse reports: tool syntax if the text is not blank and has some; then the calls of the
      first root element, or, when it has none, those of the other parsers, and only known ones. */
  lemma {:induction false} ParseReports<J>(json: Json<J>, text: string, names: seq<string>)
    ensures var r := ParseToolCalls(json, text, names);
            if Strip(text) != "" && (Find(CALL_OPEN, text).Some? || json.otherSyntax(text))
            then r.sawToolSyntax
              && OnlyKnown(if XmlCalls(json, text) == [] then json.fallback(text)
                 else XmlCalls(json, text), names, r.calls)
            else !r.sawToolSyntax && r.calls == []
  {
    var xml := XmlCalls(json, text);
    KnownOrAll(if xml != [] then xml else json.fallback(text), names);
  }

  lemma {:induction false} KnownOrAll(calls: seq<ToolCall>, names: seq<string>)
    ensures OnlyKnown(calls, names, if calls != [] && names != [] then Known(calls, names) else calls)
  {
    if calls == [] {
      assert KeptAt(calls, names, [], calls);
    } else if names == [] {
      AllKept(calls);
    } else {
      var places := KnownAreKept(calls, names);
    }
  }

  // ---------------------------------------------------------------------------
  // Print, then parse
  // ---------------------------------------------------------------------------

  /** A call the printer can carry: trimmed name, canonical JSON arguments that are no JSON
      string, and no '<' in either. */
  predicate Printable<J>(json: Json<J>, c: ToolCall) {
    && c.name != "" && Strip(c.name) == c.name && NoLt(c.name)
    && c.arguments != "" && Strip(c.arguments) == c.arguments && NoLt(c.arguments)
    && json.loads(c.arguments).Some?
    && json.dumps(json.loads(c.arguments).value) == c.arguments
    && json.asString(json.loads(c.arguments).value).None?
  }

  lemma TagsAreTags()
    ensures IsTag(ROOT_OPEN) && IsTag(ROOT_CLOSE) && IsTag(CALL_OPEN) && IsTag(CALL_CLOSE)
    ensures IsTag(NAME_OPEN) && IsTag(NAME_CLOSE) && IsTag(PARAMS_OPEN) && IsTag(PARAMS_CLOSE)
  {
  }

  /** Where the tags of a printed block differ from one another. */
  lemma TagsDiffer()
    ensures forall t :: t in {ROOT_OPEN, CALL_OPEN, NAME_OPEN, NAME_CLOSE, PARAMS_OPEN, PARAMS_CLOSE, CALL_CLOSE} ==>
              Differ(ROOT_CLOSE, t + ">")
    ensures forall t :: t in {NAME_OPEN, NAME_CLOSE, PARAMS_OPEN, PARAMS_CLOSE} ==> Differ(CALL_CLOSE, t + ">")
    ensures Differ(PARAMS_OPEN, NAME_OPEN + ">") && Differ(PARAMS_OPEN, NAME_CLOSE + ">")
  {
    forall t | t in {ROOT_OPEN, CALL_OPEN, NAME_OPEN, PARAMS_OPEN}
           ensures Differ(ROOT_CLOSE, t + ">") && Differ(CALL_CLOSE, t + ">") {
      assert ROOT_CLOSE[1] != (t + ">")[1] && CALL_CLOSE[1] != (t + ">")[1];
    }
    assert ROOT_CLOSE[7] != (NAME_CLOSE + ">")[7] && CALL_CLOSE[7] != (NAME_CLOSE + ">")[7];
    assert ROOT_CLOSE[2] != (PARAMS_CLOSE + ">")[2] && CALL_CLOSE[2] != (PARAMS_CLOSE + ">")[2];
    assert ROOT_CLOSE[11] != (CALL_CLOSE + ">")[11];
    assert PARAMS_OPEN[1] != (NAME_OPEN + ">")[1] && PARAMS_OPEN[1] != (NAME_CLOSE + ">")[1];
  }

  /** The block between two printed tags. */
  lemma {:induction false} BlockOfPieces(open: string, close: string, before: seq<Piece>, inner: seq<Piece>,
                                         after: seq<Piece>)
    requires IsTag(open) && IsTag(close) && Avoids(before, open) && Avoids(inner, close)
    ensures Block(open, close, Render(before + ([Tag(open)] + (inner + ([Tag(close)] + after)))))
            == Some(Split(Render(inner), Render(after)))
  {
    CutAtTag(open, before, inner + ([Tag(close)] + after));
    CutAtTag(close, inner, after);
  }

  lemma RenderPlain(t: string)
    ensures Render([Plain(t)]) == t
  {
    assert Render([Plain(t)][1..]) == "";
  }

  lemma InnerName(name: string, args: string)
    requires NoLt(name)
    ensures var b := Block(NAME_OPEN, NAME_CLOSE, Render(InnerPieces(name, args)));
            b.Some? && b.value.before == name
  {
    TagsAreTags();
    var before, inner := [Plain("\n    ")], [Plain(name)];
    var after := [Plain("\n    "), Tag(PARAMS_OPEN), Plain(args), Tag(PARAMS_CLOSE), Plain("\n  ")];
    assert InnerPieces(name, args) == before + ([Tag(NAME_OPEN)] + (inner + ([Tag(NAME_CLOSE)] + after)));
    BlockOfPieces(NAME_OPEN, NAME_CLOSE, before, inner, after);
    RenderPlain(name);
  }

  /** The pieces of a call before its parameters. */
  function NamePieces(name: string): seq<Piece> {
    [Plain("\n    "), Tag(NAME_OPEN), Plain(name), Tag(NAME_CLOSE), Plain("\n    ")]
  }

  lemma InnerSplit(name: string, args: string)
    ensures InnerPieces(name, args)
            == NamePieces(name) + ([Tag(PARAMS_OPEN)] + ([Plain(args)] + ([Tag(PARAMS_CLOSE)] + [Plain("\n  ")])))
  {
  }

  lemma NameAvoidsParams(name: string)
    requires NoLt(name)
    ensures Avoids(NamePieces(name), PARAMS_OPEN)
  {
    TagsAreTags();
    TagsDiffer();
  }

  lemma {:induction false} InnerParams(name: string, args: string)
    requires NoLt(name) && NoLt(args)
    ensures var b := Block(PARAMS_OPEN, PARAMS_CLOSE, Render(InnerPieces(name, args)));
            b.Some? && b.value.before == args
  {
    TagsAreTags();
    NameAvoidsParams(name);
    InnerSplit(name, args);
    BlockOfPieces(PARAMS_OPEN, PARAMS_CLOSE, NamePieces(name), [Plain(args)], [Plain("\n  ")]);
    RenderPlain(args);
  }

  lemma {:induction false} ParseInner<J>(json: Json<J>, c: ToolCall)
    requires Printable(json, c)
    ensures ParseCall(json, Render(InnerPieces(c.name, c.arguments))) == [c]
  {
    InnerName(c.name, c.arguments);
    InnerParams(c.name, c.arguments);
  }

  /** What a parameters text means: the empty object if it is empty, else the JSON value it is, or is
      repaired to; nothing otherwise. */
  ghost predicate ParametersMean<J>(json: Json<J>, text: string, v: Option<J>) {
    if text == "" then v == Some(json.emptyObject)
    else if json.loads(text).Some? then v == json.loads(text)
    else v == json.repair(text)
  }

  /** The call for a name and a value: a JSON string is its own arguments, anything else is printed. */
  ghost predicate IsCall<J>(json: Json<J>, name: string, v: J, c: ToolCall) {
    && c.name == name
    && (json.asString(v).Some? ==> c.arguments == json.asString(v).value)
    && (json.asString(v).None? ==> c.arguments == json.dumps(v))
  }

  /** A printed call element with any name and any parameters text in it gives one call, trimmed, or
      none if the parameters mean nothing. */
  lemma {:induction false} CallReads<J>(json: Json<J>, name: string, args: string, v: Option<J>)
    requires NoLt(name) && NoLt(args) && ParametersMean(json, Strip(args), v)
    ensures var calls := ParseCall(json, Render(InnerPieces(name, args)));
            if v.None? then calls == [] else |calls| == 1 && IsCall(json, Strip(name), v.value, calls[0])
  {
    InnerName(name, args);
    InnerParams(name, args);
  }

  /** A call element without parameters is one with an empty object written out. */
  lemma {:induction false} CallWithoutParameters<J>(json: Json<J>, name: string, v: Option<J>)
    requires NoLt(name) && ParametersMean(json, "{}", v)
    ensures var calls := ParseCall(json, Render(NamePieces(name)));
            if v.None? then calls == [] else |calls| == 1 && IsCall(json, Strip(name), v.value, calls[0])
  {
    NameAlone(name);
    NoParameters(name);
  }

  lemma {:induction false} NameAlone(name: string)
    requires NoLt(name)
    ensures var b := Block(NAME_OPEN, NAME_CLOSE, Render(NamePieces(name))); b.Some? && b.value.before == name
  {
    TagsAreTags();
    var before, inner, after := [Plain("\n    ")], [Plain(name)], [Plain("\n    ")];
    assert NamePieces(name) == before + ([Tag(NAME_OPEN)] + (inner + ([Tag(NAME_CLOSE)] + after)));
    BlockOfPieces(NAME_OPEN, NAME_CLOSE, before, inner, after);
    RenderPlain(name);
  }

  lemma {:induction false} NoParameters(name: string)
    requires NoLt(name)
    ensures Block(PARAMS_OPEN, PARAMS_CLOSE, Render(NamePieces(name))).None?
  {
    NameAvoidsParams(name);
    assert IsTag(PARAMS_OPEN) by { TagsAreTags(); }
    CutAvoided(PARAMS_OPEN, NamePieces(name));
  }

  /** A call element without a name is passed over. */
  lemma {:induction false} NamelessIsSkipped<J>(json: Json<J>, inner: string)
    requires Cut(NAME_OPEN, inner).None?
    ensures ParseCall(json, inner) == []
  {
  }

  predicate AllPrintable<J>(json: Json<J>, calls: seq<ToolCall>) { forall c :: c in calls ==> Printable(json, c) }

  lemma {:induction false} InnerAvoids(tag: string, name: string, args: string)
    requires NoLt(name) && NoLt(args)
    requires Differ(tag, NAME_OPEN + ">") && Differ(tag, NAME_CLOSE + ">")
    requires Differ(tag, PARAMS_OPEN + ">") && Differ(tag, PARAMS_CLOSE + ">")
    ensures Avoids(InnerPieces(name, args), tag)
  {
    TagsAreTags();
  }

  lemma CallAvoidsRoot(name: string, args: string)
    requires NoLt(name) && NoLt(args)
    ensures Avoids(CallPieces(name, args), ROOT_CLOSE)
  {
    TagsAreTags();
    TagsDiffer();
    InnerAvoids(ROOT_CLOSE, name, args);
    AvoidsBoth([Tag(CALL_CLOSE)], [Plain("\n")], ROOT_CLOSE);
    AvoidsBoth(InnerPieces(name, args), [Tag(CALL_CLOSE)] + [Plain("\n")], ROOT_CLOSE);
    AvoidsBoth([Plain("  "), Tag(CALL_OPEN)], InnerPieces(name, args) + ([Tag(CALL_CLOSE)] + [Plain("\n")]),
      ROOT_CLOSE);
  }

  /** Printed calls, opened up around the first one. */
  lemma {:induction false} FirstCall<J>(json: Json<J>, lead: string, calls: seq<ToolCall>)
    requires calls != []
    ensures [Plain(lead)] + CallsPieces(json, calls) ==
              [Plain(lead), Plain("  ")]
              + ([Tag(CALL_OPEN)] + (InnerPieces(calls[0].name, Normalized(json, calls[0].arguments))
                + ([Tag(CALL_CLOSE)] + ([Plain("\n")] + CallsPieces(json, calls[1..])))))
  {
    var inner, rest := InnerPieces(calls[0].name, Normalized(json, calls[0].arguments)), CallsPieces(json, calls[1..]);
    Regroup([Plain(lead)], [Plain("  "), Tag(CALL_OPEN)], inner, [Tag(CALL_CLOSE)], [Plain("\n")], rest);
    assert [Plain(lead)] + [Plain("  "), Tag(CALL_OPEN)] == [Plain(lead), Plain("  ")] + [Tag(CALL_OPEN)];
    Regroup2([Plain(lead), Plain("  ")], [Tag(CALL_OPEN)], inner + ([Tag(CALL_CLOSE)] + ([Plain("\n")] + rest)));
  }

  lemma Regroup<T>(a: seq<T>, b: seq<T>, c: seq<T>, d: seq<T>, e: seq<T>, f: seq<T>)
    ensures a + ((b + (c + (d + e))) + f) == (a + b) + (c + (d + (e + f)))
  {
  }

  lemma Regroup2<T>(a: seq<T>, b: seq<T>, c: seq<T>)
    ensures (a + b) + c == a + (b + c)
  {
  }

  lemma {:induction false} ParseFirstOf<J>(json: Json<J>, lead: string, calls: seq<ToolCall>)
    requires calls != [] && Printable(json, calls[0]) && NoLt(lead)
    ensures ParseCalls(json, Render([Plain(lead)] + CallsPieces(json, calls)))
            == [calls[0]] + ParseCalls(json, Render([Plain("\n")] + CallsPieces(json, calls[1..])))
  {
    FirstCall(json, lead, calls);
    ParseFirst(json, lead, calls[0], CallsPieces(json, calls[1..]));
  }

  lemma TailPrintable<J>(json: Json<J>, calls: seq<ToolCall>)
    requires AllPrintable(json, calls) && calls != []
    ensures Printable(json, calls[0]) && AllPrintable(json, calls[1..])
  {
    assert calls[0] in calls;
    forall c | c in calls[1..] ensures Printable(json, c) {
      assert c in calls;
    }
  }

  lemma HeadAndTail<T>(s: seq<T>)
    requires s != []
    ensures [s[0]] + s[1..] == s
  {
  }

  lemma {:induction false} ParsePrinted<J>(json: Json<J>, lead: string, calls: seq<ToolCall>)
    requires AllPrintable(json, calls) && NoLt(lead)
    ensures ParseCalls(json, Render([Plain(lead)] + CallsPieces(json, calls))) == calls
    decreases |calls|
  {
    if calls == [] {
      ParseNothing(json, lead);
    } else {
      var rest := calls[1..];
      TailPrintable(json, calls);
      ParseFirstOf(json, lead, calls);
      ParsePrinted(json, "\n", rest);
      HeadAndTail(calls);
    }
  }

  lemma {:induction false} ParseNothing<J>(json: Json<J>, lead: string)
    requires NoLt(lead)
    ensures ParseCalls(json, Render([Plain(lead)] + [])) == []
  {
    TagsAreTags();
    assert [Plain(lead)] + [] == [Plain(lead)];
    RenderPlain(lead);
    CutNeedsLt(CALL_OPEN, lead);
  }

  lemma {:induction false} ParseFirst<J>(json: Json<J>, lead: string, c: ToolCall, rest: seq<Piece>)
    requires Printable(json, c) && NoLt(lead)
    ensures var after := [Plain("\n")] + rest;
            ParseCalls(json, Render([Plain(lead), Plain("  ")] + ([Tag(CALL_OPEN)] + (InnerPieces(c.name, c.arguments)
                               + ([Tag(CALL_CLOSE)] + after)))))
            == [c] + ParseCalls(json, Render(after))
  {
    TagsAreTags();
    TagsDiffer();
    InnerAvoids(CALL_CLOSE, c.name, c.arguments);
    BlockOfPieces(CALL_OPEN, CALL_CLOSE, [Plain(lead), Plain("  ")], InnerPieces(c.name, c.arguments),
      [Plain("\n")] + rest);
    ParseInner(json, c);
  }

  lemma AvoidsBoth(a: seq<Piece>, b: seq<Piece>, tag: string)
    requires Avoids(a, tag) && Avoids(b, tag)
    ensures Avoids(a + b, tag)
  {
  }

  lemma {:induction false} CallsAvoidRoot<J>(json: Json<J>, calls: seq<ToolCall>)
    requires AllPrintable(json, calls)
    ensures Avoids(CallsPieces(json, calls), ROOT_CLOSE)
  {
    if calls != [] {
      var c := calls[0];
      assert Printable(json, c);
      CallsAvoidRoot(json, calls[1..]);
      CallAvoidsRoot(c.name, c.arguments);
      AvoidsBoth(CallPieces(c.name, c.arguments), CallsPieces(json, calls[1..]), ROOT_CLOSE);
    }
  }

  lemma RootAvoids<J>(json: Json<J>, calls: seq<ToolCall>)
    requires AllPrintable(json, calls)
    ensures Avoids([Plain("\n")] + CallsPieces(json, calls), ROOT_CLOSE)
    ensures Avoids([Tag(ROOT_OPEN)] + ([Plain("\n")] + CallsPieces(json, calls)), ROOT_CLOSE)
  {
    TagsAreTags();
    TagsDiffer();
    CallsAvoidRoot(json, calls);
    AvoidsBoth([Plain("\n")], CallsPieces(json, calls), ROOT_CLOSE);
    AvoidsBoth([Tag(ROOT_OPEN)], [Plain("\n")] + CallsPieces(json, calls), ROOT_CLOSE);
  }

  /** The root element holds exactly the printed calls. */
  lemma {:induction false} PrintedRoot<J>(json: Json<J>, calls: seq<ToolCall>)
    requires AllPrintable(json, calls)
    ensures Block(ROOT_OPEN, ROOT_CLOSE, XmlOf(json, calls))
            == Some(Split(Render([Plain("\n")] + CallsPieces(json, calls)), ""))
  {
    TagsAreTags();
    var inner := [Plain("\n")] + CallsPieces(json, calls);
    RootAvoids(json, calls);
    BlockOfPieces(ROOT_OPEN, ROOT_CLOSE, [], inner, []);
    assert [Tag(ROOT_CLOSE)] + [] == [Tag(ROOT_CLOSE)];
    assert [] + ([Tag(ROOT_OPEN)] + (inner + [Tag(ROOT_CLOSE)])) == [Tag(ROOT_OPEN)] + (inner + [Tag(ROOT_CLOSE)]);
  }

  /** The first closing root tag of a printed block is its end. */
  lemma PrintedBlockEnds<J>(json: Json<J>, calls: seq<ToolCall>)
    requires AllPrintable(json, calls)
    ensures var r := Cut(ROOT_CLOSE, XmlOf(json, calls)); r.Some? && r.value.after == ""
  {
    TagsAreTags();
    var inner := [Plain("\n")] + CallsPieces(json, calls);
    RootAvoids(json, calls);
    CutAtTag(ROOT_CLOSE, [Tag(ROOT_OPEN)] + inner, []);
    assert [Tag(ROOT_CLOSE)] + [] == [Tag(ROOT_CLOSE)];
    Regroup2([Tag(ROOT_OPEN)], inner, [Tag(ROOT_CLOSE)]);
  }

  lemma {:induction false} AllKnown(calls: seq<ToolCall>, names: seq<string>)
    requires forall c :: c in calls ==> c.name in names
    ensures Known(calls, names) == calls
  {
    if calls != [] {
      AllKnown(calls[1..], names);
      assert [calls[0]] + calls[1..] == calls;
    }
  }

  lemma NotBlank(s: string)
    requires s != "" && !IsSpace(s[0])
    ensures Strip(s) != ""
  {
    assert StripLeft(s) == s;
    StripRightKeeps(s);
  }

  lemma {:induction false} StripRightKeeps(s: string)
    requires s != "" && !IsSpace(s[0])
    ensures StripRight(s) != ""
  {
    if IsSpace(s[|s| - 1]) {
      StripRightKeeps(s[..|s| - 1]);
    }
  }

  lemma PrintedStart<J>(json: Json<J>, calls: seq<ToolCall>)
    ensures var xml := XmlOf(json, calls); |ROOT_OPEN| < |xml| && xml[..|ROOT_OPEN|] == ROOT_OPEN
  {
    var rest := ([Plain("\n")] + CallsPieces(json, calls)) + [Tag(ROOT_CLOSE)];
    assert ([Tag(ROOT_OPEN)] + rest)[1..] == rest;
    assert XmlOf(json, calls) == ROOT_OPEN + ">" + Render(rest);
  }

  lemma PrintedSyntax<J>(json: Json<J>, calls: seq<ToolCall>)
    ensures Strip(XmlOf(json, calls)) != "" && HasToolSyntax(json, XmlOf(json, calls))
  {
    TagsAreTags();
    PrintedStart(json, calls);
    var xml := XmlOf(json, calls);
    assert xml[0] == ROOT_OPEN[0];
    NotBlank(xml);
    forall i | 0 <= i < |CALL_OPEN| ensures Lower(xml[i]) == CALL_OPEN[i] {
      assert xml[i] == xml[..|ROOT_OPEN|][i] == ROOT_OPEN[i] == CALL_OPEN[i];
    }
  }

  /** Parsing a printed block gives back the calls: names, arguments and order. */
  lemma ParseOfPrint<J>(json: Json<J>, calls: seq<ToolCall>, available: seq<string>)
    requires AllPrintable(json, calls)
    requires calls == [] ==> json.fallback(XmlOf(json, calls)) == []
    requires available == [] || forall c :: c in calls ==> c.name in available
    ensures ParseToolCalls(json, XmlOf(json, calls), available) == ParseResult(calls, true)
  {
    PrintedSyntax(json, calls);
    PrintedRoot(json, calls);
    ParsePrinted(json, "\n", calls);
    if available != [] {
      AllKnown(calls, available);
    }
  }
}
