// Citation markup in streamed text: the render-tag pattern as a scanner, the numbering of cited
// addresses, and where the printed citations stand in the cleaned text.
module Citations {
  import opened AccountModels
  import opened ToolText

  // ---------------------------------------------------------------------------
  // Searching
  // ---------------------------------------------------------------------------

  /** First position of the needle. */
  function IndexOf(needle: string, s: string): (p: Option<nat>)
    ensures p.Some? ==> p.value + |needle| <= |s| && s[p.value..p.value + |needle|] == needle
  {
    if needle <= s then Some(0)
    else if s == "" then None
    else
      var r := IndexOf(needle, s[1..]);
      if r.Some? then Some(r.value + 1) else None
  }

  /** The search finds something at or before every occurrence. */
  lemma {:induction false} IndexOfIsFirst(needle: string, s: string, p: nat)
    requires p + |needle| <= |s| && s[p..p + |needle|] == needle
    ensures IndexOf(needle, s).Some? && IndexOf(needle, s).value <= p
  {
    if !(needle <= s) {
      assert p > 0;
      assert s[1..][p - 1..p - 1 + |needle|] == s[p..p + |needle|];
      IndexOfIsFirst(needle, s[1..], p - 1);
    }
  }

  /** The needles stand in s one after the other, without overlap. */
  ghost predicate Embeds(needles: seq<string>, s: string)
    decreases |needles|
  {
    needles == [] || exists p: nat :: Leads(needles[0], s, p) && Embeds(needles[1..], s[p + |needles[0]|..])
  }

  ghost predicate Leads(needle: string, s: string, p: nat) { p + |needle| <= |s| && s[p..p + |needle|] == needle }

  lemma {:induction false} EmbedsFrom(needles: seq<string>, s: string, p: nat)
    requires needles != [] && Leads(needles[0], s, p) && Embeds(needles[1..], s[p + |needles[0]|..])
    ensures Embeds(needles, s)
  {
    assert exists q: nat :: Leads(needles[0], s, q) && Embeds(needles[1..], s[q + |needles[0]|..]);
  }

  lemma {:induction false} LaterIn(before: string, s: string, p: nat, q: nat)
    requires p <= q <= |s|
    ensures (before + s)[|before| + p..|before| + q] == s[p..q] && (before + s)[|before| + q..] == s[q..]
  {
  }

  lemma {:induction false} EmbedsAfter(needles: seq<string>, before: string, s: string)
    requires Embeds(needles, s)
    ensures Embeds(needles, before + s)
  {
    if needles != [] {
      var p: nat :| Leads(needles[0], s, p) && Embeds(needles[1..], s[p + |needles[0]|..]);
      var n := |needles[0]|;
      var t, q: nat := before + s, |before| + p;
      LaterIn(before, s, p, p + n);
      EmbedsFrom(needles, t, q);
    }
  }

  lemma {:induction false} EmbedsMore(needle: string, needles: seq<string>, s: string)
    requires Embeds(needles, s)
    ensures Embeds([needle] + needles, needle + s)
  {
    var t := needle + s;
    assert t[0..|needle|] == needle && t[|needle|..] == s;
    assert ([needle] + needles)[1..] == needles;
    EmbedsFrom([needle] + needles, t, 0);
  }

  lemma {:induction false} EmbedsItself(needle: string)
    ensures Embeds([needle], needle)
  {
    EmbedsMore(needle, [], "");
    assert [needle] + [] == [needle] && needle + "" == needle;
  }

  /** Taking the first occurrence of the first needle leaves room for the others. */
  lemma EmbedsGreedily(needles: seq<string>, s: string)
    requires needles != [] && Embeds(needles, s)
    ensures IndexOf(needles[0], s).Some?
    ensures Embeds(needles[1..], s[IndexOf(needles[0], s).value + |needles[0]|..])
  {
    var needle, rest := needles[0], needles[1..];
    var p: nat :| Leads(needle, s, p) && Embeds(rest, s[p + |needle|..]);
    FirstLeavesRoom(needle, rest, s, p);
  }

  lemma FirstLeavesRoom(needle: string, rest: seq<string>, s: string, p: nat)
    requires Leads(needle, s, p) && Embeds(rest, s[p + |needle|..])
    ensures IndexOf(needle, s).Some? && Embeds(rest, s[IndexOf(needle, s).value + |needle|..])
  {
    IndexOfIsFirst(needle, s, p);
    EmbedsEarlier(rest, s, IndexOf(needle, s).value + |needle|, p + |needle|);
  }

  lemma EmbedsEarlier(needles: seq<string>, s: string, from: nat, later: nat)
    requires from <= later <= |s| && Embeds(needles, s[later..])
    ensures Embeds(needles, s[from..])
  {
    assert s[from..] == s[from..later] + s[later..];
    EmbedsAfter(needles, s[from..later], s[later..]);
  }

  function StripNewlines(s: string): string { if s != "" && s[0] == '\n' then StripNewlines(s[1..]) else s }

  /** Needles that do not start with a newline survive stripping. */
  lemma {:induction false} EmbedsStripped(needles: seq<string>, s: string)
    requires Embeds(needles, s) && needles != [] && needles[0] != "" && needles[0][0] != '\n'
    ensures Embeds(needles, StripNewlines(s))
    decreases |s|
  {
    if s != "" && s[0] == '\n' {
      var n := |needles[0]|;
      var p: nat :| Leads(needles[0], s, p) && Embeds(needles[1..], s[p + n..]);
      assert s[p] == needles[0][0];
      assert s[1..][p - 1..p - 1 + n] == s[p..p + n] && s[1..][p - 1 + n..] == s[p + n..];
      assert Leads(needles[0], s[1..], p - 1);
      EmbedsStripped(needles, s[1..]);
    }
  }

  // ---------------------------------------------------------------------------
  // Numbering
  // ---------------------------------------------------------------------------

  /** The different addresses, in the order of their first appearance. */
  function Distinct(cited: seq<string>): (r: seq<string>)
  {
    if cited == [] then []
    else
      var r, u := Distinct(cited[..|cited| - 1]), cited[|cited| - 1];
      if u in r then r else r + [u]
  }

  /** The addresses without the immediate repeats. */
  function Collapse(cited: seq<string>): seq<string> {
    var n := |cited|;
    if n == 0 then []
    else if n > 1 && cited[n - 2] == cited[n - 1] then Collapse(cited[..n - 1])
    else Collapse(cited[..n - 1]) + [cited[n - 1]]
  }

  lemma CitedOneMore(cited: seq<string>, u: string)
    ensures Distinct(cited + [u]) == if u in Distinct(cited) then Distinct(cited) else Distinct(cited) + [u]
    ensures Collapse(cited + [u]) == if cited != [] && cited[|cited| - 1] == u then Collapse(cited)
            else Collapse(cited) + [u]
  {
    assert (cited + [u])[..|cited + [u]| - 1] == cited;
  }

  lemma {:induction false} DistinctContents(cited: seq<string>)
    ensures forall u :: u in Distinct(cited) <==> u in cited
    ensures forall i, j :: 0 <= i < j < |Distinct(cited)| ==> Distinct(cited)[i] != Distinct(cited)[j]
  {
    if cited != [] {
      var front := cited[..|cited| - 1];
      assert cited == front + [cited[|cited| - 1]];
      DistinctContents(front);
    }
  }

  lemma {:induction false} DistinctGrows(cited: seq<string>, more: seq<string>)
    ensures Distinct(cited) <= Distinct(cited + more)
  {
    if more == [] {
      assert cited + more == cited;
    } else {
      var front := more[..|more| - 1];
      DistinctGrows(cited, front);
      assert cited + more == cited + front + [more[|more| - 1]];
      CitedOneMore(cited + front, more[|more| - 1]);
    }
  }

  /** An address gets one more than the number of different addresses before its first citation. */
  lemma FirstAppearance(cited: seq<string>, i: nat)
    requires i < |cited| && cited[i] !in cited[..i]
    ensures |Distinct(cited[..i])| < |Distinct(cited)| && Distinct(cited)[|Distinct(cited[..i])|] == cited[i]
  {
    DistinctContents(cited[..i]);
    CitedOneMore(cited[..i], cited[i]);
    assert cited == cited[..i] + [cited[i]] + cited[i + 1..];
    DistinctGrows(cited[..i] + [cited[i]], cited[i + 1..]);
  }

  function NumberText(n: nat): string {
    var digit := ['0' + (n % 10) as char];
    if n < 10 then digit else NumberText(n / 10) + digit
  }

  /** The printed form of a citation. */
  function Needle(number: nat, url: string): (r: string)
    ensures |r| > 0 && r[0] == ' '
  {
    " [[" + NumberText(number) + "]](" + url + ")"
  }

  /** number: by address; last: the number cited last, and before the
      first citation 0, which is nobody's number. */
  datatype Numbering = Numbering(order: seq<string>, number: map<string, nat>, last: nat)

  function Numbered(n: Numbering, url: string): Numbering {
    if url in n.number then n.(last := n.number[url])
    else
      var k := |n.order| + 1;
      Numbering(n.order + [url], n.number[url := k], k)
  }

  /** The numbering that a history of citations leads to. */
  function NumberingOf(cited: seq<string>): Numbering {
    if cited == [] then Numbering([], map[], 0) else Numbered(NumberingOf(cited[..|cited| - 1]), cited[|cited| - 1])
  }

  /** The number of an address is its place in the order. */
  ghost predicate PlaceIs(order: seq<string>, url: string, number: nat) {
    1 <= number <= |order| && order[number - 1] == url
  }

  ghost predicate Consistent(n: Numbering) {
    && (forall u :: u in n.number ==> PlaceIs(n.order, u, n.number[u]))
    && (forall i :: 0 <= i < |n.order| ==> n.order[i] in n.number && n.number[n.order[i]] == i + 1)
  }

  lemma NumberedConsistent(n: Numbering, url: string)
    requires Consistent(n)
    ensures Consistent(Numbered(n, url)) && n.order <= Numbered(n, url).order
    ensures url in Numbered(n, url).number && Numbered(n, url).last == Numbered(n, url).number[url]
    ensures PlaceIs(Numbered(n, url).order, url, Numbered(n, url).last)
    ensures Numbered(n, url).order == if url in n.order then n.order else n.order + [url]
  {
  }

  /** The numbering lists the distinct addresses and numbers each by its place. */
  lemma {:induction false} NumberingIsDistinct(cited: seq<string>)
    ensures NumberingOf(cited).order == Distinct(cited) && Consistent(NumberingOf(cited))
    ensures if cited == [] then NumberingOf(cited).last == 0
            else PlaceIs(Distinct(cited), cited[|cited| - 1], NumberingOf(cited).last)
  {
    if cited != [] {
      var front, u := cited[..|cited| - 1], cited[|cited| - 1];
      NumberingIsDistinct(front);
      NumberedConsistent(NumberingOf(front), u);
    }
  }

  lemma SamePlace(order: seq<string>, longer: seq<string>, u: string, k: nat, v: string, m: nat)
    requires PlaceIs(order, u, k) && PlaceIs(longer, v, m) && order <= longer
    ensures k == m ==> u == v
  {
  }

  lemma NumberingOneMore(cited: seq<string>, url: string)
    ensures NumberingOf(cited + [url]) == Numbered(NumberingOf(cited), url)
  {
    assert (cited + [url])[..|cited + [url]| - 1] == cited;
  }

  /** A citation is a repeat exactly when its number is the last one. */
  lemma {:induction false} NumberedOneMore(cited: seq<string>, url: string)
    ensures NumberingOf(cited + [url]) == Numbered(NumberingOf(cited), url)
    ensures PlaceIs(Distinct(cited + [url]), url, NumberingOf(cited + [url]).last)
    ensures NumberingOf(cited + [url]).last == NumberingOf(cited).last <==> cited != [] && cited[|cited| - 1] == url
  {
    var n := NumberingOf(cited);
    NumberingOneMore(cited, url);
    NumberingIsDistinct(cited);
    CitedOneMore(cited, url);
    NumberedConsistent(n, url);
    if cited != [] {
      var u := cited[|cited| - 1];
      SamePlace(n.order, Numbered(n, url).order, u, n.last, url, Numbered(n, url).last);
      LastIsOwn(n, u);
    }
  }

  lemma LastIsOwn(n: Numbering, u: string)
    requires Consistent(n) && PlaceIs(n.order, u, n.last)
    ensures u in n.number && n.number[u] == n.last && Numbered(n, u) == n
  {
    assert n.order[n.last - 1] == u;
  }

  // ---------------------------------------------------------------------------
  // The render tag
  // ---------------------------------------------------------------------------

  /** A tag that was read: its card, its type, and the text behind it. */
  datatype RenderTag = RenderTag(card: string, kind: string, rest: string)

  const OPEN := "<grok:render"
  const CLOSE := "</grok:render>"

  function After(prefix: string, s: string): (r: Option<string>)
    ensures r.Some? ==> |r.value| == |s| - |prefix|
  {
    if prefix <= s then Some(s[|prefix|..]) else None
  }

  /** One or more white-space characters. */
  function Blanks(s: string): (r: Option<string>)
    ensures r.Some? ==> |r.value| < |s|
  {
    if SpaceRun(s) > 0 then Some(s[SpaceRun(s)..]) else None
  }

  /** Up to the first c, which is dropped. */
  function Until(c: char, s: string): (r: Option<Split>)
    ensures r.Some? ==> |r.value.after| < |s|
  {
    var p := IndexOf([c], s);
    if p.Some? then Some(Split(s[..p.value], s[p.value + 1..])) else None
  }

  /** White space, name="…" with a value that is not empty. */
  function Attribute(name: string, s: string): (r: Option<Split>)
    ensures r.Some? ==> |r.value.after| < |s|
  {
    match Blanks(s)
    case None => None
    case Some(t) =>
      match After(name + "=\"", t)
      case None => None
      case Some(u) =>
        var v := Until('"', u);
        if v.Some? && v.value.before != "" then v else None
  }

  /** What follows the attributes: up to the first '>', and on to the first closing tag. */
  function ClosesHere(s: string): (r: Option<string>)
    ensures r.Some? ==> |r.value| < |s|
  {
    match Until('>', s)
    case None => None
    case Some(head) =>
      match IndexOf(CLOSE, head.after)
      case None => None
      case Some(p) => Some(head.after[p + |CLOSE|..])
  }

  function TypeHere(s: string, card: string): (r: Option<RenderTag>)
    ensures r.Some? ==> |r.value.rest| < |s|
  {
    match Attribute("type", s)
    case None => None
    case Some(kind) =>
      match ClosesHere(kind.after)
      case None => None
      case Some(rest) => Some(RenderTag(card, kind.before, rest))
  }

  /** A render tag at the head of s. */
  function TagHere(s: string): (r: Option<RenderTag>)
    ensures r.Some? ==> |r.value.rest| < |s|
  {
    match After(OPEN, s)
    case None => None
    case Some(s1) =>
      match Attribute("card_id", s1)
      case None => None
      case Some(card) =>
        match Attribute("card_type", card.after)
        case None => None
        case Some(sort) => TypeHere(sort.after, card.before)
  }

  // ---------------------------------------------------------------------------
  // Replacing tags
  // ---------------------------------------------------------------------------

  datatype Source = Source(url: string, title: string)

  /** What the printer reads of a cached card. */
  datatype Card = Card(url: string, title: string, imageTitle: string, thumbnail: string, link: string)

  datatype Cite = Cite(url: string, title: string, needle: string)

  datatype Sub = Sub(text: string, numbering: Numbering, cites: seq<Cite>)

  /** The address a tag cites. */
  function CitedBy(t: RenderTag, cards: map<string, Card>): Option<string> {
    if t.kind == "render_inline_citation" && t.card in cards && cards[t.card].url != ""
    then Some(cards[t.card].url)
    else None
  }

  function ImageText(c: Card): string {
    var image := "![" + c.imageTitle + "](" + c.thumbnail + ")";
    if c.link != "" then "[" + image + "](" + c.link + ")" else image
  }

  function TitleOf(card: Card, sources: seq<Source>): string
    decreases |sources|
  {
    if card.title != "" then card.title
    else if sources == [] then card.url
    else if sources[0].url == card.url then (if sources[0].title != "" then sources[0].title else card.url)
    else TitleOf(card, sources[1..])
  }

  function Replacement(t: RenderTag, cards: map<string, Card>, sources: seq<Source>, n: Numbering): Sub {
    var url := CitedBy(t, cards);
    if url.Some? then
      var n' := Numbered(n, url.value);
      if n'.last == n.last then Sub("", n, [])
      else
        var needle := Needle(n'.last, url.value);
        Sub(needle, n', [Cite(url.value, TitleOf(cards[t.card], sources), needle)])
    else if t.kind == "render_searched_image" && t.card in cards then Sub(ImageText(cards[t.card]), n, [])
    else Sub("", n, [])
  }

  function Substitute(s: string, cards: map<string, Card>, sources: seq<Source>, n: Numbering): Sub
    decreases |s|
  {
    var t := TagHere(s);
    if s == "" then Sub("", n, [])
    else if t.None? then
      var rest := Substitute(s[1..], cards, sources, n);
      rest.(text := [s[0]] + rest.text)
    else
      var here := Replacement(t.value, cards, sources, n);
      var rest := Substitute(t.value.rest, cards, sources, here.numbering);
      Sub(here.text + rest.text, rest.numbering, here.cites + rest.cites)
  }

  /** The addresses cited in a text, in order. */
  function CitedIn(s: string, cards: map<string, Card>): seq<string>
    decreases |s|
  {
    var t := TagHere(s);
    if s == "" then []
    else if t.None? then CitedIn(s[1..], cards)
    else
      CitedHere(t.value, cards) + CitedIn(t.value.rest, cards)
  }

  function Urls(cites: seq<Cite>): (r: seq<string>)
    ensures |r| == |cites| && forall j :: 0 <= j < |r| ==> r[j] == cites[j].url
  {
    seq(|cites|, j requires 0 <= j < |cites| => cites[j].url)
  }

  function Needles(cites: seq<Cite>): (r: seq<string>)
    ensures |r| == |cites| && forall j :: 0 <= j < |r| ==> r[j] == cites[j].needle
  {
    seq(|cites|, j requires 0 <= j < |cites| => cites[j].needle)
  }

  /** The printed form carries the address's place in the order. */
  ghost predicate Labelled(url: string, needle: string, order: seq<string>) {
    exists k :: PlaceIs(order, url, k) && needle == Needle(k, url)
  }

  ghost predicate AllLabelled(cites: seq<Cite>, order: seq<string>) {
    forall j :: 0 <= j < |cites| ==> Labelled(cites[j].url, cites[j].needle, order)
  }

  lemma LabelledLonger(url: string, needle: string, order: seq<string>, longer: seq<string>)
    requires Labelled(url, needle, order) && order <= longer
    ensures Labelled(url, needle, longer)
  {
    var k :| PlaceIs(order, url, k) && needle == Needle(k, url);
    assert PlaceIs(longer, url, k);
  }

  /** What a replacement has to do with the history of citations. */
  ghost predicate Follows(r: Sub, cited: seq<string>, more: seq<string>) {
    && r.numbering == NumberingOf(cited + more)
    && Collapse(cited + more) == Collapse(cited) + Urls(r.cites)
    && AllLabelled(r.cites, Distinct(cited + more))
    && Embeds(Needles(r.cites), r.text)
  }

  function CitedHere(t: RenderTag, cards: map<string, Card>): seq<string> {
    if CitedBy(t, cards).Some? then [CitedBy(t, cards).value] else []
  }

  /** A replacement that prints no citation. */
  lemma PlainFollows(text: string, cited: seq<string>)
    ensures Follows(Sub(text, NumberingOf(cited), []), cited, [])
  {
    assert cited + [] == cited && Collapse(cited) + Urls([]) == Collapse(cited);
  }

  lemma NothingPrinted(n: Numbering, cited: seq<string>, more: seq<string>)
    requires n == NumberingOf(cited + more) && Collapse(cited + more) == Collapse(cited)
    ensures Follows(Sub("", n, []), cited, more)
  {
    assert Collapse(cited) + Urls([]) == Collapse(cited);
  }

  lemma RepeatFollows(cited: seq<string>, url: string)
    requires Numbered(NumberingOf(cited), url).last == NumberingOf(cited).last
    ensures Follows(Sub("", NumberingOf(cited), []), cited, [url])
  {
    NumberedOneMore(cited, url);
    CitedOneMore(cited, url);
    NumberingIsDistinct(cited);
    LastIsOwn(NumberingOf(cited), url);
    NothingPrinted(NumberingOf(cited), cited, [url]);
  }

  lemma OneCite(c: Cite)
    ensures Urls([c]) == [c.url] && Needles([c]) == [c.needle] && Embeds(Needles([c]), c.needle)
  {
    assert Urls([c]) == [c.url] && Needles([c]) == [c.needle];
    EmbedsItself(c.needle);
  }

  lemma PrintedFollows(cited: seq<string>, url: string, title: string, k: nat)
    requires k == Numbered(NumberingOf(cited), url).last != NumberingOf(cited).last
    ensures Follows(Sub(Needle(k, url), Numbered(NumberingOf(cited), url), [Cite(url, title, Needle(k, url))]), cited,
            [url])
  {
    var c := Cite(url, title, Needle(k, url));
    NumberedOneMore(cited, url);
    CitedOneMore(cited, url);
    assert Labelled(url, c.needle, Distinct(cited + [url]));
    OneCite(c);
  }

  lemma ReplacementFollows(t: RenderTag, cards: map<string, Card>, sources: seq<Source>, cited: seq<string>)
    ensures Follows(Replacement(t, cards, sources, NumberingOf(cited)), cited, CitedHere(t, cards))
    ensures var r := Replacement(t, cards, sources, NumberingOf(cited));
            |r.cites| <= 1 && (r.cites != [] ==> r.cites[0].needle == r.text)
  {
    var url, n := CitedBy(t, cards), NumberingOf(cited);
    if url.None? {
      PlainFollows(Replacement(t, cards, sources, n).text, cited);
    } else if Numbered(n, url.value).last == n.last {
      RepeatFollows(cited, url.value);
    } else {
      PrintedFollows(cited, url.value, TitleOf(cards[t.card], sources), Numbered(n, url.value).last);
    }
  }

  lemma EmbedsBoth(first: seq<Cite>, rest: seq<Cite>, text: string, more: string)
    requires |first| <= 1 && (first != [] ==> first[0].needle == text) && Embeds(Needles(rest), more)
    ensures Embeds(Needles(first + rest), text + more)
  {
    if first == [] {
      assert first + rest == rest;
      EmbedsAfter(Needles(rest), text, more);
    } else {
      EmbedsMore(text, Needles(rest), more);
      assert Needles(first + rest) == [text] + Needles(rest);
    }
  }

  lemma UrlsOfBoth(a: seq<Cite>, b: seq<Cite>)
    ensures Urls(a + b) == Urls(a) + Urls(b)
  {
  }

  lemma JoinThree(a: seq<string>, b: seq<string>, c: seq<string>)
    ensures a + (b + c) == a + b + c
  {
  }

  lemma LabelledBoth(a: seq<Cite>, b: seq<Cite>, order: seq<string>, longer: seq<string>)
    requires AllLabelled(a, order) && AllLabelled(b, longer) && order <= longer
    ensures AllLabelled(a + b, longer)
  {
    forall j | 0 <= j < |a| ensures Labelled(a[j].url, a[j].needle, longer) {
      LabelledLonger(a[j].url, a[j].needle, order, longer);
    }
  }

  /** One replacement after another. */
  lemma FollowsBoth(a: Sub, b: Sub, cited: seq<string>, x: seq<string>, y: seq<string>)
    requires Follows(a, cited, x) && Follows(b, cited + x, y)
    requires |a.cites| <= 1 && (a.cites != [] ==> a.cites[0].needle == a.text)
    ensures Follows(Sub(a.text + b.text, b.numbering, a.cites + b.cites), cited, x + y)
  {
    assert cited + (x + y) == cited + x + y;
    UrlsOfBoth(a.cites, b.cites);
    JoinThree(Collapse(cited), Urls(a.cites), Urls(b.cites));
    EmbedsBoth(a.cites, b.cites, a.text, b.text);
    DistinctGrows(cited + x, y);
    LabelledBoth(a.cites, b.cites, Distinct(cited + x), Distinct(cited + x + y));
  }

  /** Substitution over a whole token keeps the numbering in step with the history, prints one
      citation for each cited address that is not an immediate repeat, and labels it. */
  lemma {:induction false} SubstituteFollows(s: string, cards: map<string, Card>, sources: seq<Source>,
                                             cited: seq<string>)
    ensures Follows(Substitute(s, cards, sources, NumberingOf(cited)), cited, CitedIn(s, cards))
    decreases |s|
  {
    var t, n := TagHere(s), NumberingOf(cited);
    if s == "" {
      PlainFollows("", cited);
    } else if t.None? {
      SubstituteFollows(s[1..], cards, sources, cited);
      var rest := Substitute(s[1..], cards, sources, n);
      EmbedsAfter(Needles(rest.cites), [s[0]], rest.text);
    } else {
      var here := Replacement(t.value, cards, sources, n);
      var x, rest := CitedHere(t.value, cards), t.value.rest;
      ReplacementFollows(t.value, cards, sources, cited);
      SubstituteFollows(rest, cards, sources, cited + x);
      FollowsBoth(here, Substitute(rest, cards, sources, here.numbering), cited, x, CitedIn(rest, cards));
    }
  }

  /** A text without the opening of a tag cites nothing. */
  lemma {:induction false} NothingCited(s: string, cards: map<string, Card>)
    requires IndexOf(OPEN, s).None?
    ensures CitedIn(s, cards) == []
    decreases |s|
  {
    if s != "" {
      NothingCited(s[1..], cards);
    }
  }

  // ---------------------------------------------------------------------------
  // Cleaning a token
  // ---------------------------------------------------------------------------

  function Cleaned(token: string, cards: map<string, Card>, sources: seq<Source>, n: Numbering): Sub {
    if IndexOf(OPEN, token).None? then Sub(token, n, [])
    else
      var r := Substitute(token, cards, sources, n);
      if r.text != "" && r.text[0] == '\n' && IndexOf("[[", r.text).Some? then r.(text := StripNewlines(r.text)) else r
  }

  /** Cleaning keeps the promises of substitution. */
  lemma {:induction false} CleanedFollows(token: string, cards: map<string, Card>, sources: seq<Source>,
                                          cited: seq<string>)
    ensures Follows(Cleaned(token, cards, sources, NumberingOf(cited)), cited, CitedIn(token, cards))
  {
    if IndexOf(OPEN, token).None? {
      NothingCited(token, cards);
      PlainFollows(token, cited);
    } else {
      SubstituteFollows(token, cards, sources, cited);
      var r := Substitute(token, cards, sources, NumberingOf(cited));
      if r.cites != [] {
        assert Labelled(r.cites[0].url, r.cites[0].needle, Distinct(cited + CitedIn(token, cards)));
        EmbedsStripped(Needles(r.cites), r.text);
      }
    }
  }

  datatype Spot = Spot(cite: Cite, start: nat, end: nat)

  ghost predicate Marks(spot: Spot, text: string) {
    spot.start <= spot.end <= |text| && text[spot.start..spot.end] == spot.cite.needle
  }

  /** The search for one citation, from a given place on. */
  function FindFrom(needle: string, text: string, from: nat): (p: Option<nat>)
    requires from <= |text|
    ensures p.Some? ==> from <= p.value && p.value + |needle| <= |text| && text[p.value..p.value + |needle|] == needle
  {
    var p := IndexOf(needle, text[from..]);
    if p.Some? then
      assert text[from..][p.value..p.value + |needle|] == text[from + p.value..from + p.value + |needle|];
      Some(from + p.value)
    else None
  }

  lemma NeedlesFrom(cites: seq<Cite>, k: nat)
    requires k < |cites|
    ensures Needles(cites[k..]) != [] && Needles(cites[k..])[0] == cites[k].needle
    ensures Needles(cites[k..])[1..] == Needles(cites[k + 1..])
  {
  }

  lemma {:induction false} FoundAt(needle: string, text: string, from: nat, i: nat)
    requires from <= |text| && IndexOf(needle, text[from..]) == Some(i)
    ensures FindFrom(needle, text, from) == Some(from + i) && from + i + |needle| <= |text|
    ensures text[from..][i + |needle|..] == text[from + i + |needle|..]
  {
  }

  lemma {:induction false} FoundNext(needles: seq<string>, text: string, from: nat) returns (p: nat)
    requires needles != [] && from <= |text| && Embeds(needles, text[from..])
    ensures FindFrom(needles[0], text, from) == Some(p) && p + |needles[0]| <= |text|
    ensures Embeds(needles[1..], text[p + |needles[0]|..])
  {
    EmbedsGreedily(needles, text[from..]);
    var i := IndexOf(needles[0], text[from..]).value;
    FoundAt(needles[0], text, from, i);
    p := from + i;
  }

  /** The spots mark their citations, in order, without overlap, and end by the given place. */
  ghost predicate Spotted(spots: seq<Spot>, text: string, end: nat) {
    if spots == [] then true
    else
      var s := spots[|spots| - 1];
      Spotted(spots[..|spots| - 1], text, s.start) && Marks(s, text) && s.end <= end
  }

  lemma {:induction false} SpottedAt(spots: seq<Spot>, text: string, end: nat, j: nat)
    requires Spotted(spots, text, end) && j < |spots|
    ensures Marks(spots[j], text) && spots[j].end <= end
  {
    if j < |spots| - 1 {
      SpottedAt(spots[..|spots| - 1], text, spots[|spots| - 1].start, j);
    }
  }

  lemma {:induction false} SpottedInOrder(spots: seq<Spot>, text: string, end: nat, i: nat, j: nat)
    requires Spotted(spots, text, end) && i < j < |spots|
    ensures spots[i].end <= spots[j].start
  {
    var front, s := spots[..|spots| - 1], spots[|spots| - 1];
    if j < |spots| - 1 {
      SpottedInOrder(front, text, s.start, i, j);
    } else {
      SpottedAt(front, text, s.start, i);
    }
  }

  lemma SpottedOneMore(spots: seq<Spot>, s: Spot, text: string, from: nat)
    requires Spotted(spots, text, from) && Marks(s, text) && from <= s.start
    ensures Spotted(spots + [s], text, s.end)
  {
    assert (spots + [s])[..|spots + [s]| - 1] == spots;
    SpottedBy(spots, text, from, s.start);
  }

  lemma SpottedBy(spots: seq<Spot>, text: string, from: nat, end: nat)
    requires Spotted(spots, text, from) && from <= end
    ensures Spotted(spots, text, end)
  {
  }

  ghost predicate AreOf(spots: seq<Spot>, cites: seq<Cite>) {
    |spots| == |cites| && forall j :: 0 <= j < |spots| ==> spots[j].cite == cites[j]
  }

  /** The search for the citations from number k on, each behind the one before. */
  function Located(text: string, cites: seq<Cite>, k: nat, from: nat, spots: seq<Spot>): seq<Spot>
    requires k <= |cites| && from <= |text|
    decreases |cites| - k
  {
    if k == |cites| then spots
    else
      match FindFrom(cites[k].needle, text, from)
      case None => Located(text, cites, k + 1, from, spots)
      case Some(p) =>
        var end := p + |cites[k].needle|;
        Located(text, cites, k + 1, end, spots + [Spot(cites[k], p, end)])
  }

  lemma {:induction false} LocatedOneMore(text: string, cites: seq<Cite>, k: nat, from: nat, spots: seq<Spot>, p: nat)
    requires k < |cites| && from <= |text| && FindFrom(cites[k].needle, text, from) == Some(p)
    ensures var end := p + |cites[k].needle|;
            Located(text, cites, k, from, spots) == Located(text, cites, k + 1, end, spots + [Spot(cites[k], p, end)])
  {
  }

  lemma {:induction false} LocatedMarks(text: string, cites: seq<Cite>, k: nat, from: nat, spots: seq<Spot>)
    requires k <= |cites| && from <= |text| && Spotted(spots, text, from)
    ensures Spotted(Located(text, cites, k, from, spots), text, |text|)
    decreases |cites| - k
  {
    if k == |cites| {
      SpottedBy(spots, text, from, |text|);
    } else {
      var p := FindFrom(cites[k].needle, text, from);
      if p.None? {
        LocatedMarks(text, cites, k + 1, from, spots);
      } else {
        var spot := Spot(cites[k], p.value, p.value + |cites[k].needle|);
        SpottedOneMore(spots, spot, text, from);
        LocatedOneMore(text, cites, k, from, spots, p.value);
        LocatedMarks(text, cites, k + 1, spot.end, spots + [spot]);
      }
    }
  }

  lemma AreOfOneMore(spots: seq<Spot>, cites: seq<Cite>, k: nat, spot: Spot)
    requires k < |cites| && AreOf(spots, cites[..k]) && spot.cite == cites[k]
    ensures AreOf(spots + [spot], cites[..k + 1])
  {
  }

  lemma {:induction false} LocatedAll(text: string, cites: seq<Cite>, k: nat, from: nat, spots: seq<Spot>)
    requires k <= |cites| && from <= |text|
    requires Embeds(Needles(cites[k..]), text[from..]) && AreOf(spots, cites[..k])
    ensures AreOf(Located(text, cites, k, from, spots), cites)
    decreases |cites| - k
  {
    if k == |cites| {
      assert cites[..k] == cites;
    } else {
      NeedlesFrom(cites, k);
      var p := FoundNext(Needles(cites[k..]), text, from);
      var spot := Spot(cites[k], p, p + |cites[k].needle|);
      LocatedOneMore(text, cites, k, from, spots, p);
      AreOfOneMore(spots, cites, k, spot);
      LocatedAll(text, cites, k + 1, spot.end, spots + [spot]);
    }
  }

  /** Every citation printed in the text is found, in order, without overlap. */
  method Locate(text: string, cites: seq<Cite>) returns (spots: seq<Spot>)
    ensures spots == Located(text, cites, 0, 0, [])
    ensures Spotted(spots, text, |text|)
    ensures Embeds(Needles(cites), text) ==> AreOf(spots, cites)
  {
    spots := Search(text, cites);
    LocatedIsExact(text, cites);
  }

  lemma LocatedIsExact(text: string, cites: seq<Cite>)
    ensures Spotted(Located(text, cites, 0, 0, []), text, |text|)
    ensures Embeds(Needles(cites), text) ==> AreOf(Located(text, cites, 0, 0, []), cites)
  {
    LocatedMarks(text, cites, 0, 0, []);
    if Embeds(Needles(cites), text) {
      assert cites[0..] == cites && text[0..] == text && cites[..0] == [];
      LocatedAll(text, cites, 0, 0, []);
    }
  }

  method Search(text: string, cites: seq<Cite>) returns (spots: seq<Spot>)
    ensures spots == Located(text, cites, 0, 0, [])
  {
    spots := [];
    var from: nat := 0;
    for k := 0 to |cites|
      invariant from <= |text|
      invariant Located(text, cites, k, from, spots) == Located(text, cites, 0, 0, [])
    {
      var p := FindFrom(cites[k].needle, text, from);
      if p.Some? {
        var end := p.value + |cites[k].needle|;
        spots, from := spots + [Spot(cites[k], p.value, end)], end;
      }
    }
  }
}
