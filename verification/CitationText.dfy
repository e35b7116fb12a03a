// What a cleaned token says: the plain text as it was, and each render tag replaced by what it shows.
module CitationText {
  import opened AccountModels
  import opened ToolText
  import opened Citations
  import opened RenderTags

  /** A stretch of plain text, or a render tag. */
  datatype Part = Stretch(text: string) | Marked(card: string, kind: string)

  /** The token is these parts one after the other; no tag starts inside plain text. */
  ghost predicate Reads(token: string, parts: seq<Part>)
    decreases |parts|
  {
    if parts == [] then token == ""
    else match parts[0]
      case Stretch(text) => text <= token && NoTagWithin(token, |text|) && Reads(token[|text|..], parts[1..])
      case Marked(card, kind) => exists rest :: TagForm(token, card, kind, rest) && Reads(rest, parts[1..])
  }

  ghost predicate NoTagWithin(token: string, n: nat)
    requires n <= |token|
  {
    forall p :: 0 <= p < n ==> !StartsTag(token[p..])
  }

  /** Every token can be read. */
  lemma {:induction false} Readable(token: string) returns (parts: seq<Part>)
    ensures Reads(token, parts)
    decreases |token|
  {
    StartsExact(token);
    if token == "" {
      parts := [];
    } else if TagHere(token).Some? {
      var t := TagHere(token).value;
      TagHereExact(token, t.card, t.kind, t.rest);
      var rest := Readable(t.rest);
      parts := [Marked(t.card, t.kind)] + rest;
      assert parts[1..] == rest;
    } else {
      var rest := Readable(token[1..]);
      parts := [Stretch(token[..1])] + rest;
      assert parts[1..] == rest && token[0..] == token;
    }
  }

  /** What a tag shows after some citations, and the citations then: a citation is printed with the
      number of its address unless it repeats the last one; an image is printed with its title,
      thumbnail and link; anything else shows nothing. */
  ghost predicate TagShows(card: string, kind: string, cards: map<string, Card>, cited: seq<string>, shown: string,
                           after: seq<string>) {
    if kind == "render_inline_citation" && card in cards && cards[card].url != "" then
      var url := cards[card].url;
      && after == cited + [url]
      && (if cited != [] && cited[|cited| - 1] == url then shown == ""
          else exists k :: PlaceIs(Distinct(after), url, k) && shown == " [[" + NumberText(k) + "]](" + url + ")")
    else
      && after == cited
      && shown == if kind == "render_searched_image" && card in cards then ImageMarkdown(cards[card]) else ""
  }

  function ImageMarkdown(c: Card): string {
    if c.link == "" then "![" + c.imageTitle + "](" + c.thumbnail + ")"
    else "[" + ("![" + c.imageTitle + "](" + c.thumbnail + ")") + "](" + c.link + ")"
  }

  /** The text is that of the parts, one after the other. */
  ghost predicate Shows(parts: seq<Part>, cards: map<string, Card>, cited: seq<string>, text: string)
    decreases |parts|
  {
    if parts == [] then text == ""
    else match parts[0]
      case Stretch(t) => t <= text && Shows(parts[1..], cards, cited, text[|t|..])
      case Marked(card, kind) =>
        exists shown, after ::
          TagShows(card, kind, cards, cited, shown, after) && shown <= text
          && Shows(parts[1..], cards, after, text[|shown|..])
  }

  lemma {:induction false} ReplacementShows(t: RenderTag, cards: map<string, Card>, sources: seq<Source>,
                                            cited: seq<string>)
    ensures TagShows(t.card, t.kind, cards, cited, Replacement(t, cards, sources, NumberingOf(cited)).text,
              cited + CitedHere(t, cards))
  {
    assert cited + [] == cited;
    if CitedBy(t, cards).Some? {
      var url := CitedBy(t, cards).value;
      NumberedOneMore(cited, url);
    }
  }

  lemma {:induction false} OneCharPasses(token: string, cards: map<string, Card>, sources: seq<Source>, n: Numbering)
    requires token != "" && TagHere(token).None?
    ensures Substitute(token, cards, sources, n).text == [token[0]] + Substitute(token[1..], cards, sources, n).text
  {
  }

  lemma {:induction false} NoTagAhead(token: string, n: nat)
    requires 0 < n <= |token| && NoTagWithin(token, n)
    ensures TagHere(token).None? && NoTagWithin(token[1..], n - 1)
  {
    assert token[0..] == token;
    StartsExact(token);
    forall p | 0 <= p < n - 1 ensures !StartsTag(token[1..][p..]) {
      assert token[1..][p..] == token[p + 1..];
    }
  }

  lemma {:induction false} PlainPasses(n: nat, token: string, cards: map<string, Card>, sources: seq<Source>,
                                       m: Numbering)
    requires n <= |token| && NoTagWithin(token, n)
    ensures Substitute(token, cards, sources, m).text
            == token[..n] + Substitute(token[n..], cards, sources, m).text
    decreases n
  {
    if n == 0 {
      assert token[0..] == token;
    } else {
      NoTagAhead(token, n);
      OneCharPasses(token, cards, sources, m);
      PlainPasses(n - 1, token[1..], cards, sources, m);
      PiecesPass(token, n, Substitute(token[n..], cards, sources, m).text);
      assert token[1..][n - 1..] == token[n..];
    }
  }

  lemma PiecesPass(token: string, n: nat, rest: string)
    requires 0 < n <= |token|
    ensures [token[0]] + (token[1..][..n - 1] + rest) == token[..n] + rest
  {
  }

  lemma PrefixAndRest(a: string, b: string)
    ensures a <= a + b && (a + b)[|a|..] == b
  {
  }

  lemma StretchShows(parts: seq<Part>, cards: map<string, Card>, cited: seq<string>, t: string, rest: string)
    requires parts != [] && parts[0] == Stretch(t) && Shows(parts[1..], cards, cited, rest)
    ensures Shows(parts, cards, cited, t + rest)
  {
    PrefixAndRest(t, rest);
  }

  lemma MarkedShows(parts: seq<Part>, cards: map<string, Card>, cited: seq<string>, shown: string, after: seq<string>,
                    rest: string)
    requires parts != [] && parts[0].Marked? && Shows(parts[1..], cards, after, rest)
    requires TagShows(parts[0].card, parts[0].kind, cards, cited, shown, after)
    ensures Shows(parts, cards, cited, shown + rest)
  {
    PrefixAndRest(shown, rest);
  }

  /** Substitution shows the parts of a token, however it is read. */
  lemma {:induction false} SubstituteShows(token: string, parts: seq<Part>, cards: map<string, Card>,
                                           sources: seq<Source>, cited: seq<string>)
    requires Reads(token, parts)
    ensures Shows(parts, cards, cited, Substitute(token, cards, sources, NumberingOf(cited)).text)
    decreases |parts|
  {
    if parts == [] {
    } else if parts[0].Stretch? {
      var t := parts[0].text;
      var rest := token[|t|..];
      PlainPasses(|t|, token, cards, sources, NumberingOf(cited));
      SubstituteShows(rest, parts[1..], cards, sources, cited);
      StretchShows(parts, cards, cited, t, Substitute(rest, cards, sources, NumberingOf(cited)).text);
    } else {
      var rest :| TagForm(token, parts[0].card, parts[0].kind, rest) && Reads(rest, parts[1..]);
      var t := RenderTag(parts[0].card, parts[0].kind, rest);
      var after := cited + CitedHere(t, cards);
      TagHereExact(token, t.card, t.kind, rest);
      SubstituteShows(rest, parts[1..], cards, sources, after);
      var shown := TagSubstituted(token, t, cards, sources, cited);
      MarkedShows(parts, cards, cited, shown, after, Substitute(rest, cards, sources, NumberingOf(after)).text);
    }
  }

  lemma {:induction false} TagSubstituted(token: string, t: RenderTag, cards: map<string, Card>, sources: seq<Source>,
                                          cited: seq<string>) returns (shown: string)
    requires TagHere(token) == Some(t)
    ensures TagShows(t.card, t.kind, cards, cited, shown, cited + CitedHere(t, cards))
    ensures Substitute(token, cards, sources, NumberingOf(cited)).text
            == shown + Substitute(t.rest, cards, sources, NumberingOf(cited + CitedHere(t, cards))).text
  {
    shown := Replacement(t, cards, sources, NumberingOf(cited)).text;
    ReplacementShows(t, cards, sources, cited);
    ReplacementFollows(t, cards, sources, cited);
  }

  // ---------------------------------------------------------------------------
  // The cleaned token
  // ---------------------------------------------------------------------------

  ghost predicate Contains(s: string, needle: string) { exists p :: Leads(needle, s, p) }

  ghost predicate NewlinesBefore(s: string, text: string) {
    exists n: nat :: n <= |s| && s[n..] == text && (forall i :: 0 <= i < n ==> s[i] == '\n') && !("\n" <= text)
  }

  /** What is sent of what a token shows: all of it, except that leading newlines go when the token
      has the opening of a tag and the text a double bracket. */
  ghost predicate Trimmed(token: string, shown: string, text: string) {
    if Contains(token, TAG_START) && "\n" <= shown && Contains(shown, "[[") then NewlinesBefore(shown, text)
       else text == shown
  }

  /** The text sent for a token. */
  ghost predicate Sent(token: string, cards: map<string, Card>, cited: seq<string>, text: string) {
    exists shown :: Trimmed(token, shown, text) && forall parts :: Reads(token, parts) ==>
      Shows(parts, cards, cited, shown)
  }

  lemma {:induction false} ContainsExact(s: string, needle: string)
    ensures Contains(s, needle) <==> IndexOf(needle, s).Some?
  {
    if IndexOf(needle, s).Some? {
      assert Leads(needle, s, IndexOf(needle, s).value);
    }
    if p :| Leads(needle, s, p) {
      IndexOfIsFirst(needle, s, p);
    }
  }

  lemma {:induction false} NewlinesStripped(s: string)
    ensures NewlinesBefore(s, StripNewlines(s))
  {
    if s != "" && s[0] == '\n' {
      NewlinesStripped(s[1..]);
      var text := StripNewlines(s);
      var n: nat :| n <= |s[1..]| && s[1..][n..] == text && forall i :: 0 <= i < n ==> s[1..][i] == '\n';
      assert s[n + 1..] == text;
      forall i | 0 <= i < n + 1 ensures s[i] == '\n' {
        assert i > 0 ==> s[i] == s[1..][i - 1];
      }
    } else {
      assert s[0..] == s;
    }
  }

  /** Without the opening of a tag nothing is a tag. */
  lemma {:induction false} NoTagWithoutOpening(token: string)
    requires !Contains(token, TAG_START)
    ensures NoTagWithin(token, |token|)
  {
    forall p: nat | p < |token| && StartsTag(token[p..]) ensures false {
      assert Leads(TAG_START, token, p);
    }
  }

  lemma {:induction false} NothingSubstituted(token: string, cards: map<string, Card>, sources: seq<Source>,
                                              n: Numbering)
    requires !Contains(token, TAG_START)
    ensures Substitute(token, cards, sources, n).text == token
  {
    NoTagWithoutOpening(token);
    PlainPasses(|token|, token, cards, sources, n);
    assert token[|token|..] == "" && token[..|token|] == token;
  }

  /** Cleaning sends what the token shows, up to leading newlines. */
  lemma {:induction false} CleanedIsSent(token: string, cards: map<string, Card>, sources: seq<Source>,
                                         cited: seq<string>)
    ensures Sent(token, cards, cited, Cleaned(token, cards, sources, NumberingOf(cited)).text)
  {
    var shown := Substitute(token, cards, sources, NumberingOf(cited)).text;
    forall parts | Reads(token, parts) ensures Shows(parts, cards, cited, shown) {
      SubstituteShows(token, parts, cards, sources, cited);
    }
    ContainsExact(token, TAG_START);
    ContainsExact(shown, "[[");
    NewlinesStripped(shown);
    if !Contains(token, TAG_START) {
      NothingSubstituted(token, cards, sources, NumberingOf(cited));
    }
    assert Trimmed(token, shown, Cleaned(token, cards, sources, NumberingOf(cited)).text);
  }

  /** A token without the opening of a tag is sent unchanged. */
  lemma {:induction false} PlainIsSent(token: string, cards: map<string, Card>, cited: seq<string>, text: string)
    requires !Contains(token, TAG_START)
    ensures Sent(token, cards, cited, text) <==> text == token
  {
    var parts := [Stretch(token)];
    NoTagWithoutOpening(token);
    assert token[|token|..] == "" && parts[1..] == [];
    assert Reads(token, parts);
    forall shown ensures Shows(parts, cards, cited, shown) <==> shown == token {
      if token <= shown {
        assert shown == token + shown[|token|..];
      }
    }
    if text == token {
      PlainShows(token, cards, cited);
    }
  }

  lemma {:induction false} PlainShows(token: string, cards: map<string, Card>, cited: seq<string>)
    requires !Contains(token, TAG_START)
    ensures Sent(token, cards, cited, token)
  {
    forall parts | Reads(token, parts) ensures Shows(parts, cards, cited, token) {
      SubstituteShows(token, parts, cards, [], cited);
      NothingSubstituted(token, cards, [], NumberingOf(cited));
    }
    assert Trimmed(token, token, token);
  }

  // ---------------------------------------------------------------------------
  // Numbers and titles
  // ---------------------------------------------------------------------------

  predicate IsDigit(c: char) { '0' <= c <= '9' }

  function DigitValue(c: char): nat
    requires IsDigit(c)
  {
    c as int - '0' as int
  }

  function DecimalValue(s: string): nat
    requires forall i :: 0 <= i < |s| ==> IsDigit(s[i])
  {
    if s == "" then 0 else DecimalValue(s[..|s| - 1]) * 10 + DigitValue(s[|s| - 1])
  }

  /** A printed number is its decimal form, without leading zeros. */
  lemma {:induction false} NumberReads(n: nat)
    ensures var s := NumberText(n);
            && s != "" && (forall i :: 0 <= i < |s| ==> IsDigit(s[i])) && DecimalValue(s) == n
            && (n > 0 ==> s[0] != '0')
  {
    var s := NumberText(n);
    assert IsDigit(s[|s| - 1]) && DigitValue(s[|s| - 1]) == n % 10;
    if n >= 10 {
      NumberReads(n / 10);
      assert s[..|s| - 1] == NumberText(n / 10) && s[0] == NumberText(n / 10)[0];
    } else {
      assert s[..|s| - 1] == "";
    }
  }

  ghost predicate FirstWith(sources: seq<Source>, url: string, i: int) {
    0 <= i < |sources| && sources[i].url == url && forall j :: 0 <= j < i ==> sources[j].url != url
  }

  /** The title of a citation: the card's own, else that of the first search result with its address,
      else the address. */
  ghost predicate Titled(card: Card, sources: seq<Source>, title: string) {
    if card.title != "" then title == card.title
    else
      && (forall i :: FirstWith(sources, card.url, i) ==>
            title == if sources[i].title == "" then card.url else sources[i].title)
      && ((forall i :: 0 <= i < |sources| ==> sources[i].url != card.url) ==> title == card.url)
  }

  lemma {:induction false} TitleIsRight(card: Card, sources: seq<Source>)
    ensures Titled(card, sources, TitleOf(card, sources))
    decreases |sources|
  {
    if card.title == "" && sources != [] && sources[0].url != card.url {
      TitleIsRight(card, sources[1..]);
      forall i | FirstWith(sources, card.url, i)
        ensures TitleOf(card, sources) == if sources[i].title == "" then card.url else sources[i].title
      {
        assert i > 0 && sources[1..][i - 1] == sources[i];
        assert FirstWith(sources[1..], card.url, i - 1);
      }
      if forall i :: 0 <= i < |sources| ==> sources[i].url != card.url {
        assert forall i :: 0 <= i < |sources[1..]| ==> sources[1..][i] == sources[i + 1];
      }
    }
  }

  /** Every citation names a card by its address and carries the card's title. */
  ghost predicate AllTitled(cites: seq<Cite>, cards: map<string, Card>, sources: seq<Source>) {
    forall j :: 0 <= j < |cites| ==> CiteTitled(cites[j], cards, sources)
  }

  ghost predicate CiteTitled(c: Cite, cards: map<string, Card>, sources: seq<Source>) {
    c.url != "" && exists id :: id in cards && cards[id].url == c.url && Titled(cards[id], sources, c.title)
  }

  lemma {:induction false} SubstituteTitles(s: string, cards: map<string, Card>, sources: seq<Source>, n: Numbering)
    ensures AllTitled(Substitute(s, cards, sources, n).cites, cards, sources)
    decreases |s|
  {
    var t := TagHere(s);
    if s == "" {
    } else if t.None? {
      SubstituteTitles(s[1..], cards, sources, n);
    } else {
      var here := Replacement(t.value, cards, sources, n);
      ReplacementTitled(t.value, cards, sources, n);
      SubstituteTitles(t.value.rest, cards, sources, here.numbering);
      BothTitled(here.cites, Substitute(t.value.rest, cards, sources, here.numbering).cites, cards, sources);
    }
  }

  lemma BothTitled(a: seq<Cite>, b: seq<Cite>, cards: map<string, Card>, sources: seq<Source>)
    requires AllTitled(a, cards, sources) && AllTitled(b, cards, sources)
    ensures AllTitled(a + b, cards, sources)
  {
  }

  lemma {:induction false} ReplacementTitled(t: RenderTag, cards: map<string, Card>, sources: seq<Source>, n: Numbering)
    ensures AllTitled(Replacement(t, cards, sources, n).cites, cards, sources)
  {
    if t.card in cards {
      TitleIsRight(cards[t.card], sources);
    }
  }

  lemma {:induction false} CleanedTitles(token: string, cards: map<string, Card>, sources: seq<Source>, n: Numbering)
    ensures AllTitled(Cleaned(token, cards, sources, n).cites, cards, sources)
  {
    SubstituteTitles(token, cards, sources, n);
  }
}
