// The form of a render tag, and that the scanner recognises exactly this form.
module RenderTags {
  import opened AccountModels
  import opened ToolText
  import opened TextLaws
  import opened Citations

  const TAG_START := "<grok:render"
  const TAG_END := "</grok:render>"

  predicate Without(c: char, s: string) { forall i :: 0 <= i < |s| ==> s[i] != c }

  /** White space, name="value" with a value that is not empty, and then the rest. */
  ghost predicate AttributeForm(name: string, s: string, value: string, rest: string) {
    exists blank :: BlankBefore(blank, name + "=\"" + Quoted(value, rest), s) && value != "" && Without('"', value)
  }

  predicate BlankBefore(blank: string, t: string, s: string) { blank != "" && Spaces(blank) && s == blank + t }

  /** A value, the quote that ends it, and the rest. */
  function Quoted(value: string, rest: string): string { value + ("\"" + rest) }

  /** The end of the opening tag, and the first closing tag behind it. */
  ghost predicate ClosesForm(s: string, rest: string) {
    exists more, inner ::
      Without('>', more) && s == more + (">" + (inner + (TAG_END + rest))) && FirstClose(inner, rest)
  }

  ghost predicate FirstClose(inner: string, rest: string) {
    forall p: nat :: p < |inner| ==> !Leads(TAG_END, inner + (TAG_END + rest), p)
  }

  ghost predicate TypeForm(s: string, kind: string, rest: string) {
    exists t :: AttributeForm("type", s, kind, t) && ClosesForm(t, rest)
  }

  ghost predicate CardTypeForm(s: string, kind: string, rest: string) {
    exists sort, t :: AttributeForm("card_type", s, sort, t) && TypeForm(t, kind, rest)
  }

  /** A render tag with its card and type, up to the first closing tag, and then the rest. */
  ghost predicate TagForm(s: string, card: string, kind: string, rest: string) {
    TAG_START <= s && exists t :: AttributeForm("card_id", s[|TAG_START|..], card, t) && CardTypeForm(t, kind, rest)
  }

  // ---------------------------------------------------------------------------
  // Attributes
  // ---------------------------------------------------------------------------

  lemma {:induction false} IndexOfChar(c: char, before: string, rest: string)
    requires Without(c, before)
    ensures IndexOf([c], before + ([c] + rest)) == Some(|before|)
  {
    var s := before + ([c] + rest);
    if before == "" {
      assert s == [c] + rest;
    } else {
      assert s[1..] == before[1..] + ([c] + rest) && s[0] != c;
      IndexOfChar(c, before[1..], rest);
    }
  }

  lemma {:induction false} IndexOfNone(needle: string, s: string, p: nat)
    requires IndexOf(needle, s).None? || p < IndexOf(needle, s).value
    ensures !Leads(needle, s, p)
  {
    if Leads(needle, s, p) {
      IndexOfIsFirst(needle, s, p);
    }
  }

  /** The scan up to a character stops at the first one. */
  lemma {:induction false} UntilExact(c: char, s: string, before: string, after: string)
    ensures Until(c, s) == Some(Split(before, after)) <==> Without(c, before) && s == before + ([c] + after)
  {
    if Until(c, s) == Some(Split(before, after)) {
      var p := IndexOf([c], s).value;
      assert s == s[..p] + (s[p..p + 1] + s[p + 1..]);
      forall i: nat | i < p ensures s[i] != c {
        IndexOfNone([c], s, i);
        assert s[i..i + 1] == [s[i]];
      }
    }
    if Without(c, before) && s == before + ([c] + after) {
      IndexOfChar(c, before, after);
      assert s[..|before|] == before && s[|before| + 1..] == after;
    }
  }

  lemma AfterExact(prefix: string, s: string, rest: string)
    ensures After(prefix, s) == Some(rest) <==> s == prefix + rest
  {
  }

  lemma {:induction false} BlanksExact(s: string, t: string)
    requires t != "" && !IsSpace(t[0])
    ensures Blanks(s) == Some(t) <==> exists blank :: BlankBefore(blank, t, s)
  {
    if Blanks(s) == Some(t) {
      SpaceRunIsSpace(s);
      assert BlankBefore(s[..SpaceRun(s)], t, s);
    }
    if blank :| BlankBefore(blank, t, s) {
      SpaceRunLength(blank, t);
      assert s[|blank|..] == t;
    }
  }

  /** The attribute scanner accepts exactly the attribute form. */
  lemma {:induction false} AttributeExact(name: string, s: string, value: string, rest: string)
    requires name != "" && !IsSpace(name[0])
    ensures Attribute(name, s) == Some(Split(value, rest)) <==> AttributeForm(name, s, value, rest)
  {
    var quoted := Quoted(value, rest);
    var t := name + "=\"" + quoted;
    assert t[0] == name[0];
    BlanksExact(s, t);
    UntilExact('"', quoted, value, rest);
    if Attribute(name, s) == Some(Split(value, rest)) {
      AttributeParts(name, s, value, rest);
    }
    if AttributeForm(name, s, value, rest) {
      AfterExact(name + "=\"", t, quoted);
    }
  }

  lemma {:induction false} AttributeParts(name: string, s: string, value: string, rest: string)
    requires Attribute(name, s) == Some(Split(value, rest))
    ensures Blanks(s) == Some(name + "=\"" + Quoted(value, rest)) && value != "" && Without('"', value)
  {
    var t := Blanks(s).value;
    var u := After(name + "=\"", t).value;
    AfterExact(name + "=\"", t, u);
    UntilExact('"', u, value, rest);
  }

  // ---------------------------------------------------------------------------
  // The tag
  // ---------------------------------------------------------------------------

  lemma {:induction false} ClosesExact(s: string, rest: string)
    ensures ClosesHere(s) == Some(rest) <==> ClosesForm(s, rest)
  {
    if ClosesHere(s) == Some(rest) {
      ClosesIsForm(s);
    }
    if ClosesForm(s, rest) {
      FormCloses(s, rest);
    }
  }

  lemma {:induction false} ClosesIsForm(s: string)
    requires ClosesHere(s).Some?
    ensures ClosesForm(s, ClosesHere(s).value)
  {
    var head := Until('>', s).value;
    UntilExact('>', s, head.before, head.after);
    CloseFound(head.after, ClosesHere(s).value);
  }

  lemma {:induction false} FormCloses(s: string, rest: string)
    requires ClosesForm(s, rest)
    ensures ClosesHere(s) == Some(rest)
  {
    var more, inner :| Without('>', more) && s == more + (">" + (inner + (TAG_END + rest))) && FirstClose(inner, rest);
    UntilExact('>', s, more, inner + (TAG_END + rest));
    CloseIsFirst(inner, rest);
  }

  lemma {:induction false} CloseIsFirst(inner: string, rest: string)
    requires FirstClose(inner, rest)
    ensures IndexOf(TAG_END, inner + (TAG_END + rest)) == Some(|inner|)
    ensures (inner + (TAG_END + rest))[|inner| + |TAG_END|..] == rest
  {
    FirstIsFound(TAG_END, inner, rest);
  }

  lemma {:induction false} FirstIsFound(needle: string, inner: string, rest: string)
    requires forall p: nat :: p < |inner| ==> !Leads(needle, inner + (needle + rest), p)
    ensures IndexOf(needle, inner + (needle + rest)) == Some(|inner|)
    ensures (inner + (needle + rest))[|inner| + |needle|..] == rest
  {
    var s := inner + (needle + rest);
    assert s[|inner|..|inner| + |needle|] == needle;
    IndexOfIsFirst(needle, s, |inner|);
    if IndexOf(needle, s).value < |inner| {
      assert Leads(needle, s, IndexOf(needle, s).value);
    }
  }

  lemma {:induction false} CloseFound(s: string, rest: string)
    requires IndexOf(TAG_END, s).Some? && rest == s[IndexOf(TAG_END, s).value + |TAG_END|..]
    ensures var inner := s[..IndexOf(TAG_END, s).value]; s == inner + (TAG_END + rest) && FirstClose(inner, rest)
  {
    FoundIsFirst(TAG_END, s, IndexOf(TAG_END, s).value, rest);
  }

  lemma {:induction false} FoundIsFirst(needle: string, s: string, p: nat, rest: string)
    requires IndexOf(needle, s) == Some(p) && rest == s[p + |needle|..]
    ensures s == s[..p] + (needle + rest)
    ensures forall q: nat :: q < p ==> !Leads(needle, s, q)
  {
    forall q: nat | q < p ensures !Leads(needle, s, q) {
      IndexOfNone(needle, s, q);
    }
  }

  lemma {:induction false} TypeHereExact(s: string, card: string, kind: string, rest: string)
    ensures TypeHere(s, card) == Some(RenderTag(card, kind, rest)) <==> TypeForm(s, kind, rest)
  {
    if TypeHere(s, card) == Some(RenderTag(card, kind, rest)) {
      var t := Attribute("type", s).value.after;
      AttributeExact("type", s, kind, t);
      ClosesExact(t, rest);
    }
    if TypeForm(s, kind, rest) {
      var t :| AttributeForm("type", s, kind, t) && ClosesForm(t, rest);
      AttributeExact("type", s, kind, t);
      ClosesExact(t, rest);
    }
  }

  lemma {:induction false} FormIsRead(s: string, card: string, kind: string, rest: string)
    requires TagForm(s, card, kind, rest)
    ensures TagHere(s) == Some(RenderTag(card, kind, rest))
  {
    var t :| AttributeForm("card_id", s[|TAG_START|..], card, t) && CardTypeForm(t, kind, rest);
    var sort, u :| AttributeForm("card_type", t, sort, u) && TypeForm(u, kind, rest);
    assert Attribute("card_id", s[|TAG_START|..]) == Some(Split(card, t)) by {
      AttributeExact("card_id", s[|TAG_START|..], card, t);
    }
    assert Attribute("card_type", t) == Some(Split(sort, u)) by {
      AttributeExact("card_type", t, sort, u);
    }
    assert TypeHere(u, card) == Some(RenderTag(card, kind, rest)) by {
      TypeHereExact(u, card, kind, rest);
    }
  }

  lemma {:induction false} ReadIsForm(s: string)
    requires TagHere(s).Some?
    ensures var t := TagHere(s).value; TagForm(s, t.card, t.kind, t.rest)
  {
    var r := TagHere(s).value;
    var card := Attribute("card_id", s[|TAG_START|..]).value;
    var sort := Attribute("card_type", card.after).value;
    assert AttributeForm("card_id", s[|TAG_START|..], card.before, card.after) by {
      AttributeExact("card_id", s[|TAG_START|..], card.before, card.after);
    }
    assert AttributeForm("card_type", card.after, sort.before, sort.after) by {
      AttributeExact("card_type", card.after, sort.before, sort.after);
    }
    TypeIsCarried(sort.after, card.before);
    assert TypeForm(sort.after, r.kind, r.rest) by {
      TypeHereExact(sort.after, card.before, r.kind, r.rest);
    }
  }

  lemma TypeIsCarried(s: string, card: string)
    ensures TypeHere(s, card).Some? ==> TypeHere(s, card).value.card == card
  {
  }

  /** The scanner finds a tag at the head of a text if and only if the text starts with the form of a
      render tag, and then it takes all of the form, with its card and type. */
  lemma {:induction false} TagHereExact(s: string, card: string, kind: string, rest: string)
    ensures TagHere(s) == Some(RenderTag(card, kind, rest)) <==> TagForm(s, card, kind, rest)
  {
    if TagForm(s, card, kind, rest) {
      FormIsRead(s, card, kind, rest);
    }
    if TagHere(s) == Some(RenderTag(card, kind, rest)) {
      ReadIsForm(s);
    }
  }

  ghost predicate StartsTag(s: string) { exists card, kind, rest :: TagForm(s, card, kind, rest) }

  lemma {:induction false} StartsExact(s: string)
    ensures StartsTag(s) <==> TagHere(s).Some?
  {
    if card, kind, rest :| TagForm(s, card, kind, rest) {
      TagHereExact(s, card, kind, rest);
    }
    if TagHere(s).Some? {
      var t := TagHere(s).value;
      TagHereExact(s, t.card, t.kind, t.rest);
    }
  }
}
