// What the scanners of tags and white space compute, said of the text alone.
module TextLaws {
  import opened AccountModels
  import opened ToolText

  predicate Spaces(s: string) { forall i :: 0 <= i < |s| ==> IsSpace(s[i]) }

  /** The white space of the patterns, by code: tab to carriage return, the separators from 28 to the
      blank, and the blanks beyond ASCII. */
  lemma SpaceCodes(c: char)
    requires c as int < 256
    ensures IsSpace(c) <==> 9 <= c as int <= 13 || 28 <= c as int <= 32 || c as int == 133 || c as int == 160
  {
  }

  /** Two characters are the same but for the case of a letter of the English alphabet. */
  predicate SameLetter(c: char, small: char) {
    c == small || ('a' <= small <= 'z' && c as int + 32 == small as int)
  }

  /** A tag is found whatever the case of its letters, and nothing else is. */
  lemma TagIgnoresCase(tag: string, s: string)
    requires IsTag(tag)
    ensures StartsWithTag(tag, s) <==> |tag| <= |s| && forall i :: 0 <= i < |tag| ==> SameLetter(s[i], tag[i])
  {
    forall i | 0 <= i < |tag| && i < |s| ensures Lower(s[i]) == tag[i] <==> SameLetter(s[i], tag[i]) {
      assert tag[i] == '<' || tag[i] == '/' || tag[i] == '_' || 'a' <= tag[i] <= 'z';
    }
  }

  lemma {:induction false} SpaceRunLength(blank: string, t: string)
    requires Spaces(blank) && (t == "" || !IsSpace(t[0]))
    ensures SpaceRun(blank + t) == |blank|
  {
    if blank == "" {
      assert blank + t == t;
    } else {
      assert (blank + t)[1..] == blank[1..] + t;
      SpaceRunLength(blank[1..], t);
    }
  }

  /** A text that starts with the tag, white space and '>', in n characters. */
  ghost predicate WholeTag(tag: string, s: string, n: nat) {
    |tag| < n <= |s| && StartsWithTag(tag, s) && Spaces(s[|tag|..n - 1]) && s[n - 1] == '>'
  }

  /** A whole tag matches exactly when the text starts with it. */
  lemma {:induction false} TagAtExact(tag: string, s: string, n: nat)
    ensures TagAt(tag, s) == Some(n) <==> WholeTag(tag, s, n)
  {
    if StartsWithTag(tag, s) {
      var rest := s[|tag|..];
      SpaceRunIsSpace(rest);
      if TagAt(tag, s) == Some(n) {
        assert forall i :: 0 <= i < SpaceRun(rest) ==> s[|tag|..n - 1][i] == rest[i];
      }
      if WholeTag(tag, s, n) {
        var blank, t := s[|tag|..n - 1], s[n - 1..];
        assert rest == blank + t && t[0] == '>';
        SpaceRunLength(blank, t);
      }
    }
  }

  /** The cut is at the first whole tag: the text before it, the tag, and the text behind it. */
  ghost predicate CutAt(tag: string, s: string, p: nat, n: nat, c: Split) {
    && p <= |s| && WholeTag(tag, s[p..], n) && c.before == s[..p] && c.after == s[p + n..]
    && forall q, m :: 0 <= q < p ==> !WholeTag(tag, s[q..], m)
  }

  lemma {:induction false} NoTagAt(tag: string, s: string)
    ensures TagAt(tag, s).None? <==> forall n :: !WholeTag(tag, s, n)
  {
    if TagAt(tag, s).Some? {
      TagAtExact(tag, s, TagAt(tag, s).value);
    }
    forall n | TagAt(tag, s).None? ensures !WholeTag(tag, s, n) {
      TagAtExact(tag, s, n);
    }
  }

  /** The cut finds the first whole tag. */
  lemma {:induction false} CutIsFirst(tag: string, s: string) returns (p: nat, n: nat)
    ensures Cut(tag, s).Some? ==> CutAt(tag, s, p, n, Cut(tag, s).value)
    ensures Cut(tag, s).None? ==> forall q, m :: 0 <= q <= |s| ==> !WholeTag(tag, s[q..], m)
  {
    NoTagAt(tag, s);
    assert s[0..] == s;
    p, n := 0, 0;
    if TagAt(tag, s).Some? {
      n := TagAt(tag, s).value;
      TagAtExact(tag, s, n);
    } else if s != "" {
      p, n := CutIsFirst(tag, s[1..]);
      if Cut(tag, s[1..]).Some? {
        CutLater(tag, s, p, n, Cut(tag, s[1..]).value);
      }
      p := p + 1;
      forall q, m | 0 <= q <= |s| && Cut(tag, s).None? ensures !WholeTag(tag, s[q..], m) {
        if q > 0 {
          assert s[q..] == s[1..][q - 1..];
        }
      }
    }
  }

  lemma CutLater(tag: string, s: string, p: nat, n: nat, c: Split)
    requires s != "" && CutAt(tag, s[1..], p, n, c) && forall m :: !WholeTag(tag, s, m)
    ensures CutAt(tag, s, p + 1, n, Split([s[0]] + c.before, c.after))
  {
    assert s[1..][p..] == s[p + 1..] && s[1..][p + n..] == s[p + 1 + n..];
    assert [s[0]] + s[1..][..p] == s[..p + 1];
    forall q, m | 0 <= q < p + 1 ensures !WholeTag(tag, s[q..], m) {
      if q == 0 {
        assert s[0..] == s;
      } else {
        assert s[q..] == s[1..][q - 1..];
      }
    }
  }

  /** Stripping takes off all white space at both ends and nothing else. */
  ghost predicate Stripped(s: string, before: string, text: string, after: string) {
    && s == before + text + after && Spaces(before) && Spaces(after)
    && (text != "" ==> !IsSpace(text[0]) && !IsSpace(text[|text| - 1]))
  }

  lemma {:induction false} StripRightExact(s: string) returns (after: string)
    ensures s == StripRight(s) + after && Spaces(after)
    ensures StripRight(s) != "" ==> !IsSpace(StripRight(s)[|StripRight(s)| - 1])
    decreases |s|
  {
    if s != "" && IsSpace(s[|s| - 1]) {
      var rest := StripRightExact(s[..|s| - 1]);
      after := rest + [s[|s| - 1]];
      assert s == StripRight(s) + after;
    } else {
      after := "";
    }
  }

  lemma {:induction false} StripExact(s: string) returns (before: string, after: string)
    ensures Stripped(s, before, Strip(s), after)
  {
    SpaceRunIsSpace(s);
    var t := StripLeft(s);
    before := s[..SpaceRun(s)];
    assert s == before + t;
    after := StripRightExact(t);
    StrippedEnds(s, before, t, StripRight(t), after);
  }

  lemma StrippedEnds(s: string, before: string, t: string, text: string, after: string)
    requires s == before + t && t == text + after && Spaces(before) && Spaces(after)
    requires t != "" ==> !IsSpace(t[0])
    requires text != "" ==> !IsSpace(text[|text| - 1])
    ensures Stripped(s, before, text, after)
  {
    assert text != "" ==> text[0] == t[0];
  }
}
