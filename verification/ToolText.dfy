// Literal scanners for the tag patterns the tool-call code searches with. Tags are given in
// lower case and matched without regard to ASCII case.
module ToolText {
  import opened AccountModels

  function Lower(c: char): char { if 'A' <= c <= 'Z' then (c as int + 32) as char else c }

  /** The characters that the pattern \s and str.strip treat as white space. */
  predicate IsSpace(c: char) {
    var n := c as int;
    || 9 <= n <= 13 || 28 <= n <= 32 || n == 0x85 || n == 0xA0 || n == 0x1680 || 0x2000 <= n <= 0x200A
    || n == 0x2028 || n == 0x2029 || n == 0x202F || n == 0x205F || n == 0x3000
  }

  /** The text starts with the tag, in any case. */
  predicate StartsWithTag(tag: string, s: string) {
    |tag| <= |s| && forall i :: 0 <= i < |tag| ==> Lower(s[i]) == tag[i]
  }

  function SpaceRun(s: string): (n: nat)
    ensures n <= |s|
  {
    if s != "" && IsSpace(s[0]) then 1 + SpaceRun(s[1..]) else 0
  }

  lemma {:induction false} SpaceRunIsSpace(s: string)
    ensures forall i :: 0 <= i < SpaceRun(s) ==> IsSpace(s[i])
    ensures SpaceRun(s) < |s| ==> !IsSpace(s[SpaceRun(s)])
  {
    if s != "" && IsSpace(s[0]) {
      SpaceRunIsSpace(s[1..]);
      assert forall i :: 1 <= i < |s| ==> s[i] == s[1..][i - 1];
    }
  }

  function StripLeft(s: string): string { s[SpaceRun(s)..] }

  function StripRight(s: string): string
    decreases |s|
  {
    if s != "" && IsSpace(s[|s| - 1]) then StripRight(s[..|s| - 1]) else s
  }

  function Strip(s: string): string { StripRight(StripLeft(s)) }

  /** Length of a match of tag, optional white space and '>' at the head of s. */
  function TagAt(tag: string, s: string): (n: Option<nat>)
    ensures n.Some? ==> |tag| < n.value <= |s|
  {
    if StartsWithTag(tag, s) then
      var k := |tag| + SpaceRun(s[|tag|..]);
      if k < |s| && s[k] == '>' then Some(k + 1) else None
    else None
  }

  /** First position where the tag occurs. */
  function Find(tag: string, s: string): (p: Option<nat>)
    ensures p.Some? ==> p.value + |tag| <= |s|
  {
    if StartsWithTag(tag, s) then Some(0)
    else if s == "" then None
    else
      var r := Find(tag, s[1..]);
      if r.Some? then Some(r.value + 1) else None
  }

  /** Text before a match and text after it. */
  datatype Split = Split(before: string, after: string)

  function Prepend(a: string, r: Option<Split>): Option<Split> {
    if r.Some? then Some(Split(a + r.value.before, r.value.after)) else None
  }

  /** The text around the first match of tag, white space and '>'. */
  function Cut(tag: string, s: string): (r: Option<Split>)
    ensures r.Some? ==> |r.value.before| + |tag| + |r.value.after| < |s|
  {
    var n := TagAt(tag, s);
    if n.Some? then Some(Split("", s[n.value..]))
    else if s == "" then None
    else Prepend([s[0]], Cut(tag, s[1..]))
  }

  // ---------------------------------------------------------------------------
  // Find
  // ---------------------------------------------------------------------------

  /** Find is the first match: no match before it, and a match there. */
  lemma {:induction false} FindIsFirst(tag: string, s: string)
    ensures var p := Find(tag, s);
            if p.Some? then
              StartsWithTag(tag, s[p.value..]) && forall q :: 0 <= q < p.value ==> !StartsWithTag(tag, s[q..])
            else forall q :: 0 <= q <= |s| ==> !StartsWithTag(tag, s[q..])
  {
    if StartsWithTag(tag, s) {
      assert s[0..] == s;
    } else if s != "" {
      FindIsFirst(tag, s[1..]);
      assert forall q :: 1 <= q <= |s| ==> s[q..] == s[1..][q - 1..];
      assert s[0..] == s;
    } else {
      assert s[0..] == s;
    }
  }

  lemma FindUnique(tag: string, s: string, p: nat)
    requires p <= |s| && StartsWithTag(tag, s[p..]) && forall q :: 0 <= q < p ==> !StartsWithTag(tag, s[q..])
    ensures Find(tag, s) == Some(p)
  {
    FindIsFirst(tag, s);
  }

  /** A match in a prefix is a match in the whole. */
  lemma StartsStable(tag: string, s: string, more: string, q: nat)
    requires q <= |s|
    ensures q + |tag| <= |s| ==> (StartsWithTag(tag, s[q..]) <==> StartsWithTag(tag, (s + more)[q..]))
    ensures StartsWithTag(tag, s[q..]) ==> StartsWithTag(tag, (s + more)[q..])
  {
    assert (s + more)[q..] == s[q..] + more;
  }

  lemma FindStable(tag: string, s: string, more: string)
    requires Find(tag, s).Some?
    ensures Find(tag, s + more) == Find(tag, s)
  {
    var p := Find(tag, s).value;
    FindIsFirst(tag, s);
    StartsStable(tag, s, more, p);
    forall q | 0 <= q < p ensures !StartsWithTag(tag, (s + more)[q..]) {
      StartsStable(tag, s, more, q);
    }
    FindUnique(tag, s + more, p);
  }

  // ---------------------------------------------------------------------------
  // Cut
  // ---------------------------------------------------------------------------

  predicate NoLt(s: string) { forall i :: 0 <= i < |s| ==> s[i] != '<' }

  /** A tag: '<' followed by small letters, slashes and underscores. */
  predicate IsTag(tag: string) {
    |tag| > 0 && tag[0] == '<' && forall i :: 1 <= i < |tag| ==> 'a' <= tag[i] <= 'z' || tag[i] == '/' || tag[i] == '_'
  }

  /** Two tags differ somewhere, the end of the printed one included. */
  ghost predicate Differ(tag: string, other: string) {
    exists i :: 0 <= i < |tag| && i < |other| && tag[i] != other[i]
  }

  lemma PrependTwice(a: string, b: string, r: Option<Split>)
    ensures Prepend(a, Prepend(b, r)) == Prepend(a + b, r)
  {
    if r.Some? {
      assert a + (b + r.value.before) == a + b + r.value.before;
    }
  }

  lemma TagMiss(tag: string, s: string, i: nat)
    requires i < |tag| && i < |s| && Lower(s[i]) != tag[i]
    ensures TagAt(tag, s) == None
  {
  }

  lemma CutOneChar(tag: string, c: char, s: string)
    requires TagAt(tag, [c] + s) == None
    ensures Cut(tag, [c] + s) == Prepend([c], Cut(tag, s))
  {
    assert ([c] + s)[0] == c && ([c] + s)[1..] == s;
  }

  /** Text without '<' is skipped over. */
  lemma {:induction false} CutSkip(tag: string, a: string, s: string)
    requires IsTag(tag) && NoLt(a)
    ensures Cut(tag, a + s) == Prepend(a, Cut(tag, s))
  {
    if a == "" {
      assert a + s == s;
      assert Cut(tag, s).Some? ==> "" + Cut(tag, s).value.before == Cut(tag, s).value.before;
    } else {
      assert (a + s)[0] == a[0] && a + s == [a[0]] + (a[1..] + s) && a == [a[0]] + a[1..];
      CutOneChar(tag, a[0], a[1..] + s);
      CutSkip(tag, a[1..], s);
      PrependTwice([a[0]], a[1..], Cut(tag, s));
    }
  }

  /** The printed form of the tag itself. */
  lemma CutHere(tag: string, s: string)
    requires IsTag(tag)
    ensures Cut(tag, tag + ">" + s) == Some(Split("", s))
  {
    var t := tag + ">" + s;
    assert t[|tag|..] == ">" + s;
    assert SpaceRun(t[|tag|..]) == 0;
    assert t[|tag| + 1..] == s;
  }

  /** A printed tag that differs from the one searched is skipped over. */
  lemma CutMiss(tag: string, other: string, s: string)
    requires IsTag(tag) && IsTag(other) && Differ(tag, other + ">")
    ensures Cut(tag, other + ">" + s) == Prepend(other + ">", Cut(tag, s))
  {
    var i :| 0 <= i < |tag| && i < |other + ">"| && tag[i] != (other + ">")[i];
    var c, rest := other[0], other[1..] + ">";
    assert other + ">" + s == [c] + (rest + s) && other + ">" == [c] + rest;
    assert ([c] + (rest + s))[i] == (other + ">")[i] by {
      assert (other + ">" + s)[i] == (other + ">")[i];
    }
    TagMiss(tag, [c] + (rest + s), i);
    CutOneChar(tag, c, rest + s);
    CutSkip(tag, rest, s);
    PrependTwice([c], rest, Cut(tag, s));
  }

  // ---------------------------------------------------------------------------
  // Printed text
  // ---------------------------------------------------------------------------

  /** Printed text: plain stretches and tags, each tag closed by '>'. */
  datatype Piece = Plain(text: string) | Tag(tag: string)
  {
    function Text(): string { if Plain? then text else tag + ">" }
  }

  function Render(pieces: seq<Piece>): string {
    if pieces == [] then "" else pieces[0].Text() + Render(pieces[1..])
  }

  lemma {:induction false} RenderAppend(a: seq<Piece>, b: seq<Piece>)
    ensures Render(a + b) == Render(a) + Render(b)
  {
    if a == [] {
      assert a + b == b;
    } else {
      assert (a + b)[1..] == a[1..] + b;
      RenderAppend(a[1..], b);
    }
  }

  /** No piece can hold a match of the tag. */
  ghost predicate Avoids(pieces: seq<Piece>, tag: string) {
    forall i :: 0 <= i < |pieces| ==>
      if pieces[i].Plain? then NoLt(pieces[i].text) else IsTag(pieces[i].tag) && Differ(tag, pieces[i].tag + ">")
  }

  /** A printed tag behind pieces that avoid it is where the search stops. */
  lemma {:induction false} CutAtTag(tag: string, before: seq<Piece>, after: seq<Piece>)
    requires IsTag(tag) && Avoids(before, tag)
    ensures Cut(tag, Render(before + ([Tag(tag)] + after))) == Some(Split(Render(before), Render(after)))
  {
    var tail := [Tag(tag)] + after;
    if before == [] {
      assert before + tail == tail && tail[1..] == after;
      CutHere(tag, Render(after));
    } else {
      var p, rest := before[0], before[1..];
      assert (before + tail)[1..] == rest + tail;
      CutAtTag(tag, rest, after);
      if p.Plain? {
        CutSkip(tag, p.text, Render(rest + tail));
      } else {
        CutMiss(tag, p.tag, Render(rest + tail));
      }
    }
  }

  /** In pieces that avoid a tag the search finds nothing. */
  lemma {:induction false} CutAvoided(tag: string, pieces: seq<Piece>)
    requires IsTag(tag) && Avoids(pieces, tag)
    ensures Cut(tag, Render(pieces)).None?
  {
    if pieces == [] {
      CutNeedsLt(tag, "");
    } else {
      var p, rest := pieces[0], pieces[1..];
      CutAvoided(tag, rest);
      if p.Plain? {
        CutSkip(tag, p.text, Render(rest));
      } else {
        CutMiss(tag, p.tag, Render(rest));
      }
    }
  }

  // ---------------------------------------------------------------------------
  // Cutting a growing text
  // ---------------------------------------------------------------------------

  /** An unfinished match leaves no room for another one behind it. */
  lemma TagAtStable(tag: string, s: string, more: string)
    requires IsTag(tag)
    ensures TagAt(tag, s).Some? ==> TagAt(tag, s + more) == TagAt(tag, s)
    ensures TagAt(tag, s).None? && TagAt(tag, s + more).Some? && s != "" ==> NoLt(s[1..])
  {
    var t := s + more;
    if StartsWithTag(tag, s) {
      var rest := s[|tag|..];
      assert t[|tag|..] == rest + more;
      SpaceRunStable(rest, more);
      SpaceRunIsSpace(rest);
      if TagAt(tag, s).None? && TagAt(tag, t).Some? {
        assert SpaceRun(rest) == |rest|;
        forall i | 1 <= i < |s| ensures s[i] != '<' {
          if i < |tag| {
            assert Lower(s[i]) == tag[i];
          } else {
            assert s[i] == rest[i - |tag|];
          }
        }
      }
    } else if StartsWithTag(tag, t) {
      forall i | 1 <= i < |s| ensures s[i] != '<' {
        if i < |tag| {
          assert t[i] == s[i] && Lower(t[i]) == tag[i];
        }
      }
    }
  }

  lemma {:induction false} SpaceRunStable(s: string, more: string)
    ensures SpaceRun(s) < |s| ==> SpaceRun(s + more) == SpaceRun(s)
    ensures SpaceRun(s) == |s| ==> SpaceRun(s + more) >= |s|
  {
    if s != "" && IsSpace(s[0]) {
      SpaceRunStable(s[1..], more);
      assert (s + more)[1..] == s[1..] + more;
    }
  }

  lemma {:induction false} CutNeedsLt(tag: string, s: string)
    requires IsTag(tag) && NoLt(s)
    ensures Cut(tag, s) == None
  {
    if s != "" {
      CutNeedsLt(tag, s[1..]);
    }
  }

  /** What follows a match is an end of the text. */
  lemma {:induction false} CutIsTail(tag: string, s: string)
    requires Cut(tag, s).Some?
    ensures var after := Cut(tag, s).value.after; |after| <= |s| && s[|s| - |after|..] == after
  {
    if TagAt(tag, s).None? {
      CutIsTail(tag, s[1..]);
      var after := Cut(tag, s[1..]).value.after;
      assert s[|s| - |after|..] == s[1..][|s[1..]| - |after|..];
    }
  }

  /** Without a match there is none in any end of the text. */
  lemma {:induction false} CutInTail(tag: string, s: string, k: nat)
    requires Cut(tag, s).None? && k <= |s|
    ensures Cut(tag, s[k..]).None?
  {
    if k == 0 {
      assert s[0..] == s;
    } else {
      CutInTail(tag, s[1..], k - 1);
      assert s[k..] == s[1..][k - 1..];
    }
  }

  /** The first match in a prefix is the first match in the whole. */
  lemma {:induction false} CutStable(tag: string, s: string, more: string)
    requires IsTag(tag) && Cut(tag, s).Some?
    ensures Cut(tag, s + more) == Some(Split(Cut(tag, s).value.before, Cut(tag, s).value.after + more))
  {
    TagAtStable(tag, s, more);
    var n := TagAt(tag, s);
    if n.Some? {
      assert (s + more)[n.value..] == s[n.value..] + more;
    } else {
      assert (s + more)[0] == s[0] && (s + more)[1..] == s[1..] + more;
      if TagAt(tag, s + more).Some? {
        CutNeedsLt(tag, s[1..]);
      } else {
        CutStable(tag, s[1..], more);
      }
    }
  }
}
