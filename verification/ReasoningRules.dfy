// When a note is printed, read off the lines printed before it.
module ReasoningRules {
  import opened AccountModels
  import opened ToolText
  import opened Sequences
  import opened Reasoning

  /** An evidence note after a finding line is printed as a finding. */
  predicate Promoted(lines: seq<Line>, n: Note) { n.section.Evidence? && Has(lines, Finding) }

  function FinalSection(lines: seq<Line>, n: Note): Section { if Promoted(lines, n) then Finding else n.section }

  /** A note's own key, or one made of its section and text; promoted notes have keys of their own. */
  function FinalKey(lines: seq<Line>, n: Note, norm: string -> string): string {
    var section := match n.section
      case Understanding => "understanding" case Scope => "scope" case Evidence => "evidence" case Finding => "finding";
    var own := if n.key != "" then n.key else section + ":" + norm(Strip(n.text));
    if Promoted(lines, n) then "finding:promoted:" + own else own
  }

  /** The section order: no scope after evidence or findings, and after findings only evidence that is
      strong or of a lasting track. */
  predicate SectionOpen(lines: seq<Line>, n: Note) {
    && (n.section.Scope? ==> !Has(lines, Evidence) && !Has(lines, Finding))
    && (Promoted(lines, n) ==>
          n.level >= 4 || n.track == "latest_updates" || n.track == "release_status"
            || n.track == "official_confirmation"
          || n.track == "specs_architecture" || n.track == "v4_lite")
  }

  ghost predicate NoLine(lines: seq<Line>, section: Section, track: string) {
    forall i :: 0 <= i < |lines| ==> !Of(lines[i], section, track)
  }

  ghost predicate AtMostOneLine(lines: seq<Line>, section: Section, track: string) {
    forall i, j :: 0 <= i < j < |lines| ==> !Of(lines[i], section, track) || !Of(lines[j], section, track)
  }

  ghost predicate NoStrongerLine(lines: seq<Line>, section: Section, track: string, level: int) {
    level >= -1 && forall i :: 0 <= i < |lines| && Of(lines[i], section, track) ==> lines[i].note.level <= level
  }

  /** A track has room for one scope and one evidence line and two others, apart from the lines about
      started agents, and takes no line weaker than one it has. */
  ghost predicate TrackOpen(lines: seq<Line>, section: Section, track: string, level: int, key: string) {
    && (NoLine(lines, section, track) || (section != Scope && section != Evidence
       && AtMostOneLine(lines, section, track))
        || exists name :: key == name + "agents_started")
    && NoStrongerLine(lines, section, track, level)
  }

  ghost predicate Printable(lines: seq<Line>, n: Note, norm: string -> string) {
    && Strip(n.text) != "" && SectionOpen(lines, n) && !HasKey(lines, FinalKey(lines, n, norm))
    && (n.track == "" || TrackOpen(lines, FinalSection(lines, n), n.track, n.level, FinalKey(lines, n, norm)))
  }

  lemma {:induction false} CountsLines(lines: seq<Line>, section: Section, track: string)
    ensures CountOf(lines, section, track) == 0 <==> NoLine(lines, section, track)
    ensures CountOf(lines, section, track) <= 1 <==> AtMostOneLine(lines, section, track)
  {
    if lines != [] {
      var front, last := lines[..|lines| - 1], lines[|lines| - 1];
      CountsLines(front, section, track);
      assert lines == front + [last];
      LinesOneMore(front, last, section, track);
    }
  }

  lemma LinesOneMore(front: seq<Line>, last: Line, section: Section, track: string)
    ensures NoLine(front + [last], section, track) <==> NoLine(front, section, track) && !Of(last, section, track)
    ensures AtMostOneLine(front + [last], section, track) <==>
              if Of(last, section, track) then NoLine(front, section, track) else AtMostOneLine(front, section, track)
  {
    var all := front + [last];
    assert all[|front|] == last;
    assert forall i :: 0 <= i < |front| ==> all[i] == front[i];
  }

  lemma {:induction false} LevelsFromMinusOne(lines: seq<Line>, section: Section, track: string)
    requires Ordered(lines) && track != ""
    ensures LastLevel(lines, section, track) >= -1
  {
    if lines != [] {
      LevelsFromMinusOne(lines[..|lines| - 1], section, track);
    }
  }

  lemma {:induction false} LastIsPrinted(lines: seq<Line>, section: Section, track: string)
    ensures LastLevel(lines, section, track) == -1
            || exists i :: 0 <= i < |lines| && Of(lines[i], section, track)
                           && lines[i].note.level == LastLevel(lines, section, track)
  {
    if lines != [] && !Of(lines[|lines| - 1], section, track) {
      var front := lines[..|lines| - 1];
      LastIsPrinted(front, section, track);
      if LastLevel(front, section, track) != -1 {
        var i :| 0 <= i < |front| && Of(front[i], section, track)
            && front[i].note.level == LastLevel(front, section, track);
        assert lines[i] == front[i];
      }
    }
  }

  lemma {:induction false} LevelFits(lines: seq<Line>, section: Section, track: string, level: int)
    requires Ordered(lines) && track != ""
    ensures LastLevel(lines, section, track) <= level <==> NoStrongerLine(lines, section, track, level)
  {
    LevelsFromMinusOne(lines, section, track);
    LastIsPrinted(lines, section, track);
    forall i | 0 <= i < |lines| && Of(lines[i], section, track)
      ensures lines[i].note.level <= LastLevel(lines, section, track)
    {
      LastIsBest(lines, i);
    }
  }

  lemma ExemptEnds(key: string)
    ensures Exempt(key) <==> exists name :: key == name + "agents_started"
  {
    if Exempt(key) {
      assert key == key[..|key| - 14] + "agents_started";
    }
    if name :| key == name + "agents_started" {
      assert key[|key| - 14..] == "agents_started";
    }
  }

  /** The rules decide as they should: a note adds its line, behind the title of a section that has
      none yet, if and only if it is printable after the lines before it; otherwise it adds nothing. */
  lemma {:induction false} NoteIsPrinted(notes: seq<Note>, n: Note, norm: string -> string)
    ensures var lines := TraceOf(notes, norm);
            var section := FinalSection(lines, n);
            var line := Body(Note(section, Strip(n.text), n.track, n.level, FinalKey(lines, n, norm)));
            TraceOf(notes + [n], norm) == lines +
              if !Printable(lines, n, norm) then []
              else if Has(lines, section) then [line] else [Title(section), line]
  {
    var lines := TraceOf(notes, norm);
    assert (notes + [n])[..|notes + [n]| - 1] == notes;
    TraceIsOrdered(notes, norm);
    NextIsPrinted(lines, n, norm);
  }

  lemma {:induction false} NextIsPrinted(lines: seq<Line>, n: Note, norm: string -> string)
    requires Ordered(lines)
    ensures var section := FinalSection(lines, n);
            var line := Body(Note(section, Strip(n.text), n.track, n.level, FinalKey(lines, n, norm)));
            Next(lines, n, norm) ==
              if !Printable(lines, n, norm) then []
              else if Has(lines, section) then [line] else [Title(section), line]
  {
    var section, key := FinalSection(lines, n), FinalKey(lines, n, norm);
    FiledAs(lines, n, norm);
    AdmittedWhenOpen(lines, Note(section, Strip(n.text), n.track, n.level, key));
  }

  lemma {:induction false} FiledAs(lines: seq<Line>, n: Note, norm: string -> string)
    ensures var filed := Filed(n, Has(lines, Evidence), Has(lines, Finding), norm);
            if Strip(n.text) != "" && SectionOpen(lines, n)
            then filed == Some(Note(FinalSection(lines, n), Strip(n.text), n.track, n.level, FinalKey(lines, n, norm)))
            else filed.None?
  {
  }

  lemma {:induction false} AdmittedWhenOpen(lines: seq<Line>, f: Note)
    requires Ordered(lines)
    ensures Admitted(f, HasKey(lines, f.key), CountOf(lines, f.section, f.track), LastLevel(lines, f.section, f.track))
            <==> !HasKey(lines, f.key) && (f.track == "" || TrackOpen(lines, f.section, f.track, f.level, f.key))
  {
    CountsLines(lines, f.section, f.track);
    ExemptEnds(f.key);
    if f.track != "" {
      LevelFits(lines, f.section, f.track, f.level);
    }
  }

  // ---------------------------------------------------------------------------
  // Language
  // ---------------------------------------------------------------------------

  predicate IsCjk(c: char) { '\U{4e00}' <= c <= '\U{9fff}' }

  predicate IsLatin(c: char) { 'A' <= c <= 'Z' || 'a' <= c <= 'z' }

  function Places(s: string, p: char -> bool): set<nat> { set i: nat | i < |s| && p(s[i]) }

  function Later(a: set<nat>): set<nat> { set i: nat | i in a :: i + 1 }

  lemma InLater(a: set<nat>, j: nat)
    ensures j in Later(a) <==> j > 0 && j - 1 in a
  {
    if j > 0 && j - 1 in a {
      var i: nat := j - 1;
      assert i + 1 in Later(a);
    }
  }

  lemma {:induction false} LaterKeepsSize(a: set<nat>)
    ensures |Later(a)| == |a|
  {
    if a != {} {
      var x :| x in a;
      LaterKeepsSize(a - {x});
      assert Later(a) == Later(a - {x}) + {x + 1} by {
        forall j: nat ensures j in Later(a) <==> j in Later(a - {x}) + {x + 1} {
          InLater(a, j);
          InLater(a - {x}, j);
        }
      }
      InLater(a - {x}, x + 1);
    }
  }

  lemma {:induction false} PlacesOneMore(s: string, p: char -> bool)
    requires s != ""
    ensures |Places(s, p)| == (if p(s[0]) then 1 else 0) + |Places(s[1..], p)|
  {
    var later := Later(Places(s[1..], p));
    LaterKeepsSize(Places(s[1..], p));
    InLater(Places(s[1..], p), 0);
    assert Places(s, p) == later + (if p(s[0]) then {0} else {}) by {
      forall i: nat ensures i in Places(s, p) <==> i in later + (if p(s[0]) then {0} else {}) {
        InLater(Places(s[1..], p), i);
      }
    }
  }

  lemma {:induction false} CountsAreSizes(s: string)
    ensures CountCjk(s) == |Places(s, c => IsCjk(c))| && CountLatin(s) == |Places(s, c => IsLatin(c))|
  {
    if s != "" {
      CountsAreSizes(s[1..]);
      PlacesOneMore(s, c => IsCjk(c));
      PlacesOneMore(s, c => IsLatin(c));
    }
  }

  /** A text votes Chinese with four Chinese characters, or with three and at most five Latin letters;
      otherwise English with four Latin letters. */
  lemma {:induction false} VoteExact(s: string)
    ensures var cjk, latin := |Places(s, c => IsCjk(c))|, |Places(s, c => IsLatin(c))|;
            Vote(s) == if cjk >= 4 || (cjk == 3 && latin <= 5) then Some(Chinese)
                       else if latin >= 4 then Some(English) else None
  {
    CountsAreSizes(s);
  }

  /** A printed line ends with a newline, and before it stands the text of its note. */
  lemma PrintedEnds(l: Line, language: Language)
    ensures var s := Printed(l, language);
            s != "" && s[|s| - 1] == '\n' && (l.Body? ==> s[..|s| - 1] == l.note.text)
  {
  }

  /** No two sections, and no two languages, share a title. */
  lemma TitlesDiffer(a: Section, l: Language, b: Section, m: Language)
    ensures Printed(Title(a), l) == Printed(Title(b), m) ==> a == b && l == m
  {
    if Printed(Title(a), l) == Printed(Title(b), m) {
      var x, y := Label(a, l), Label(b, m);
      assert x == Printed(Title(a), l)[..|Printed(Title(a), l)| - 1] == y;
      assert x != "" && y != "" && x[0] == y[0] && |x| == |y|;
    }
  }
}
