// The reasoning aggregator: events wait until a language is chosen, then pass the section, track
// and level rules. What the events say is arbitrary input.
module Reasoning {
  import opened AccountModels
  import opened ToolText
  import opened Sequences

  datatype Section = Understanding | Scope | Evidence | Finding

  datatype Note = Note(section: Section, text: string, track: string, level: int, key: string)

  datatype Language = Chinese | English

  // ---------------------------------------------------------------------------
  // The printed trace
  // ---------------------------------------------------------------------------

  datatype Line = Title(section: Section) | Body(note: Note)

  function Label(section: Section, language: Language): string {
    match (language, section)
    case (Chinese, Understanding) => "理解问题"
    case (Chinese, Scope) => "检索范围"
    case (Chinese, Evidence) => "核验与证据"
    case (Chinese, Finding) => "关键发现"
    case (English, Understanding) => "Understanding"
    case (English, Scope) => "Research Scope"
    case (English, Evidence) => "Verification"
    case (English, Finding) => "Key Findings"
  }

  function Printed(l: Line, language: Language): string {
    (match l case Title(section) => Label(section, language) case Body(note) => note.text) + "\n"
  }

  function PrintAll(lines: seq<Line>, language: Language): (r: seq<string>)
    ensures |r| == |lines| && forall i :: 0 <= i < |r| ==> r[i] == Printed(lines[i], language)
  {
    seq(|lines|, i requires 0 <= i < |lines| => Printed(lines[i], language))
  }

  // ---------------------------------------------------------------------------
  // The rules, read off the trace itself
  // ---------------------------------------------------------------------------

  predicate Has(lines: seq<Line>, section: Section) {
    exists i :: 0 <= i < |lines| && lines[i].Body? && lines[i].note.section == section
  }

  predicate HasKey(lines: seq<Line>, key: string) {
    exists i :: 0 <= i < |lines| && lines[i].Body? && lines[i].note.key == key
  }

  predicate Of(l: Line, section: Section, track: string) {
    l.Body? && l.note.section == section && l.note.track == track
  }

  function CountOf(lines: seq<Line>, section: Section, track: string): nat {
    if lines == [] then 0
    else CountOf(lines[..|lines| - 1], section, track) + (if Of(lines[|lines| - 1], section, track) then 1 else 0)
  }

  /** Level of the last line of a section and track, -1 if there is none. */
  function LastLevel(lines: seq<Line>, section: Section, track: string): int {
    if lines == [] then -1
    else if Of(lines[|lines| - 1], section, track) then lines[|lines| - 1].note.level
    else LastLevel(lines[..|lines| - 1], section, track)
  }

  const LASTING := {"latest_updates", "release_status", "official_confirmation", "specs_architecture", "v4_lite"}

  function Cap(section: Section): nat { if section.Scope? || section.Evidence? then 1 else 2 }

  predicate Exempt(key: string) { |key| >= 14 && key[|key| - 14..] == "agents_started" }

  function KeyOf(n: Note, section: string, norm: string -> string): string {
    if n.key != "" then n.key else section + ":" + norm(n.text)
  }

  function NameOf(section: Section): string {
    match section
    case Understanding => "understanding"
    case Scope => "scope"
    case Evidence => "evidence"
    case Finding => "finding"
  }

  /** The section order: scope gives way to evidence and findings, and evidence to findings, unless
      it is strong enough to be shown as a finding. The key is filled in. */
  function Filed(n: Note, evidence: bool, finding: bool, norm: string -> string): Option<Note> {
    var t := n.(text := Strip(n.text));
    if t.text == "" || (t.section.Scope? && (evidence || finding)) then None
    else if t.section.Evidence? && finding then
      if t.level >= 4 || t.track in LASTING
      then Some(t.(section := Finding, key := "finding:promoted:" + KeyOf(t, "evidence", norm)))
      else None
    else Some(t.(key := KeyOf(t, NameOf(t.section), norm)))
  }

  /** The caps: a key once, a section and track up to its cap, and no level below the best. */
  predicate Admitted(n: Note, used: bool, count: nat, best: int) {
    !used && (n.track == "" || ((count < Cap(n.section) || Exempt(n.key)) && best <= n.level))
  }

  function Lines(n: Note, started: bool): seq<Line> { (if started then [] else [Title(n.section)]) + [Body(n)] }

  /** What a note adds to a trace. */
  function Next(lines: seq<Line>, n: Note, norm: string -> string): seq<Line> {
    match Filed(n, Has(lines, Evidence), Has(lines, Finding), norm)
    case None => []
    case Some(f) =>
      if Admitted(f, HasKey(lines, f.key), CountOf(lines, f.section, f.track), LastLevel(lines, f.section, f.track))
      then Lines(f, Has(lines, f.section)) else []
  }

  function TraceOf(notes: seq<Note>, norm: string -> string): seq<Line> {
    if notes == [] then []
    else
      var before := TraceOf(notes[..|notes| - 1], norm);
      before + Next(before, notes[|notes| - 1], norm)
  }

  // ---------------------------------------------------------------------------
  // The aggregator's own books
  // ---------------------------------------------------------------------------

  datatype Ledger = Ledger(keys: set<string>, started: set<Section>, best: map<(Section, string), int>,
                           counts: map<(Section, string), nat>)

  const EMPTY := Ledger({}, {}, map[], map[])

  function CountIn(b: Ledger, section: Section, track: string): nat {
    if (section, track) in b.counts then b.counts[(section, track)] else 0
  }

  function BestIn(b: Ledger, section: Section, track: string): int {
    if (section, track) in b.best then b.best[(section, track)] else -1
  }

  function Booked(b: Ledger, f: Note): Ledger {
    var b1 :=
      if f.track == "" then b
      else
        var best := BestIn(b, f.section, f.track);
        b.(best := b.best[(f.section, f.track) := if best > f.level then best else f.level],
           counts := b.counts[(f.section, f.track) := CountIn(b, f.section, f.track) + 1]);
    b1.(keys := b1.keys + {f.key}, started := b1.started + {f.section})
  }

  function Emit(b: Ledger, n: Note, norm: string -> string): (Ledger, seq<Line>) {
    match Filed(n, Evidence in b.started, Finding in b.started, norm)
    case None => (b, [])
    case Some(f) =>
      if Admitted(f, f.key in b.keys, CountIn(b, f.section, f.track), BestIn(b, f.section, f.track))
      then (Booked(b, f), Lines(f, f.section in b.started)) else (b, [])
  }

  /** The books agree with the trace. */
  ghost predicate Books(b: Ledger, lines: seq<Line>) {
    && (forall s :: s in b.started <==> Has(lines, s))
    && (forall k :: k in b.keys <==> HasKey(lines, k))
    && (forall s, t :: t != "" ==>
         CountIn(b, s, t) == CountOf(lines, s, t) && BestIn(b, s, t) == LastLevel(lines, s, t))
  }

  // ---------------------------------------------------------------------------
  // The books are exact
  // ---------------------------------------------------------------------------

  lemma TitleAdded(lines: seq<Line>, s: Section)
    ensures var all := lines + [Title(s)];
            && (forall x :: Has(all, x) <==> Has(lines, x)) && (forall k :: HasKey(all, k) <==> HasKey(lines, k))
            && (forall x, t ::
                 CountOf(all, x, t) == CountOf(lines, x, t) && LastLevel(all, x, t) == LastLevel(lines, x, t))
  {
    var all := lines + [Title(s)];
    assert all[..|all| - 1] == lines;
    forall x ensures Has(all, x) <==> Has(lines, x) {
      if Has(lines, x) {
        var i :| 0 <= i < |lines| && lines[i].Body? && lines[i].note.section == x;
        assert all[i] == lines[i];
      }
    }
    forall k ensures HasKey(all, k) <==> HasKey(lines, k) {
      if HasKey(lines, k) {
        var i :| 0 <= i < |lines| && lines[i].Body? && lines[i].note.key == k;
        assert all[i] == lines[i];
      }
    }
  }

  lemma BodyAdded(lines: seq<Line>, f: Note)
    ensures var all := lines + [Body(f)];
            && (forall x :: Has(all, x) <==> Has(lines, x) || x == f.section)
            && (forall k :: HasKey(all, k) <==> HasKey(lines, k) || k == f.key)
            && (forall x, t ::
                 CountOf(all, x, t) == CountOf(lines, x, t) + (if x == f.section && t == f.track then 1 else 0))
            && (forall x, t ::
                 LastLevel(all, x, t) == if x == f.section && t == f.track then f.level else LastLevel(lines, x, t))
  {
    var all := lines + [Body(f)];
    assert all[..|all| - 1] == lines && all[|lines|] == Body(f);
    forall x ensures Has(all, x) <==> Has(lines, x) || x == f.section {
      if Has(lines, x) {
        var i :| 0 <= i < |lines| && lines[i].Body? && lines[i].note.section == x;
        assert all[i] == lines[i];
      }
    }
    forall k ensures HasKey(all, k) <==> HasKey(lines, k) || k == f.key {
      if HasKey(lines, k) {
        var i :| 0 <= i < |lines| && lines[i].Body? && lines[i].note.key == k;
        assert all[i] == lines[i];
      }
    }
  }

  lemma LinesSplit(lines: seq<Line>, f: Note, started: bool)
    ensures lines + Lines(f, started) == (if started then lines else lines + [Title(f.section)]) + [Body(f)]
  {
  }

  lemma BookedAgrees(b: Ledger, lines: seq<Line>, f: Note)
    requires Books(b, lines) && (f.track != "" ==> LastLevel(lines, f.section, f.track) <= f.level)
    ensures Books(Booked(b, f), lines + Lines(f, Has(lines, f.section)))
  {
    var started := Has(lines, f.section);
    var before := if started then lines else lines + [Title(f.section)];
    TitleAdded(lines, f.section);
    BodyBooked(b, before, f);
    LinesSplit(lines, f, started);
  }

  lemma BodyBooked(b: Ledger, lines: seq<Line>, f: Note)
    requires Books(b, lines) && (f.track != "" ==> LastLevel(lines, f.section, f.track) <= f.level)
    ensures Books(Booked(b, f), lines + [Body(f)])
  {
    BodyAdded(lines, f);
  }

  /** One note: the books decide as the trace would, and stay exact. */
  lemma EmitAgrees(b: Ledger, lines: seq<Line>, n: Note, norm: string -> string)
    requires Books(b, lines)
    ensures Emit(b, n, norm).1 == Next(lines, n, norm)
    ensures Books(Emit(b, n, norm).0, lines + Next(lines, n, norm))
  {
    var filed := Filed(n, Has(lines, Evidence), Has(lines, Finding), norm);
    if filed.Some? && Next(lines, n, norm) != [] {
      BookedAgrees(b, lines, filed.value);
    } else {
      assert lines + [] == lines;
    }
  }

  /** All notes, emitted one after the other from empty books. */
  function EmitAll(notes: seq<Note>, norm: string -> string): (Ledger, seq<Line>) {
    if notes == [] then (EMPTY, [])
    else
      var (b, lines) := EmitAll(notes[..|notes| - 1], norm);
      var (b', more) := Emit(b, notes[|notes| - 1], norm);
      (b', lines + more)
  }

  lemma {:induction false} EmitAllAgrees(notes: seq<Note>, norm: string -> string)
    ensures EmitAll(notes, norm).1 == TraceOf(notes, norm) && Books(EmitAll(notes, norm).0, TraceOf(notes, norm))
  {
    if notes != [] {
      var front, n := notes[..|notes| - 1], notes[|notes| - 1];
      EmitAllAgrees(front, norm);
      EmitAgrees(EmitAll(front, norm).0, TraceOf(front, norm), n, norm);
    }
  }

  // ---------------------------------------------------------------------------
  // Order and caps over whole runs
  // ---------------------------------------------------------------------------

  predicate Titled(lines: seq<Line>, section: Section) { Title(section) in lines }

  /** What may stand after the lines before it. */
  ghost predicate InPlace(before: seq<Line>, l: Line) {
    match l
    case Title(s) => !Has(before, s) && !Titled(before, s)
    case Body(n) =>
      && (Has(before, n.section) || (before != [] && before[|before| - 1] == Title(n.section)))
      && (n.section.Scope? ==> !Has(before, Evidence) && !Has(before, Finding))
      && (n.section.Evidence? ==> !Has(before, Finding))
      && !HasKey(before, n.key)
      && (n.track != "" ==> LastLevel(before, n.section, n.track) <= n.level)
      && (n.track != "" && !Exempt(n.key) ==> CountOf(before, n.section, n.track) < Cap(n.section))
  }

  ghost predicate Ordered(lines: seq<Line>) {
    lines == [] || (Ordered(lines[..|lines| - 1]) && InPlace(lines[..|lines| - 1], lines[|lines| - 1]))
  }

  /** A section is titled exactly when it has a line. */
  ghost predicate TitlesMatch(lines: seq<Line>) { forall s :: Titled(lines, s) <==> Has(lines, s) }

  lemma OrderedOneMore(lines: seq<Line>, l: Line)
    requires Ordered(lines) && InPlace(lines, l)
    ensures Ordered(lines + [l])
  {
    assert (lines + [l])[..|lines + [l]| - 1] == lines;
  }

  /** A note's lines after their title. */
  lemma BodyInPlace(lines: seq<Line>, before: seq<Line>, f: Note)
    requires Ordered(lines) && TitlesMatch(lines) && InPlace(before, Body(f))
    requires before == if Has(lines, f.section) then lines else lines + [Title(f.section)]
    ensures Ordered(before + [Body(f)]) && TitlesMatch(before + [Body(f)])
  {
    TitleAdded(lines, f.section);
    if !Has(lines, f.section) {
      OrderedOneMore(lines, Title(f.section));
    }
    OrderedOneMore(before, Body(f));
    BodyAdded(before, f);
  }

  lemma NextIsOrdered(lines: seq<Line>, n: Note, norm: string -> string)
    requires Ordered(lines) && TitlesMatch(lines)
    ensures Ordered(lines + Next(lines, n, norm)) && TitlesMatch(lines + Next(lines, n, norm))
  {
    var filed := Filed(n, Has(lines, Evidence), Has(lines, Finding), norm);
    if filed.Some? && Next(lines, n, norm) != [] {
      var f := filed.value;
      var started := Has(lines, f.section);
      var before := if started then lines else lines + [Title(f.section)];
      TitleAdded(lines, f.section);
      BodyInPlace(lines, before, f);
      LinesSplit(lines, f, started);
    } else {
      assert lines + [] == lines;
    }
  }

  lemma {:induction false} TraceIsOrdered(notes: seq<Note>, norm: string -> string)
    ensures Ordered(TraceOf(notes, norm)) && TitlesMatch(TraceOf(notes, norm))
  {
    if notes != [] {
      TraceIsOrdered(notes[..|notes| - 1], norm);
      NextIsOrdered(TraceOf(notes[..|notes| - 1], norm), notes[|notes| - 1], norm);
    }
  }

  lemma {:induction false} PlaceOf(lines: seq<Line>, j: nat)
    requires Ordered(lines) && j < |lines|
    ensures InPlace(lines[..j], lines[j])
  {
    var front := lines[..|lines| - 1];
    if j < |lines| - 1 {
      PlaceOf(front, j);
      assert front[..j] == lines[..j];
    }
  }

  /** No scope line follows an evidence or finding line, no evidence line follows a finding line,
      and no two lines have the same key. */
  lemma {:induction false} SectionOrder(notes: seq<Note>, norm: string -> string, i: nat, j: nat)
    requires i < j < |TraceOf(notes, norm)| && TraceOf(notes, norm)[i].Body? && TraceOf(notes, norm)[j].Body?
    ensures var a, b := TraceOf(notes, norm)[i].note, TraceOf(notes, norm)[j].note;
            && (a.section.Evidence? || a.section.Finding? ==> !b.section.Scope?)
            && (a.section.Finding? ==> !b.section.Evidence?)
            && a.key != b.key
  {
    var lines := TraceOf(notes, norm);
    TraceIsOrdered(notes, norm);
    PlaceOf(lines, j);
    assert lines[..j][i] == lines[i];
  }

  /** Each section has one title, directly before its first line. */
  lemma {:induction false} TitleOnceAndFirst(notes: seq<Note>, norm: string -> string, j: nat)
    requires j < |TraceOf(notes, norm)| && TraceOf(notes, norm)[j].Body?
    ensures var lines, s := TraceOf(notes, norm), TraceOf(notes, norm)[j].note.section;
            && (!Has(lines[..j], s) ==> j > 0 && lines[j - 1] == Title(s))
            && (forall i, k :: 0 <= i < k < |lines| && lines[i] == Title(s) ==> lines[k] != Title(s))
            && (forall i, k :: 0 <= i < k < |lines| && lines[k] == Title(s) && lines[i].Body? ==>
                 lines[i].note.section != s)
  {
    var lines, s := TraceOf(notes, norm), TraceOf(notes, norm)[j].note.section;
    TraceIsOrdered(notes, norm);
    PlaceOf(lines, j);
    forall i, k | 0 <= i < k < |lines| && lines[k] == Title(s)
      ensures lines[i] != Title(s) && (lines[i].Body? ==> lines[i].note.section != s)
    {
      PlaceOf(lines, k);
      assert lines[..k][i] == lines[i];
    }
  }

  function CappedLines(lines: seq<Line>, section: Section, track: string): nat {
    if lines == [] then 0
    else
      var l := lines[|lines| - 1];
      CappedLines(lines[..|lines| - 1], section, track)
        + (if Of(l, section, track) && !Exempt(l.note.key) then 1 else 0)
  }

  lemma {:induction false} CapsHold(lines: seq<Line>, section: Section, track: string)
    requires Ordered(lines) && track != ""
    ensures CappedLines(lines, section, track) <= CountOf(lines, section, track)
    ensures CappedLines(lines, section, track) <= Cap(section)
  {
    if lines != [] {
      CapsHold(lines[..|lines| - 1], section, track);
    }
  }

  /** At most one scope, one evidence, two understanding and two finding lines for a track, the
      lines about started agents apart. */
  lemma {:induction false} TrackCaps(notes: seq<Note>, norm: string -> string, section: Section, track: string)
    requires track != ""
    ensures CappedLines(TraceOf(notes, norm), section, track)
            <= (match section case Understanding => 2 case Scope => 1 case Evidence => 1 case Finding => 2)
  {
    TraceIsOrdered(notes, norm);
    CapsHold(TraceOf(notes, norm), section, track);
  }

  lemma {:induction false} LastIsBest(lines: seq<Line>, i: nat)
    requires Ordered(lines) && i < |lines| && lines[i].Body? && lines[i].note.track != ""
    ensures lines[i].note.level <= LastLevel(lines, lines[i].note.section, lines[i].note.track)
  {
    if i < |lines| - 1 {
      LastIsBest(lines[..|lines| - 1], i);
    }
  }

  /** Within a section and track the level never falls. */
  lemma {:induction false} LevelsRise(notes: seq<Note>, norm: string -> string, i: nat, j: nat)
    requires i < j < |TraceOf(notes, norm)| && TraceOf(notes, norm)[i].Body? && TraceOf(notes, norm)[j].Body?
    requires Of(TraceOf(notes, norm)[j], TraceOf(notes, norm)[i].note.section, TraceOf(notes, norm)[i].note.track)
    requires TraceOf(notes, norm)[i].note.track != ""
    ensures TraceOf(notes, norm)[i].note.level <= TraceOf(notes, norm)[j].note.level
  {
    var lines := TraceOf(notes, norm);
    TraceIsOrdered(notes, norm);
    PlaceOf(lines, j);
    PrefixOrdered(lines, j);
    LastIsBest(lines[..j], i);
  }

  lemma {:induction false} PrefixOrdered(lines: seq<Line>, j: nat)
    requires Ordered(lines) && j <= |lines|
    ensures Ordered(lines[..j])
  {
    if j < |lines| {
      PrefixOrdered(lines[..|lines| - 1], j);
      assert lines[..|lines| - 1][..j] == lines[..j];
    } else {
      assert lines[..j] == lines;
    }
  }

  // ---------------------------------------------------------------------------
  // Choosing the language
  // ---------------------------------------------------------------------------

  function CountCjk(s: string): nat {
    if s == "" then 0 else (if '\U{4e00}' <= s[0] <= '\U{9fff}' then 1 else 0) + CountCjk(s[1..])
  }

  function CountLatin(s: string): nat {
    if s == "" then 0 else (if 'A' <= s[0] <= 'Z' || 'a' <= s[0] <= 'z' then 1 else 0) + CountLatin(s[1..])
  }

  /** What a text votes for. */
  function Vote(s: string): Option<Language> {
    var cjk, latin := CountCjk(s), CountLatin(s);
    if cjk >= 4 || cjk > Max(2, latin / 2) then Some(Chinese) else if latin >= 4 then Some(English) else None
  }

  datatype Op = Observe(text: string) | Dispatch(note: Note) | Finalize

  function NotesOf(ops: seq<Op>): seq<Note> {
    if ops == [] then []
    else
      var op := ops[|ops| - 1];
      NotesOf(ops[..|ops| - 1]) + (if op.Dispatch? then [op.note] else [])
  }

  function EnglishVotes(ops: seq<Op>): nat {
    if ops == [] then 0
    else
      var op := ops[|ops| - 1];
      EnglishVotes(ops[..|ops| - 1]) + (if op.Observe? && Vote(op.text) == Some(English) then 1 else 0)
  }

  /** The language, chosen once: by a Chinese text; at an event, as English after three English
      texts or as the fourth event; at the end, by whether there was an English text. */
  function Decided(ops: seq<Op>): Option<Language> {
    if ops == [] then None
    else
      var front := ops[..|ops| - 1];
      if Decided(front).Some? then Decided(front)
      else match ops[|ops| - 1]
        case Observe(s) => if Vote(s) == Some(Chinese) then Some(Chinese) else None
        case Dispatch(_) => if EnglishVotes(front) >= 3 || |NotesOf(front)| >= 3 then Some(English) else None
        case Finalize =>
          if NotesOf(front) == [] then None else if EnglishVotes(front) > 0 then Some(English) else Some(Chinese)
  }

  lemma OneMoreOp(ops: seq<Op>, op: Op)
    ensures NotesOf(ops + [op]) == NotesOf(ops) + (if op.Dispatch? then [op.note] else [])
    ensures EnglishVotes(ops + [op]) == EnglishVotes(ops)
              + (if op.Observe? && Vote(op.text) == Some(English) then 1 else 0)
    ensures (ops + [op])[..|ops + [op]| - 1] == ops
  {
    assert (ops + [op])[..|ops + [op]| - 1] == ops;
  }

  /** The choice is final. */
  lemma {:induction false} LanguageIsFinal(ops: seq<Op>, more: seq<Op>)
    requires Decided(ops).Some?
    ensures Decided(ops + more) == Decided(ops)
  {
    if more == [] {
      assert ops + more == ops;
    } else {
      LanguageIsFinal(ops, more[..|more| - 1]);
      assert (ops + more)[..|ops + more| - 1] == ops + more[..|more| - 1];
    }
  }

  // ---------------------------------------------------------------------------
  // The aggregator
  // ---------------------------------------------------------------------------

  lemma EmitOneMore(notes: seq<Note>, n: Note, norm: string -> string)
    ensures EmitAll(notes + [n], norm).0 == Emit(EmitAll(notes, norm).0, n, norm).0
    ensures EmitAll(notes + [n], norm).1 == EmitAll(notes, norm).1 + Emit(EmitAll(notes, norm).0, n, norm).1
  {
    assert (notes + [n])[..|notes + [n]| - 1] == notes;
  }

  lemma PrintBoth(a: seq<Line>, b: seq<Line>, language: Language)
    ensures PrintAll(a + b, language) == PrintAll(a, language) + PrintAll(b, language)
  {
  }

  /** The books and the output after the notes that have been emitted. */
  ghost predicate Replayed(b: Ledger, printed: seq<string>, done: seq<Note>, language: Option<Language>,
                           norm: string -> string) {
    && b == EmitAll(done, norm).0
    && (if language.Some? then printed == PrintAll(EmitAll(done, norm).1, language.value)
        else printed == [] && done == [])
  }

  lemma ReplayOneMore(b: Ledger, printed: seq<string>, done: seq<Note>, language: Language, norm: string -> string,
                      n: Note)
    requires Replayed(b, printed, done, Some(language), norm)
    ensures Replayed(Emit(b, n, norm).0, printed + PrintAll(Emit(b, n, norm).1, language), done + [n], Some(language),
            norm)
  {
    EmitOneMore(done, n, norm);
    PrintBoth(EmitAll(done, norm).1, Emit(b, n, norm).1, language);
  }

  /** Language, votes and waiting notes after some operations. */
  ghost predicate Chosen(language: Option<Language>, english: nat, chinese: nat, waiting: seq<Note>, done: seq<Note>,
                         ops: seq<Op>) {
    && language == Decided(ops) && english == EnglishVotes(ops) && (language.None? ==> chinese == 0)
    && NotesOf(ops) == done + waiting
  }

  /** Buffering is invisible: when nothing waits, the output is that of all notes passed through
      the rules in order of arrival, printed in the one language. */
  lemma WholeOutput(b: Ledger, printed: seq<string>, done: seq<Note>, language: Option<Language>,
                    norm: string -> string,
                    english: nat, chinese: nat, ops: seq<Op>)
    requires Replayed(b, printed, done, language, norm) && Chosen(language, english, chinese, [], done, ops)
    ensures if Decided(ops).Some? then printed == PrintAll(TraceOf(NotesOf(ops), norm), Decided(ops).value)
            else printed == [] && NotesOf(ops) == []
  {
    EmitAllAgrees(done, norm);
    assert done + [] == done;
  }

  class ReasoningAggregator {
    const norm: string -> string
    var language: Option<Language>
    var englishVotes: nat
    var chineseVotes: nat
    var pending: seq<Note>
    var ledger: Ledger

    ghost var ops: seq<Op>            // every operation so far
    ghost var done: seq<Note>         // the notes that left the queue
    ghost var printed: seq<string>    // every line returned so far

    ghost predicate Valid()
      reads this
    {
      && Chosen(language, englishVotes, chineseVotes, pending, done, ops)
      && Replayed(ledger, printed, done, language, norm)
    }

    constructor (norm: string -> string)
      ensures Valid() && ops == [] && printed == [] && this.norm == norm
    {
      this.norm := norm;
      language, englishVotes, chineseVotes, pending, ledger := None, 0, 0, [], EMPTY;
      ops, done, printed := [], [], [];
    }

    method ObserveLanguage(text: string)
      requires Valid()
      modifies this`language, this`englishVotes, this`chineseVotes, this`ops
      ensures Valid() && ops == old(ops) + [Observe(text)]
    {
      OneMoreOp(ops, Observe(text));
      ops := ops + [Observe(text)];
      var vote := Vote(text);
      if vote == Some(Chinese) {
        chineseVotes := chineseVotes + 1;
        if language.None? {
          assert done == [];
          language := Some(Chinese);
        }
      } else if vote == Some(English) {
        englishVotes := englishVotes + 1;
      }
    }

    /** Pass one note through the rules. */
    method EmitNote(n: Note) returns (lines: seq<string>)
      requires language.Some? && Replayed(ledger, printed, done, language, norm)
      modifies this`ledger, this`done, this`printed
      ensures Replayed(ledger, printed, done, language, norm)
      ensures done == old(done) + [n] && printed == old(printed) + lines
    {
      ReplayOneMore(ledger, printed, done, language.value, norm, n);
      var (b, more) := Emit(ledger, n, norm);
      lines := PrintAll(more, language.value);
      ledger := b;
      done := done + [n];
      printed := printed + lines;
    }

    method FlushPending() returns (lines: seq<string>)
      requires language.Some? && Replayed(ledger, printed, done, language, norm)
      modifies this`ledger, this`done, this`printed, this`pending
      ensures Replayed(ledger, printed, done, language, norm) && pending == []
      ensures done == old(done) + old(pending) && printed == old(printed) + lines
    {
      lines := [];
      var waiting := pending;
      pending := [];
      Taken(done, waiting, 0);
      for k := 0 to |waiting|
        invariant Replayed(ledger, printed, done, language, norm) && pending == []
        invariant done == old(done) + waiting[..k] && printed == old(printed) + lines
      {
        Taken(old(done), waiting, k);
        var more := EmitNote(waiting[k]);
        InTwoParts(old(printed), lines, more);
        lines := lines + more;
      }
      Taken(old(done), waiting, |waiting|);
    }

    /** A note waits until the language is chosen; then all that waited go before it. */
    method DispatchNote(n: Note) returns (lines: seq<string>)
      requires Valid()
      modifies this
      ensures Valid() && ops == old(ops) + [Dispatch(n)] && printed == old(printed) + lines
      ensures language.Some? ==> pending == []
    {
      OneMoreOp(ops, Dispatch(n));
      ops := ops + [Dispatch(n)];
      if language.None? {
        pending := pending + [n];
        if chineseVotes > 0 {
          assert false;
        } else if englishVotes >= 3 {
          language := Some(English);
        } else if |pending| < 4 {
          lines := [];
          return;
        } else {
          language := Some(English);
        }
        lines := FlushPending();
        return;
      }
      InTwoParts(done, pending, [n]);
      lines := FlushPending();
      var more := EmitNote(n);
      InTwoParts(old(printed), lines, more);
      lines := lines + more;
    }

    /** The end: whatever is waiting is emitted, and the whole output is that of all notes passed
        through the rules in order of arrival, printed in the one language. */
    method Finish() returns (lines: seq<string>)
      requires Valid()
      modifies this
      ensures Valid() && ops == old(ops) + [Finalize] && printed == old(printed) + lines && pending == []
      ensures if Decided(ops).Some? then printed == PrintAll(TraceOf(NotesOf(ops), norm), Decided(ops).value)
              else printed == [] && NotesOf(ops) == []
    {
      lines := FinishPending();
      WholeOutput(ledger, printed, done, language, norm, englishVotes, chineseVotes, ops);
    }

    method FinishPending() returns (lines: seq<string>)
      requires Valid()
      modifies this
      ensures Valid() && ops == old(ops) + [Finalize] && printed == old(printed) + lines && pending == []
    {
      OneMoreOp(ops, Finalize);
      ops := ops + [Finalize];
      if pending == [] {
        lines := [];
        assert done + pending == done && printed + lines == printed;
        return;
      }
      if language.None? {
        language := if englishVotes > 0 && chineseVotes == 0 then Some(English) else Some(Chinese);
      }
      lines := FlushPending();
      assert done + [] == done;
    }
  }
}
