// The synchroniser against concurrent writers. A scan reads the global revision and the rows
// in two separate statements and applies them later; write transactions commit at any point
// in between. Bootstrap reads in the same order.
module SyncRuns {
  import opened AccountModels
  import opened AccountRepository
  import opened AccountSync

  datatype Phase =
    | Unloaded
    | Booting(rev: nat)
    | Idle
    | RevisionRead(rev: nat)
    | RowsRead(rev: nat, page: RecordTable)

  datatype State = State(rows: RecordTable, revision: nat, view: TableView, watermark: nat, phase: Phase)

  ghost predicate Init(s: State) {
    Stamped(s.rows, s.revision) && s.phase.Unloaded?
  }

  /** Some write transaction commits. */
  ghost predicate Write(s: State, s': State) {
    && Writes(s.rows, s.revision, s'.rows, s'.revision) && Stamped(s'.rows, s'.revision)
    && s' == s.(rows := s'.rows, revision := s'.revision)
  }

  ghost predicate BootRevision(s: State, s': State) {
    s.phase.Unloaded? && s' == s.(phase := Booting(s.revision))
  }

  ghost predicate BootRows(s: State, s': State, now: int) {
    s.phase.Booting? && s' == s.(view := Reload(s.rows, now), watermark := s.phase.rev, phase := Idle)
  }

  ghost predicate ReadRevision(s: State, s': State) {
    s.phase.Idle? && s' == s.(phase := RevisionRead(s.revision))
  }

  /** The page is every row past the watermark: the changed rows fit in one page. */
  ghost predicate ReadRows(s: State, s': State) {
    && s.phase.RevisionRead?
    && s' == s.(phase := RowsRead(s.phase.rev, map t | t in ChangedSince(s.rows, s.watermark) :: s.rows[t]))
  }

  ghost predicate ApplyPage(s: State, s': State, now: int) {
    && s.phase.RowsRead?
    && s' == s.(view := Overlay(s.view, s.phase.page, s.phase.page.Keys, now),
                watermark := Max(s.watermark, s.phase.rev), phase := Idle)
  }

  ghost predicate Next(s: State, s': State, now: int) {
    || Write(s, s') || BootRevision(s, s') || BootRows(s, s', now)
    || ReadRevision(s, s') || ReadRows(s, s') || ApplyPage(s, s', now)
  }

  ghost predicate IsRun(run: seq<State>, now: int) {
    && |run| > 0 && Init(run[0])
    && forall i :: 0 <= i < |run| - 1 ==> Next(run[i], run[i + 1], now)
  }

  // ---------------------------------------------------------------------------
  // The invariant
  // ---------------------------------------------------------------------------

  /** The row read is still current, or has been overwritten by a write newer than rev. */
  ghost predicate CurrentUpTo(page: RecordTable, rows: RecordTable, watermark: nat, rev: nat) {
    && (forall t :: t in page ==> t in rows && page[t].token == t && page[t].revision > watermark
                                  && (rows[t] == page[t] || rows[t].revision > rev))
    && (forall t :: t in rows && t !in page ==> rows[t].revision <= watermark || rows[t].revision > rev)
  }

  ghost predicate Inv(s: State, now: int) {
    && Stamped(s.rows, s.revision)
    && match s.phase
       case Unloaded => true
       case Booting(rev) => rev <= s.revision
       case Idle => s.watermark <= s.revision && InSync(s.view, s.rows, s.watermark, now)
       case RevisionRead(rev) => s.watermark <= rev <= s.revision && InSync(s.view, s.rows, s.watermark, now)
       case RowsRead(rev, page) =>
         s.watermark <= rev <= s.revision && InSync(s.view, s.rows, s.watermark, now)
         && CurrentUpTo(page, s.rows, s.watermark, rev)
  }

  lemma WriteKeepsSync(s: State, s': State, now: int)
    requires Write(s, s') && s.watermark <= s.revision && InSync(s.view, s.rows, s.watermark, now)
    ensures InSync(s'.view, s'.rows, s'.watermark, now)
  {
    forall t | t in s'.rows && s'.rows[t].revision <= s.watermark ensures Reflects(s.view, s'.rows, t, now) {
      assert t in s.rows && s'.rows[t] == s.rows[t];
      assert Reflects(s.view, s.rows, t, now);
    }
  }

  lemma ReloadInSync(rows: RecordTable, watermark: nat, now: int)
    ensures InSync(Reload(rows, now), rows, watermark, now)
  {
  }

  lemma ApplyKeepsSync(s: State, s': State, now: int)
    requires Inv(s, now) && ApplyPage(s, s', now)
    ensures InSync(s'.view, s'.rows, s'.watermark, now)
  {
    var page, rev := s.phase.page, s.phase.rev;
    forall t | t in s.rows && s.rows[t].revision <= rev ensures Reflects(s'.view, s.rows, t, now) {
      if t in page {
        assert page[t] == s.rows[t];
      } else {
        assert Reflects(s.view, s.rows, t, now);
      }
    }
  }

  lemma {:induction false} InvIsInductive(s: State, s': State, now: int)
    requires Inv(s, now) && Next(s, s', now)
    ensures Inv(s', now)
  {
    if Write(s, s') {
      if !s.phase.Unloaded? && !s.phase.Booting? {
        WriteKeepsSync(s, s', now);
      }
    } else if BootRows(s, s', now) {
      ReloadInSync(s.rows, s.phase.rev, now);
    } else if ApplyPage(s, s', now) {
      ApplyKeepsSync(s, s', now);
    }
  }

  lemma {:induction false} RunKeepsInv(run: seq<State>, now: int, i: nat)
    requires IsRun(run, now) && i < |run|
    ensures Inv(run[i], now)
  {
    if i > 0 {
      RunKeepsInv(run, now, i - 1);
      assert Next(run[i - 1], run[i], now);
      InvIsInductive(run[i - 1], run[i], now);
    }
  }

  // ---------------------------------------------------------------------------
  // Results over every run
  // ---------------------------------------------------------------------------

  ghost predicate Loaded(s: State) { !s.phase.Unloaded? && !s.phase.Booting? }

  /** No lost update: in every state of every interleaving after the load, every row up to the
      table's watermark is reflected in the table. */
  lemma NoLostUpdate(run: seq<State>, now: int, i: nat, t: string)
    requires IsRun(run, now) && i < |run| && Loaded(run[i])
    requires t in run[i].rows && run[i].rows[t].revision <= run[i].watermark
    ensures Reflects(run[i].view, run[i].rows, t, now)
  {
    RunKeepsInv(run, now, i);
  }

  /** A table whose watermark is the global revision is the reloaded table, whatever interleaving
      led there. */
  lemma CaughtUpIsReloaded(run: seq<State>, now: int, i: nat)
    requires IsRun(run, now) && i < |run| && Loaded(run[i])
    requires run[i].watermark == run[i].revision
    ensures run[i].view == Reload(run[i].rows, now)
  {
    RunKeepsInv(run, now, i);
    var s := run[i];
    OverlayIsReload(s.view, s.rows, s.watermark, now);
    assert ChangedSince(s.rows, s.watermark) == {};
    OverlayNothing(s.view, s.rows, now);
  }

  /** One scan that no write interrupts catches up, from any state a run reaches. */
  lemma {:induction false} QuietScanCatchesUp(run: seq<State>, now: int, i: nat)
    requires IsRun(run, now) && 3 <= i < |run|
    requires ReadRevision(run[i - 3], run[i - 2]) && ReadRows(run[i - 2], run[i - 1])
             && ApplyPage(run[i - 1], run[i], now)
    ensures run[i].watermark == run[i].revision && run[i].view == Reload(run[i].rows, now)
  {
    RunKeepsInv(run, now, i - 3);
    CaughtUpIsReloaded(run, now, i);
  }
}
