// Synchronising the runtime table with the repository: a full load, an incremental
// catch-up, and the proof that the second refines the first.
module AccountSync {
  import opened AccountModels
  import opened AccountTable
  import opened AccountRepository
  import opened KeyedRows

  // ---------------------------------------------------------------------------
  // The token-indexed view of a table
  // ---------------------------------------------------------------------------

  /** Everything a record determines about its slot. Health, inflight and cooling are runtime state. */
  datatype SlotView = SlotView(
    pool: Pool,
    status: StatusId,
    quota: PerMode,
    total: PerMode,
    window: PerMode,
    reset: PerMode,
    failCount: nat,
    lastUse: nat,
    lastFail: nat,
    buckets: set<(Pool, ModeId)>,
    tags: set<string>)

  type TableView = map<string, SlotView>

  ghost function Buckets(s: Slot): set<(Pool, ModeId)> { set p: Pool, m: ModeId | InBucket(s, p, m) :: (p, m) }

  ghost function Project(s: Slot): SlotView {
    SlotView(s.pool, s.status, s.quota, s.total, s.window, s.reset, s.failCount, s.lastUse, s.lastFail, Buckets(s),
      s.tags)
  }

  ghost function CellOf(s: Slot): Cell<SlotView> {
    Cell(s.token, if s.status == DELETED then None else Some(Project(s)))
  }

  ghost function Cells(rows: seq<Slot>): seq<Cell<SlotView>> {
    seq(|rows|, i requires 0 <= i < |rows| => CellOf(rows[i]))
  }

  ghost predicate DistinctTokens(rows: seq<Slot>) { KeysDiffer(Cells(rows)) }

  /** The live slots by token; deleted slots are not in the view. */
  ghost function ViewOf(rows: seq<Slot>): TableView
    requires DistinctTokens(rows)
  {
    Keyed(Cells(rows))
  }

  lemma ValidTokensDistinct(t: AccountRuntimeTable)
    requires t.Valid()
    ensures DistinctTokens(t.Rows())
  {
    forall i, j | 0 <= i < j < |t.Rows()| ensures Cells(t.Rows())[i].key != Cells(t.Rows())[j].key {
      assert t.cols.token[i] in t.idxByToken && t.cols.token[j] in t.idxByToken;
    }
  }

  /** The buckets of the view are the real buckets of the table, read through the slot. */
  lemma ViewBucketsAreReal(t: AccountRuntimeTable, i: nat)
    requires t.Valid() && i < |t.Rows()|
    ensures Project(t.Rows()[i]).buckets == set p: Pool, m: ModeId | i in Bucket(t.modeAvailable, p, m) :: (p, m)
    ensures Project(t.Rows()[i]).tags == set tag | tag in t.tagIdx && i in t.tagIdx[tag]
  {
    assert forall p: Pool, m: ModeId :: InBucket(t.Rows()[i], p, m) <==> InBucket(t.cols.Row(i), p, m);
  }

  // ---------------------------------------------------------------------------
  // Reload and overlay
  // ---------------------------------------------------------------------------

  ghost function ViewOfRecord(r: AccountRecord, now: int): SlotView {
    Project(NewSlot(r.token, RecordToSlotArgs(r, now)))
  }

  /** The view of a freshly loaded table. */
  ghost function Reload(rows: RecordTable, now: int): TableView {
    map t | t in rows && !rows[t].IsDeleted() :: ViewOfRecord(rows[t], now)
  }

  ghost function CellValue(r: AccountRecord, now: int): Option<SlotView> {
    if r.IsDeleted() then None else Some(ViewOfRecord(r, now))
  }

  ghost function PageCells(rows: RecordTable, page: set<string>, now: int): map<string, Option<SlotView>>
    requires page <= rows.Keys
  {
    map t | t in page :: CellValue(rows[t], now)
  }

  /** A view after the rows of a page have been applied to it: the deleted ones are gone and the
      live ones show their record. */
  ghost function Overlay(view: TableView, rows: RecordTable, page: set<string>, now: int): TableView
    requires page <= rows.Keys
  {
    Apply(view, PageCells(rows, page, now))
  }

  /** The view shows the current state of one row. */
  ghost predicate Reflects(view: TableView, rows: RecordTable, t: string, now: int)
    requires t in rows
  {
    if rows[t].IsDeleted() then t !in view else t in view && view[t] == ViewOfRecord(rows[t], now)
  }

  /** In sync at a watermark: no unknown token, and every row up to the watermark is reflected. */
  ghost predicate InSync(view: TableView, rows: RecordTable, watermark: nat, now: int) {
    && view.Keys <= rows.Keys
    && forall t :: t in rows && rows[t].revision <= watermark ==> Reflects(view, rows, t, now)
  }

  /** Incremental sync refines reload: applying all changed rows gives the freshly loaded view. */
  lemma {:induction false} OverlayIsReload(view: TableView, rows: RecordTable, watermark: nat, now: int)
    requires InSync(view, rows, watermark, now)
    ensures Overlay(view, rows, ChangedSince(rows, watermark), now) == Reload(rows, now)
  {
    var cells, target := PageCells(rows, ChangedSince(rows, watermark), now), Reload(rows, now);
    forall t | t !in cells ensures SameAt(view, target, t) {
      if t in rows {
        assert Reflects(view, rows, t, now);
      }
    }
    ApplyGives(view, cells, target);
  }

  lemma OverlayTwice(view: TableView, rows: RecordTable, p: set<string>, q: set<string>, now: int)
    requires p <= rows.Keys && q <= rows.Keys
    ensures Overlay(Overlay(view, rows, p, now), rows, q, now) == Overlay(view, rows, p + q, now)
  {
    ApplyTwice(view, PageCells(rows, p, now), PageCells(rows, q, now));
    assert PageCells(rows, p + q, now) == PageCells(rows, p, now) + PageCells(rows, q, now);
  }

  lemma {:induction false} OverlayOneMore(view: TableView, rows: RecordTable, page: set<string>, t: string, now: int)
    requires page <= rows.Keys && t in rows
    ensures Overlay(view, rows, page + {t}, now) == Store(Overlay(view, rows, page, now),
            Cell(t, CellValue(rows[t], now)))
  {
    ApplyOneMore(view, PageCells(rows, page, now), t, CellValue(rows[t], now));
    assert PageCells(rows, page + {t}, now) == PageCells(rows, page, now)[t := CellValue(rows[t], now)];
  }

  lemma OverlayNothing(view: TableView, rows: RecordTable, now: int)
    ensures Overlay(view, rows, {}, now) == view
  {
  }

  /** A page that leaves out changed rows cannot be trusted: because the watermark still moves to
      the global revision, catching up gives the reloaded view from every in-sync table and for
      every page the scan may return exactly when the changed rows fit in one page. */
  lemma {:induction false} OnePageIsExact(rows: RecordTable, watermark: nat, limit: nat, now: int)
    ensures (forall view, page :: InSync(view, rows, watermark, now) && IsPage(rows, watermark, limit, page)
               ==> Overlay(view, rows, page, now) == Reload(rows, now))
            <==> |ChangedSince(rows, watermark)| <= limit
  {
    if |ChangedSince(rows, watermark)| <= limit {
      forall view, page | InSync(view, rows, watermark, now) && IsPage(rows, watermark, limit, page)
        ensures Overlay(view, rows, page, now) == Reload(rows, now)
      {
        FullPageReloads(view, rows, watermark, limit, page, now);
      }
    } else {
      var view, page := ShortPageFails(rows, watermark, limit, now);
    }
  }

  lemma {:induction false} FullPageReloads(view: TableView, rows: RecordTable, watermark: nat, limit: nat,
                                           page: set<string>, now: int)
    requires InSync(view, rows, watermark, now) && IsPage(rows, watermark, limit, page)
    requires |ChangedSince(rows, watermark)| <= limit
    ensures Overlay(view, rows, page, now) == Reload(rows, now)
  {
    FittingPage(rows, watermark, limit, page);
    OverlayIsReload(view, rows, watermark, now);
  }

  lemma {:induction false} ShortPageFails(rows: RecordTable, watermark: nat, limit: nat, now: int)
      returns (view: TableView, page: set<string>)
    requires |ChangedSince(rows, watermark)| > limit
    ensures InSync(view, rows, watermark, now) && IsPage(rows, watermark, limit, page)
    ensures Overlay(view, rows, page, now) != Reload(rows, now)
  {
    var changed := ChangedSince(rows, watermark);
    page := SomePage(rows, watermark, limit);
    SubsetSize(page, changed);
    assert changed - page == {} ==> changed == page;
    var t :| t in changed - page;
    view := StaleView(rows, t, now);
    StaleIsInSync(rows, watermark, t, now);
    StaleStays(rows, page, t, now);
  }

  /** A view that is wrong about a changed row only is in sync. */
  lemma StaleIsInSync(rows: RecordTable, watermark: nat, t: string, now: int)
    requires t in ChangedSince(rows, watermark)
    ensures InSync(StaleView(rows, t, now), rows, watermark, now)
  {
  }

  /** A page that leaves the row out does not put the view right. */
  lemma StaleStays(rows: RecordTable, page: set<string>, t: string, now: int)
    requires page <= rows.Keys && t in rows && t !in page
    ensures Overlay(StaleView(rows, t, now), rows, page, now) != Reload(rows, now)
  {
    var view := StaleView(rows, t, now);
    assert t in Overlay(view, rows, page, now) <==> t in view;
  }

  /** The reloaded view with one token wrong: missing if it is live, present if it is deleted. */
  ghost function StaleView(rows: RecordTable, t: string, now: int): TableView
    requires t in rows
  {
    if rows[t].IsDeleted() then Reload(rows, now)[t := ViewOfRecord(rows[t], now)] else Reload(rows, now) - {t}
  }

  lemma {:induction false} SomePage(rows: RecordTable, since: nat, limit: nat) returns (page: set<string>)
    ensures IsPage(rows, since, limit, page)
    decreases limit
  {
    page := {};
    if limit > 0 {
      page := SomePage(rows, since, limit - 1);
      var rest := ChangedSince(rows, since) - page;
      SubsetSize(page, ChangedSince(rows, since));
      if rest != {} {
        var t := OldestExists(rows, rest);
        assert |page + {t}| == |page| + 1;
        page := page + {t};
        SubsetSize(page, ChangedSince(rows, since));
      }
    }
  }

  lemma {:induction false} OldestExists(rows: RecordTable, tokens: set<string>) returns (t: string)
    requires tokens != {} && tokens <= rows.Keys
    ensures t in tokens && forall u :: u in tokens ==> rows[t].revision <= rows[u].revision
  {
    t :| t in tokens;
    if tokens != {t} {
      var u := OldestExists(rows, tokens - {t});
      t := if rows[t].revision <= rows[u].revision then t else u;
    }
  }

  /** Every bucket a view puts a token in belongs to a pool that supports the bucket's mode. */
  ghost predicate Supported(view: TableView) { forall t :: t in view ==> ViewSupported(view[t]) }

  ghost predicate ViewSupported(v: SlotView) { forall p: Pool, m: ModeId :: (p, m) in v.buckets ==> SupportsMode(p, m) }

  ghost predicate SlotSupported(s: Slot) { forall p: Pool, m: ModeId :: InBucket(s, p, m) ==> SupportsMode(p, m) }

  /** Every bucket member's pool supports the bucket's mode. */
  ghost predicate RowsSupported(rows: seq<Slot>) { forall i :: 0 <= i < |rows| ==> SlotSupported(rows[i]) }

  /** A slot that joins no bucket stays supported. */
  lemma OneSlotSupported(rows: seq<Slot>, i: nat, s: Slot)
    requires RowsSupported(rows) && i < |rows|
    requires forall p: Pool, m: ModeId :: InBucket(s, p, m) ==> InBucket(rows[i], p, m)
    ensures RowsSupported(rows[i := s])
  {
    assert SlotSupported(rows[i]);
  }

  /** Loading gives a supported view and applying a page keeps it so. */
  lemma SyncKeepsSupport(view: TableView, rows: RecordTable, page: set<string>, now: int)
    requires page <= rows.Keys && Supported(view)
    ensures Supported(Overlay(view, rows, page, now)) && Supported(Reload(rows, now))
  {
    forall t | t in rows ensures ViewSupported(ViewOfRecord(rows[t], now)) {
      RecordSupported(rows[t], now);
    }
    assert Supported(Reload(rows, now)) by {
      forall t | t in Reload(rows, now) ensures ViewSupported(Reload(rows, now)[t]) {
      }
    }
    forall t | t in Overlay(view, rows, page, now) ensures ViewSupported(Overlay(view, rows, page, now)[t]) {
      if t !in page {
        assert Overlay(view, rows, page, now)[t] == view[t];
      }
    }
  }

  lemma RecordSupported(r: AccountRecord, now: int)
    ensures ViewSupported(ViewOfRecord(r, now))
  {
    forall p: Pool, m: ModeId | (p, m) in ViewOfRecord(r, now).buckets ensures SupportsMode(p, m) {
      SlotWindowsAreSupported(r, now, m);
    }
  }

  // ---------------------------------------------------------------------------
  // The clock
  // ---------------------------------------------------------------------------

  /** A cooldown that runs out between two clock values. */
  predicate Thaws(r: AccountRecord, from: int, to: int) {
    !r.IsDeleted() && r.status == Cooling && r.cooldownUntil.Some? && from < r.cooldownUntil.value <= to
  }

  /** With no change in the repository a table loaded earlier differs from one loaded now exactly
      when some cooldown ran out in between: expiry of a cooldown bumps no revision. */
  lemma {:induction false} EarlierLoadAgrees(rows: RecordTable, from: int, to: int)
    requires from <= to
    ensures Reload(rows, from) == Reload(rows, to) <==> forall t :: t in rows ==> !Thaws(rows[t], from, to)
  {
    forall t | t in rows && !rows[t].IsDeleted()
      ensures ViewOfRecord(rows[t], from) == ViewOfRecord(rows[t], to) <==> !Thaws(rows[t], from, to)
    {
      StatusDecidesView(rows[t], from, to);
    }
    if forall t :: t in rows ==> !Thaws(rows[t], from, to) {
      assert Reload(rows, from) == Reload(rows, to);
    } else {
      var t :| t in rows && Thaws(rows[t], from, to);
      assert Reload(rows, from)[t] != Reload(rows, to)[t];
    }
  }

  lemma StatusDecidesView(r: AccountRecord, from: int, to: int)
    ensures ViewOfRecord(r, from) == ViewOfRecord(r, to) <==> DeriveStatus(r, from) == DeriveStatus(r, to)
  {
    if DeriveStatus(r, from) != DeriveStatus(r, to) {
      assert ViewOfRecord(r, from).status != ViewOfRecord(r, to).status;
    } else {
      assert RecordToSlotArgs(r, from) == RecordToSlotArgs(r, to);
    }
  }

  // ---------------------------------------------------------------------------
  // The fast path and the simple predicate
  // ---------------------------------------------------------------------------

  /** The record as selection sees it: with its quota set normalised for its pool. */
  function Normalized(r: AccountRecord): AccountRecord { r.(quota := NormalizeQuotaSet(r.pool, r.quota)) }

  /** The bucket-and-quota test of a freshly synced slot is the record-level test, narrowed to
      windows of positive length. */
  lemma FastPathAgrees(r: AccountRecord, mode: ModeId, now: int)
    requires !r.IsDeleted()
    ensures var s := NewSlot(r.token, RecordToSlotArgs(r, now));
            (InBucket(s, r.pool, mode) && s.quota.Get(mode) > 0)
            <==> (IsSelectable(Normalized(r), mode, now) && Normalized(r).quota.Get(mode).value.windowSeconds > 0)
  {
  }

  /** So the two tests agree on a mode exactly when quota left implies a window of positive length. */
  lemma FastPathExact(r: AccountRecord, mode: ModeId, now: int)
    requires !r.IsDeleted()
    ensures var s := NewSlot(r.token, RecordToSlotArgs(r, now));
            var w := Normalized(r).quota.Get(mode);
            ((InBucket(s, r.pool, mode) && s.quota.Get(mode) > 0) == IsSelectable(Normalized(r), mode, now))
            <==> (DeriveStatus(r, now) == Active && w.Some? && w.value.remaining > 0 ==> w.value.windowSeconds > 0)
  {
    FastPathAgrees(r, mode, now);
  }

  // ---------------------------------------------------------------------------
  // Table operations seen through the view
  // ---------------------------------------------------------------------------

  lemma ViewAfterAppend(rows: seq<Slot>, s: Slot)
    requires DistinctTokens(rows + [s])
    ensures DistinctTokens(rows) && ViewOf(rows + [s]) == Store(ViewOf(rows), CellOf(s))
  {
    assert Cells(rows + [s]) == Cells(rows) + [CellOf(s)];
    KeyedAfterAppend(Cells(rows), CellOf(s));
  }

  lemma ViewAfterSet(rows: seq<Slot>, i: nat, s: Slot)
    requires DistinctTokens(rows) && i < |rows| && s.token == rows[i].token
    ensures DistinctTokens(rows[i := s]) && ViewOf(rows[i := s]) == Store(ViewOf(rows), CellOf(s))
  {
    assert Cells(rows[i := s]) == Cells(rows)[i := CellOf(s)];
    KeyedAfterSet(Cells(rows), i, CellOf(s));
  }
}
