// The two entry points of the synchroniser: bootstrap, a full load, and apply_changes, the
// incremental catch-up loop, each proved against the token-indexed view.
module AccountCatchUp {
  import opened AccountModels
  import opened AccountTable
  import opened AccountRepository
  import opened KeyedRows
  import opened Sequences
  import opened AccountSync
  import opened AccountColumns

  ghost function ViewOfTable(t: AccountRuntimeTable): TableView
    requires t.Valid()
    reads t
  {
    ValidTokensDistinct(t);
    ViewOf(t.Rows())
  }

  /** Sync never moves a slot and leaves its runtime columns alone; new slots start idle. */
  ghost predicate KeepsRuntime(before: seq<Slot>, after: seq<Slot>) {
    && |before| <= |after|
    && (forall i :: 0 <= i < |before| ==> SameRuntime(before[i], after[i]))
    && (forall i :: |before| <= i < |after| ==> after[i].inflight == 0 && after[i].cooling == 0)
  }

  ghost predicate SameRuntime(a: Slot, b: Slot) {
    a.token == b.token && a.inflight == b.inflight && a.cooling == b.cooling && a.health == b.health
  }

  lemma CellsOfRecord(r: AccountRecord, s: Slot, now: int)
    requires s.token == r.token
    ensures CellOf(NewSlot(r.token, RecordToSlotArgs(r, now))) == Cell(r.token, Some(ViewOfRecord(r, now)))
    ensures CellOf(UpdatedSlot(s, RecordToSlotArgs(r, now))) == Cell(r.token, Some(ViewOfRecord(r, now)))
  {
    var a := RecordToSlotArgs(r, now);
    assert Buckets(UpdatedSlot(s, a)) == Buckets(NewSlot(s.token, a)) by {
      assert forall p: Pool, m: ModeId :: InBucket(UpdatedSlot(s, a), p, m) <==> InBucket(NewSlot(s.token, a), p, m);
    }
  }

  lemma TokenSlot(t: AccountRuntimeTable, token: string)
    requires t.Valid()
    ensures token in t.idxByToken ==>
              t.idxByToken[token] < |t.Rows()| && t.Rows()[t.idxByToken[token]].token == token
    ensures token !in t.idxByToken ==> token !in ViewOfTable(t)
  {
    if token in ViewOfTable(t) {
      ValidTokensDistinct(t);
      KeyedShows(Cells(t.Rows()));
      assert HasKey(Cells(t.Rows()), token);
      var i :| 0 <= i < |t.Rows()| && Cells(t.Rows())[i].key == token;
      assert t.cols.token[i] in t.idxByToken;
    }
  }

  /** A live slot is in the view under its token. */
  lemma LiveSlotInView(t: AccountRuntimeTable, i: nat)
    requires t.Valid() && i < |t.Rows()|
    ensures var s := t.Rows()[i];
            if s.status == DELETED then s.token !in ViewOfTable(t)
            else s.token in ViewOfTable(t) && ViewOfTable(t)[s.token] == Project(s)
  {
    ValidTokensDistinct(t);
    KeyedShows(Cells(t.Rows()));
    assert Shows(ViewOfTable(t), Cells(t.Rows())[i]);
  }

  lemma ProjectSupported(s: Slot)
    ensures SlotSupported(s) <==> ViewSupported(Project(s))
  {
    forall p: Pool, m: ModeId ensures (p, m) in Project(s).buckets <==> InBucket(s, p, m) {
    }
  }

  /** The buckets of a table are supported exactly when those of its view are. */
  lemma TableSupported(t: AccountRuntimeTable)
    requires t.Valid()
    ensures RowsSupported(t.Rows()) <==> Supported(ViewOfTable(t))
  {
    var rows, view := t.Rows(), ViewOfTable(t);
    if Supported(view) {
      forall i: nat | i < |rows| ensures SlotSupported(rows[i]) {
        LiveSlotInView(t, i);
        ProjectSupported(rows[i]);
      }
    }
    if RowsSupported(rows) {
      forall token | token in view ensures ViewSupported(view[token]) {
        TokenSlot(t, token);
        var i := t.idxByToken[token];
        LiveSlotInView(t, i);
        ProjectSupported(rows[i]);
        assert SlotSupported(rows[i]);
      }
    }
  }

  /** A live slot of a table that shows the repository is the slot of its token's record. */
  lemma SlotShowsRecord(t: AccountRuntimeTable, rows: RecordTable, now: int, i: nat)
    requires t.Valid() && ViewOfTable(t) == Reload(rows, now) && i < |t.Rows()| && t.Rows()[i].status != DELETED
    ensures var s := t.Rows()[i];
            s.token in rows && !rows[s.token].IsDeleted() && Project(s) == ViewOfRecord(rows[s.token], now)
  {
    LiveSlotInView(t, i);
  }

  /** In a table that shows the repository, the bucket-and-quota test of a live slot is the
      record-level test of its token, narrowed to windows of positive length. */
  lemma TableFastPath(t: AccountRuntimeTable, rows: RecordTable, now: int, i: nat, mode: ModeId)
    requires t.Valid() && ViewOfTable(t) == Reload(rows, now) && i < |t.Rows()| && t.Rows()[i].status != DELETED
    ensures t.Rows()[i].token in rows
    ensures var r := rows[t.Rows()[i].token];
            (i in Bucket(t.modeAvailable, r.pool, mode) && t.Rows()[i].quota.Get(mode) > 0)
            <==> (IsSelectable(Normalized(r), mode, now) && Normalized(r).quota.Get(mode).value.windowSeconds > 0)
  {
    var s := t.Rows()[i];
    SlotShowsRecord(t, rows, now, i);
    var r := rows[s.token];
    var loaded := NewSlot(r.token, RecordToSlotArgs(r, now));
    assert Project(s) == Project(loaded);
    BucketRows(t.cols, t.modeAvailable, t.tagIdx, r.pool, mode, i);
    FastPathAgrees(r, mode, now);
  }

  /** So in such a table the two tests agree on a live slot exactly when an active record's quota
      left implies a window of positive length. */
  lemma TableFastPathExact(t: AccountRuntimeTable, rows: RecordTable, now: int, i: nat, mode: ModeId)
    requires t.Valid() && ViewOfTable(t) == Reload(rows, now) && i < |t.Rows()| && t.Rows()[i].status != DELETED
    ensures t.Rows()[i].token in rows
    ensures var r := rows[t.Rows()[i].token];
            var w := Normalized(r).quota.Get(mode);
            ((i in Bucket(t.modeAvailable, r.pool, mode) && t.Rows()[i].quota.Get(mode) > 0)
              == IsSelectable(Normalized(r), mode, now))
            <==> (DeriveStatus(r, now) == Active && w.Some? && w.value.remaining > 0 ==> w.value.windowSeconds > 0)
  {
    SlotShowsRecord(t, rows, now, i);
    TableFastPath(t, rows, now, i, mode);
    var r := rows[t.Rows()[i].token];
    FastPathAgrees(r, mode, now);
    FastPathExact(r, mode, now);
  }

  // ---------------------------------------------------------------------------
  // One row
  // ---------------------------------------------------------------------------

  /** The tags the index holds for a slot, by reverse lookup over every bucket. */
  method CollectTags(index: TagIndex, idx: nat) returns (tags: set<string>)
    ensures tags == TagsOf(index, idx)
  {
    tags := {};
    var todo := index.Keys;
    while todo != {}
      invariant todo <= index.Keys
      invariant tags == set tag | tag in index.Keys - todo && idx in index[tag]
      decreases todo
    {
      var tag :| tag in todo;
      if idx in index[tag] {
        tags := tags + {tag};
      }
      todo := todo - {tag};
    }
  }

  method DeleteToken(table: AccountRuntimeTable, token: string) returns (changed: bool)
    requires table.Valid()
    modifies table
    ensures table.Valid() && table.revision == old(table.revision)
    ensures ViewOfTable(table) == Store(old(ViewOfTable(table)), Cell(token, None))
    ensures KeepsRuntime(old(table.Rows()), table.Rows())
    ensures table.idxByToken == old(table.idxByToken)
    ensures !changed ==> table.Rows() == old(table.Rows())
  {
    TokenSlot(table, token);
    changed := token in table.idxByToken;
    if changed {
      var idx := table.idxByToken[token];
      ghost var rows := table.Rows();
      ValidTokensDistinct(table);
      ViewAfterSet(rows, idx, rows[idx].(status := DELETED));
      table.MarkDeleted(idx);
    }
  }

  method AppendRecord(table: AccountRuntimeTable, r: AccountRecord, now: int)
    requires table.Valid() && r.token !in table.idxByToken
    modifies table
    ensures table.Valid() && table.revision == old(table.revision)
    ensures ViewOfTable(table) == old(ViewOfTable(table))[r.token := ViewOfRecord(r, now)]
    ensures KeepsRuntime(old(table.Rows()), table.Rows())
    ensures table.idxByToken.Keys == old(table.idxByToken.Keys) + {r.token}
  {
    var a := RecordToSlotArgs(r, now);
    ghost var rows := table.Rows();
    var _ := table.AppendSlot(r.token, a);
    ValidTokensDistinct(table);
    CellsOfRecord(r, NewSlot(r.token, a), now);
    ViewAfterAppend(rows, NewSlot(r.token, a));
  }

  method RefreshRecord(table: AccountRuntimeTable, r: AccountRecord, now: int)
    requires table.Valid() && r.token in table.idxByToken
    modifies table
    ensures table.Valid() && table.revision == old(table.revision)
    ensures ViewOfTable(table) == old(ViewOfTable(table))[r.token := ViewOfRecord(r, now)]
    ensures KeepsRuntime(old(table.Rows()), table.Rows())
    ensures table.idxByToken == old(table.idxByToken)
  {
    var a := RecordToSlotArgs(r, now);
    ghost var rows := table.Rows();
    ValidTokensDistinct(table);
    TokenSlot(table, r.token);
    var idx := table.idxByToken[r.token];
    var oldTags := CollectTags(table.tagIdx, idx);
    CellsOfRecord(r, rows[idx], now);
    ViewAfterSet(rows, idx, UpdatedSlot(rows[idx], a));
    table.UpdateSlot(idx, a, oldTags);
  }

  method StoreRecord(table: AccountRuntimeTable, r: AccountRecord, now: int)
    requires table.Valid()
    modifies table
    ensures table.Valid() && table.revision == old(table.revision)
    ensures ViewOfTable(table) == old(ViewOfTable(table))[r.token := ViewOfRecord(r, now)]
    ensures ShowsRecord(ViewOfTable(table)[r.token], r, now)
    ensures KeepsRuntime(old(table.Rows()), table.Rows())
    ensures table.idxByToken.Keys == old(table.idxByToken.Keys) + {r.token}
  {
    if r.token in table.idxByToken {
      RefreshRecord(table, r, now);
    } else {
      AppendRecord(table, r, now);
    }
    RecordIsShown(r, now);
  }

  // ---------------------------------------------------------------------------
  // Full load
  // ---------------------------------------------------------------------------

  ghost predicate TokensDiffer(items: seq<AccountRecord>) {
    forall i, j :: 0 <= i < j < |items| ==> items[i].token != items[j].token
  }

  lemma TokensTaken(items: seq<AccountRecord>, i: nat)
    requires i < |items|
    ensures TokensOf(items[..i + 1]) == TokensOf(items[..i]) + {items[i].token}
  {
    AppendToken(items[..i], items[i]);
    assert items[..i + 1] == items[..i] + [items[i]];
  }

  lemma NewToken(items: seq<AccountRecord>, i: nat)
    requires TokensDiffer(items) && i < |items|
    ensures items[i].token !in TokensOf(items[..i])
  {
  }

  /** Deleted records are passed over. */
  method LoadItem(table: AccountRuntimeTable, r: AccountRecord, now: int)
    requires table.Valid() && r.token !in table.idxByToken
    modifies table
    ensures table.Valid() && table.revision == old(table.revision)
    ensures ViewOfTable(table) == if r.IsDeleted() then old(ViewOfTable(table))
                                  else Store(old(ViewOfTable(table)), Cell(r.token, CellValue(r, now)))
    ensures table.idxByToken.Keys == old(table.idxByToken.Keys) + (if r.IsDeleted() then {} else {r.token})
    ensures KeepsRuntime(old(table.Rows()), table.Rows())
  {
    if !r.IsDeleted() {
      AppendRecord(table, r, now);
    }
  }

  method LoadItems(table: AccountRuntimeTable, ghost rows: RecordTable, items: seq<AccountRecord>, now: int)
    requires table.Valid() && table.idxByToken == map[] && TokensDiffer(items)
    requires forall r :: r in items ==> r.token in rows && r == rows[r.token] && !r.IsDeleted()
    modifies table
    ensures table.Valid() && table.revision == old(table.revision)
    ensures TokensOf(items) <= rows.Keys
    ensures ViewOfTable(table) == Overlay(old(ViewOfTable(table)), rows, TokensOf(items), now)
    ensures KeepsRuntime(old(table.Rows()), table.Rows())
  {
    ghost var before := ViewOfTable(table);
    ghost var page: set<string> := {};
    OverlayNothing(before, rows, now);
    for i := 0 to |items|
      invariant table.Valid() && table.revision == old(table.revision)
      invariant table.idxByToken.Keys == page == TokensOf(items[..i]) && page <= rows.Keys
      invariant ViewOfTable(table) == Overlay(before, rows, page, now)
      invariant KeepsRuntime(old(table.Rows()), table.Rows())
    {
      var r := items[i];
      assert r in items;
      OverlayOneMore(before, rows, page, r.token, now);
      TokensTaken(items, i);
      NewToken(items, i);
      LoadItem(table, r, now);
      page := page + {r.token};
    }
    assert items[..|items|] == items;
  }

  method Bootstrap(repo: LocalAccountRepository, now: int) returns (table: AccountRuntimeTable)
    requires repo.Valid()
    ensures fresh(table) && table.Valid()
    ensures table.revision == repo.revision
    ensures ViewOfTable(table) == Reload(repo.rows, now) && ShowsRecords(ViewOfTable(table), repo.rows, now)
    ensures KeepsRuntime([], table.Rows())
  {
    LoadShowsRecords(repo.rows, now);
    var rev, items := repo.RuntimeSnapshot();
    table := new AccountRuntimeTable();
    assert ViewOfTable(table) == map[];
    LiveItems(repo.rows, items);
    LoadItems(table, repo.rows, items, now);
    OverlayLive(repo.rows, now);
    table.revision := rev;
  }

  lemma LiveItems(rows: RecordTable, items: seq<AccountRecord>)
    requires TokensOf(items) == LiveTokens(rows)
    requires forall r :: r in items ==> r.token in rows && r == rows[r.token]
    ensures forall r :: r in items ==> r.token in rows && r == rows[r.token] && !r.IsDeleted()
  {
    forall r | r in items ensures !r.IsDeleted() {
      assert r.token in TokensOf(items);
    }
  }

  lemma OverlayLive(rows: RecordTable, now: int)
    ensures Overlay(map[], rows, LiveTokens(rows), now) == Reload(rows, now)
  {
  }

  // ---------------------------------------------------------------------------
  // Incremental catch-up
  // ---------------------------------------------------------------------------

  lemma ElementTaken(tokens: seq<string>, i: nat)
    requires i < |tokens|
    ensures Elements(tokens[..i + 1]) == Elements(tokens[..i]) + {tokens[i]}
  {
    assert tokens[..i + 1] == tokens[..i] + [tokens[i]];
  }

  method ApplyDeleted(table: AccountRuntimeTable, ghost rows: RecordTable, tokens: seq<string>, ghost now: int)
    returns (changed: bool)
    requires table.Valid() && forall t :: t in tokens ==> t in rows && rows[t].IsDeleted()
    modifies table
    ensures table.Valid() && table.revision == old(table.revision)
    ensures Elements(tokens) <= rows.Keys
    ensures ViewOfTable(table) == Overlay(old(ViewOfTable(table)), rows, Elements(tokens), now)
    ensures KeepsRuntime(old(table.Rows()), table.Rows())
    ensures !changed ==> table.Rows() == old(table.Rows())
  {
    changed := false;
    ghost var before := ViewOfTable(table);
    ghost var page: set<string> := {};
    OverlayNothing(before, rows, now);
    for i := 0 to |tokens|
      invariant table.Valid() && table.revision == old(table.revision)
      invariant page == Elements(tokens[..i]) && page <= rows.Keys
      invariant ViewOfTable(table) == Overlay(before, rows, page, now)
      invariant KeepsRuntime(old(table.Rows()), table.Rows())
      invariant !changed ==> table.Rows() == old(table.Rows())
    {
      var t := tokens[i];
      assert t in tokens;
      OverlayOneMore(before, rows, page, t, now);
      ElementTaken(tokens, i);
      var known := DeleteToken(table, t);
      changed := changed || known;
      page := page + {t};
    }
    assert tokens[..|tokens|] == tokens;
  }

  method ApplyItem(table: AccountRuntimeTable, r: AccountRecord, now: int) returns (changed: bool)
    requires table.Valid()
    modifies table
    ensures table.Valid() && table.revision == old(table.revision)
    ensures ViewOfTable(table) == Store(old(ViewOfTable(table)), Cell(r.token, CellValue(r, now)))
    ensures KeepsRuntime(old(table.Rows()), table.Rows())
    ensures !changed ==> table.Rows() == old(table.Rows())
  {
    if r.IsDeleted() {
      changed := DeleteToken(table, r.token);
    } else {
      StoreRecord(table, r, now);
      changed := true;
    }
  }

  method ApplyItems(table: AccountRuntimeTable, ghost rows: RecordTable, items: seq<AccountRecord>, now: int)
    returns (changed: bool)
    requires table.Valid() && forall r :: r in items ==> r.token in rows && r == rows[r.token]
    modifies table
    ensures table.Valid() && table.revision == old(table.revision)
    ensures TokensOf(items) <= rows.Keys
    ensures ViewOfTable(table) == Overlay(old(ViewOfTable(table)), rows, TokensOf(items), now)
    ensures KeepsRuntime(old(table.Rows()), table.Rows())
    ensures !changed ==> table.Rows() == old(table.Rows())
  {
    changed := false;
    ghost var before := ViewOfTable(table);
    ghost var page: set<string> := {};
    OverlayNothing(before, rows, now);
    for i := 0 to |items|
      invariant table.Valid() && table.revision == old(table.revision)
      invariant page == TokensOf(items[..i]) && page <= rows.Keys
      invariant ViewOfTable(table) == Overlay(before, rows, page, now)
      invariant KeepsRuntime(old(table.Rows()), table.Rows())
      invariant !changed ==> table.Rows() == old(table.Rows())
    {
      var r := items[i];
      assert r in items;
      OverlayOneMore(before, rows, page, r.token, now);
      var known := ApplyItem(table, r, now);
      changed := changed || known;
      TokensTaken(items, i);
      page := page + {r.token};
    }
    assert items[..|items|] == items;
  }

  method ApplyChangeSet(table: AccountRuntimeTable, ghost rows: RecordTable, cs: AccountChangeSet, now: int)
    returns (changed: bool)
    requires table.Valid() && Listed(rows, cs.items, cs.deletedTokens, PageTokens(cs))
    modifies table
    ensures table.Valid() && table.revision == old(table.revision)
    ensures PageTokens(cs) <= rows.Keys
    ensures ViewOfTable(table) == Overlay(old(ViewOfTable(table)), rows, PageTokens(cs), now)
    ensures KeepsRuntime(old(table.Rows()), table.Rows())
    ensures !changed ==> table.Rows() == old(table.Rows())
  {
    ghost var before := ViewOfTable(table);
    var removed := ApplyDeleted(table, rows, cs.deletedTokens, now);
    var stored := ApplyItems(table, rows, cs.items, now);
    changed := removed || stored;
    OverlayTwice(before, rows, Elements(cs.deletedTokens), TokensOf(cs.items), now);
    assert Elements(cs.deletedTokens) + TokensOf(cs.items) == PageTokens(cs);
  }

  /** In sync at the watermark, with no more changed rows than a page holds. */
  ghost predicate CanCatchUp(view: TableView, rows: RecordTable, watermark: nat, limit: nat, now: int) {
    InSync(view, rows, watermark, now) && |ChangedSince(rows, watermark)| <= limit
  }

  lemma NothingNewer(rows: RecordTable, revision: nat, since: nat)
    requires Stamped(rows, revision) && revision <= since
    ensures ChangedSince(rows, since) == {}
  {
  }

  /** Some page of the rows changed since the watermark has been laid over the view. */
  ghost predicate OnePage(before: TableView, view: TableView, rows: RecordTable, since: nat, limit: nat, now: int) {
    exists page :: IsPage(rows, since, limit, page) && view == Overlay(before, rows, page, now)
  }

  lemma {:induction false} OnePageCatchesUp(before: TableView, view: TableView, rows: RecordTable, since: nat,
                                            limit: nat, now: int)
    requires OnePage(before, view, rows, since, limit, now) && CanCatchUp(before, rows, since, limit, now)
    ensures view == Reload(rows, now)
  {
    var page :| IsPage(rows, since, limit, page) && view == Overlay(before, rows, page, now);
    FittingPage(rows, since, limit, page);
    OverlayIsReload(before, rows, since, now);
  }

  /** A second scan finds nothing above the watermark. */
  lemma NothingMore(view: TableView, rows: RecordTable, revision: nat, since: nat, limit: nat, page: set<string>,
                    now: int)
    requires Stamped(rows, revision) && revision <= since && IsPage(rows, since, limit, page)
    ensures Overlay(view, rows, page, now) == view
  {
    NothingNewer(rows, revision, since);
    OverlayNothing(view, rows, now);
  }

  /** One round of the loop: scan, apply, and move the watermark to the global revision. */
  method ApplyPage(table: AccountRuntimeTable, repo: LocalAccountRepository, limit: nat, now: int)
    returns (changed: bool, more: bool, ghost page: set<string>)
    requires table.Valid() && repo.Valid()
    modifies table
    ensures table.Valid() && table.revision == Max(old(table.revision), repo.revision)
    ensures IsPage(repo.rows, old(table.revision), limit, page) && (more <==> |page| == limit)
    ensures ViewOfTable(table) == Overlay(old(ViewOfTable(table)), repo.rows, page, now)
    ensures KeepsRuntime(old(table.Rows()), table.Rows())
    ensures !changed ==> table.Rows() == old(table.Rows())
  {
    var cs := repo.ScanChanges(table.revision, limit);
    page := PageTokens(cs);
    changed := ApplyChangeSet(table, repo.rows, cs, now);
    if cs.revision > table.revision {
      table.revision := cs.revision;
    }
    more := cs.hasMore;
  }

  /** The watermark jumps to the global revision with the first page, so only that page is ever
      applied; when the changed rows fit in it, a table in sync becomes the reloaded table. */
  method ApplyChanges(table: AccountRuntimeTable, repo: LocalAccountRepository, batchLimit: nat, now: int)
    returns (changed: bool)
    requires table.Valid() && repo.Valid() && batchLimit > 0
    modifies table
    ensures table.Valid() && table.revision == Max(old(table.revision), repo.revision)
    ensures OnePage(old(ViewOfTable(table)), ViewOfTable(table), repo.rows, old(table.revision), batchLimit, now)
    ensures CanCatchUp(old(ViewOfTable(table)), repo.rows, old(table.revision), batchLimit, now) ==>
              ViewOfTable(table) == Reload(repo.rows, now) && ShowsRecords(ViewOfTable(table), repo.rows, now)
    ensures KeepsRuntime(old(table.Rows()), table.Rows())
    ensures !changed ==> table.Rows() == old(table.Rows())
  {
    ghost var before, since := ViewOfTable(table), table.revision;
    var more;
    ghost var page;
    changed, more, page := ApplyPage(table, repo, batchLimit, now);
    while more
      invariant table.Valid() && table.revision == Max(since, repo.revision)
      invariant OnePage(before, ViewOfTable(table), repo.rows, since, batchLimit, now)
      invariant KeepsRuntime(old(table.Rows()), table.Rows())
      invariant !changed ==> table.Rows() == old(table.Rows())
      decreases more
    {
      var known;
      ghost var view, watermark := ViewOfTable(table), table.revision;
      known, more, page := ApplyPage(table, repo, batchLimit, now);
      NothingMore(view, repo.rows, repo.revision, watermark, batchLimit, page, now);
      changed := changed || known;
    }
    if CanCatchUp(before, repo.rows, since, batchLimit, now) {
      OnePageCatchesUp(before, ViewOfTable(table), repo.rows, since, batchLimit, now);
      LoadShowsRecords(repo.rows, now);
    }
  }
}
