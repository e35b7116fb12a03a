// The revisioned account repository: a keyed table of records, a global revision counter,
// and write transactions that stamp every row they touch with a fresh revision.
module AccountRepository {
  import opened AccountModels
  import opened Sequences

  type RecordTable = map<string, AccountRecord>

  /** Rows are keyed by their own token and none is newer than the global revision. */
  ghost predicate Stamped(rows: RecordTable, revision: nat) {
    forall t :: t in rows ==> rows[t].token == t && rows[t].revision <= revision
  }

  /** What one committed write transaction does: rows never vanish, the counter never falls,
      and a row that differs carries a revision above the old counter. */
  ghost predicate Writes(rows: RecordTable, revision: nat, rows': RecordTable, revision': nat) {
    && revision <= revision'
    && (forall t :: t in rows ==> t in rows')
    && (forall t :: t in rows' && !(t in rows && rows'[t] == rows[t]) ==> revision < rows'[t].revision <= revision')
  }

  lemma WritesCompose(a: RecordTable, ra: nat, b: RecordTable, rb: nat, c: RecordTable, rc: nat)
    requires Writes(a, ra, b, rb) && Writes(b, rb, c, rc)
    ensures Writes(a, ra, c, rc)
  {
  }

  // ---------------------------------------------------------------------------
  // Commands
  // ---------------------------------------------------------------------------

  /** token and pool are the validated values; token is None when validation refuses the item. */
  datatype AccountUpsert = AccountUpsert(token: Option<string>, pool: Pool, tags: set<string>,
                                         cooldownUntil: Option<int>)

  datatype AccountPatch = AccountPatch(
    token: string,
    pool: Option<Pool>,
    status: Option<AccountStatus>,
    tags: Option<set<string>>,
    addTags: set<string>,
    removeTags: set<string>,
    quotaAuto: Option<QuotaWindow>,
    quotaFast: Option<QuotaWindow>,
    quotaExpert: Option<QuotaWindow>,
    quotaHeavy: Option<QuotaWindow>,
    quotaGrok43: Option<QuotaWindow>,
    failDelta: Option<int>,
    lastUseAt: Option<nat>,
    lastFailAt: Option<nat>,
    cooldownMerge: Option<int>,
    clearFailures: bool)

  function Pick<T>(o: Option<T>, d: T): T { if o.Some? then o.value else d }

  /** An insert starts from the pool's default quotas; a conflict keeps the stored quotas and
      counters, overwrites pool, tags and ext, and revives the row. */
  function UpsertRow(rows: RecordTable, token: string, item: AccountUpsert, revision: nat): AccountRecord {
    if token in rows then
      rows[token].(pool := item.pool, status := Active, deletedAt := None, tags := item.tags,
                   cooldownUntil := item.cooldownUntil, revision := revision)
    else
      AccountRecord(token, item.pool, Active, item.tags, DefaultQuotaSet(item.pool), 0, None, None,
                    item.cooldownUntil, None, revision)
  }

  function UpsertAll(rows: RecordTable, items: seq<AccountUpsert>, revision: nat): RecordTable {
    if items == [] then rows
    else
      var before := UpsertAll(rows, items[..|items| - 1], revision);
      var item := items[|items| - 1];
      if item.token.None? then before
      else before[item.token.value := UpsertRow(before, item.token.value, item, revision)]
  }

  function PatchRow(r: AccountRecord, p: AccountPatch, revision: nat): AccountRecord {
    var quota := AccountQuotaSet(
      Pick(p.quotaAuto, r.quota.auto), Pick(p.quotaFast, r.quota.fast), Pick(p.quotaExpert, r.quota.expert),
      if p.quotaHeavy.Some? then p.quotaHeavy else r.quota.heavy,
      if p.quotaGrok43.Some? then p.quotaGrok43 else r.quota.grok43);
    r.(pool := Pick(p.pool, r.pool),
       status := if p.clearFailures then Active else Pick(p.status, r.status),
       tags := Pick(p.tags, r.tags) + p.addTags - p.removeTags,
       quota := quota,
       failCount := if p.clearFailures then 0 else if p.failDelta.Some? then Max(0, r.failCount + p.failDelta.value)
         else r.failCount,
       lastUseAt := if p.lastUseAt.Some? then p.lastUseAt else r.lastUseAt,
       lastFailAt := if p.clearFailures then None else if p.lastFailAt.Some? then p.lastFailAt else r.lastFailAt,
       cooldownUntil := if p.clearFailures then None else if p.cooldownMerge.Some? then p.cooldownMerge
         else r.cooldownUntil,
       revision := revision)
  }

  function PatchAll(rows: RecordTable, patches: seq<AccountPatch>, revision: nat): RecordTable {
    if patches == [] then rows
    else
      var before := PatchAll(rows, patches[..|patches| - 1], revision);
      var p := patches[|patches| - 1];
      if p.token in before then before[p.token := PatchRow(before[p.token], p, revision)] else before
  }

  /** Soft deletion of the live rows selected by a set of tokens. */
  function SoftDelete(rows: RecordTable, tokens: set<string>, ts: nat, revision: nat): RecordTable {
    map t | t in rows ::
      if t in tokens && !rows[t].IsDeleted() then rows[t].(deletedAt := Some(ts), revision := revision) else rows[t]
  }

  function TokensInPool(rows: RecordTable, pool: Pool): set<string> { set t | t in rows && rows[t].pool == pool }

  function LiveTokens(rows: RecordTable): set<string> { set t | t in rows && !rows[t].IsDeleted() }

  /** The tokens a list of upserts really writes. */
  function UpsertTokens(items: seq<AccountUpsert>): set<string> {
    set i | 0 <= i < |items| && items[i].token.Some? :: items[i].token.value
  }

  // ---------------------------------------------------------------------------
  // Every transaction is a write step
  // ---------------------------------------------------------------------------

  lemma {:induction false} UpsertsWrite(rows: RecordTable, items: seq<AccountUpsert>, revision: nat)
    requires Stamped(rows, revision)
    ensures Writes(rows, revision, UpsertAll(rows, items, revision + 1), revision + 1)
    ensures Stamped(UpsertAll(rows, items, revision + 1), revision + 1)
  {
    if items != [] {
      UpsertsWrite(rows, items[..|items| - 1], revision);
    }
  }

  lemma {:induction false} PatchesWrite(rows: RecordTable, patches: seq<AccountPatch>, revision: nat)
    requires Stamped(rows, revision)
    ensures Writes(rows, revision, PatchAll(rows, patches, revision + 1), revision + 1)
    ensures Stamped(PatchAll(rows, patches, revision + 1), revision + 1)
  {
    if patches != [] {
      PatchesWrite(rows, patches[..|patches| - 1], revision);
    }
  }

  lemma DeletesWrite(rows: RecordTable, tokens: set<string>, ts: nat, revision: nat)
    requires Stamped(rows, revision)
    ensures Writes(rows, revision, SoftDelete(rows, tokens, ts, revision + 1), revision + 1)
    ensures Stamped(SoftDelete(rows, tokens, ts, revision + 1), revision + 1)
  {
  }

  lemma SoftDeleteOneMore(rows: RecordTable, tokens: seq<string>, i: nat, ts: nat, revision: nat)
    requires i < |tokens|
    ensures var before := SoftDelete(rows, Elements(tokens[..i]), ts, revision);
            var t := tokens[i];
            SoftDelete(rows, Elements(tokens[..i + 1]), ts, revision) ==
              if t in before && !before[t].IsDeleted()
              then before[t := before[t].(deletedAt := Some(ts), revision := revision)]
              else before
  {
    assert forall u :: u in tokens[..i + 1] <==> u in tokens[..i] || u == tokens[i];
  }

  function ReplacePoolRows(rows: RecordTable, pool: Pool, items: seq<AccountUpsert>, ts: nat,
                           revision: nat): RecordTable {
    UpsertAll(SoftDelete(rows, TokensInPool(rows, pool), ts, revision + 1), items, revision + 2)
  }

  lemma ReplaceWrites(rows: RecordTable, pool: Pool, items: seq<AccountUpsert>, ts: nat, revision: nat)
    requires Stamped(rows, revision)
    ensures Writes(rows, revision, ReplacePoolRows(rows, pool, items, ts, revision), revision + 2)
    ensures Stamped(ReplacePoolRows(rows, pool, items, ts, revision), revision + 2)
  {
    var emptied := SoftDelete(rows, TokensInPool(rows, pool), ts, revision + 1);
    DeletesWrite(rows, TokensInPool(rows, pool), ts, revision);
    UpsertsWrite(emptied, items, revision + 1);
    WritesCompose(rows, revision, emptied, revision + 1, ReplacePoolRows(rows, pool, items, ts, revision),
      revision + 2);
  }

  lemma {:induction false} UpsertedRows(rows: RecordTable, items: seq<AccountUpsert>, revision: nat)
    ensures var after := UpsertAll(rows, items, revision);
            && after.Keys == rows.Keys + UpsertTokens(items)
            && (forall t :: t in UpsertTokens(items) ==>
                  && !after[t].IsDeleted() && after[t].status == Active
                  && exists i :: 0 <= i < |items| && items[i].token == Some(t)
                       && after[t].pool == items[i].pool && after[t].tags == items[i].tags)
            && (forall t :: t in rows && t !in UpsertTokens(items) ==> after[t] == rows[t])
  {
    if items != [] {
      var init := items[..|items| - 1];
      UpsertedRows(rows, init, revision);
      var before := UpsertAll(rows, init, revision);
      var last := items[|items| - 1];
      assert forall t :: t in UpsertTokens(items) <==> t in UpsertTokens(init) || last.token == Some(t);
      forall t | t in UpsertTokens(items)
        ensures var after := UpsertAll(rows, items, revision);
                t in after && !after[t].IsDeleted() && after[t].status == Active
                && exists i :: 0 <= i < |items| && items[i].token == Some(t)
                     && after[t].pool == items[i].pool && after[t].tags == items[i].tags
      {
        if last.token == Some(t) {
          assert items[|items| - 1].token == Some(t);
        } else {
          var i :| 0 <= i < |init| && init[i].token == Some(t) && before[t].pool == init[i].pool
              && before[t].tags == init[i].tags;
          assert items[i] == init[i];
        }
      }
    }
  }

  /** Replacing a pool leaves live, of what was in that pool, exactly the upserted accounts, and
      leaves every account of another pool alone unless it was upserted. */
  lemma ReplacePoolLive(rows: RecordTable, pool: Pool, items: seq<AccountUpsert>, ts: nat, revision: nat, t: string)
    requires t in rows
    ensures var after := ReplacePoolRows(rows, pool, items, ts, revision);
            && t in after
            && (rows[t].pool == pool ==> (!after[t].IsDeleted() <==> t in UpsertTokens(items)))
            && (rows[t].pool != pool && t !in UpsertTokens(items) ==> after[t] == rows[t])
  {
    UpsertedRows(SoftDelete(rows, TokensInPool(rows, pool), ts, revision + 1), items, revision + 2);
  }

  // ---------------------------------------------------------------------------
  // Scanning for changes
  // ---------------------------------------------------------------------------

  datatype AccountChangeSet = AccountChangeSet(
    revision: nat, items: seq<AccountRecord>, deletedTokens: seq<string>, hasMore: bool)

  function ChangedSince(rows: RecordTable, since: nat): set<string> {
    set t | t in rows && rows[t].revision > since
  }

  /** The tokens of a page: at most limit changed rows, none of them newer than a row left out. */
  ghost predicate IsPage(rows: RecordTable, since: nat, limit: nat, page: set<string>) {
    && page <= ChangedSince(rows, since)
    && |page| == Min(limit, |ChangedSince(rows, since)|)
    && (forall t, u :: t in page && u in ChangedSince(rows, since) - page ==> rows[t].revision <= rows[u].revision)
  }

  function TokensOf(records: seq<AccountRecord>): set<string> { set i | 0 <= i < |records| :: records[i].token }

  function PageTokens(cs: AccountChangeSet): set<string> { TokensOf(cs.items) + Elements(cs.deletedTokens) }

  ghost predicate IsChangeSet(rows: RecordTable, revision: nat, since: nat, limit: nat, cs: AccountChangeSet) {
    && cs.revision == revision
    && IsPage(rows, since, limit, PageTokens(cs))
    && cs.hasMore == (|PageTokens(cs)| == limit)
    && Listed(rows, cs.items, cs.deletedTokens, PageTokens(cs))
  }

  method Oldest(rows: RecordTable, tokens: set<string>) returns (t: string)
    requires tokens != {} && tokens <= rows.Keys
    ensures t in tokens && forall u :: u in tokens ==> rows[t].revision <= rows[u].revision
  {
    t :| t in tokens;
    var todo := tokens - {t};
    while todo != {}
      invariant todo <= tokens && t in tokens
      invariant forall u :: u in tokens - todo ==> rows[t].revision <= rows[u].revision
      decreases todo
    {
      var u :| u in todo;
      if rows[u].revision < rows[t].revision {
        t := u;
      }
      todo := todo - {u};
    }
  }

  lemma SubsetSize<T>(a: set<T>, b: set<T>)
    requires a <= b
    ensures |a| <= |b| && (|a| == |b| ==> a == b)
  {
    assert b == a + (b - a);
  }

  /** When the changed rows fit, the page is all of them. */
  lemma FittingPage(rows: RecordTable, since: nat, limit: nat, page: set<string>)
    requires IsPage(rows, since, limit, page)
    ensures |ChangedSince(rows, since)| <= limit ==> page == ChangedSince(rows, since)
  {
    SubsetSize(page, ChangedSince(rows, since));
  }

  /** A scan in progress: the rows taken are no newer than the rows still to take. */
  ghost predicate PageSoFar(rows: RecordTable, since: nat, page: set<string>, todo: set<string>) {
    && page <= ChangedSince(rows, since)
    && todo == ChangedSince(rows, since) - page
    && (forall t, u :: t in page && u in todo ==> rows[t].revision <= rows[u].revision)
  }

  lemma TakeOldest(rows: RecordTable, since: nat, page: set<string>, todo: set<string>, t: string)
    requires PageSoFar(rows, since, page, todo)
    requires t in todo && forall u :: u in todo ==> rows[t].revision <= rows[u].revision
    ensures PageSoFar(rows, since, page + {t}, todo - {t}) && |page + {t}| == |page| + 1
  {
  }

  lemma WholePage(rows: RecordTable, since: nat, limit: nat, page: set<string>, todo: set<string>)
    requires PageSoFar(rows, since, page, todo) && |page| <= limit && (|page| == limit || todo == {})
    ensures IsPage(rows, since, limit, page)
  {
    SubsetSize(page, ChangedSince(rows, since));
    if todo == {} {
      assert page == ChangedSince(rows, since);
    }
  }

  /** The two lists of a change set hold exactly a page, split by deletion. */
  ghost predicate Listed(rows: RecordTable, items: seq<AccountRecord>, deleted: seq<string>, page: set<string>) {
    && TokensOf(items) + Elements(deleted) == page
    && (forall r :: r in items ==> r.token in rows && r == rows[r.token] && !r.IsDeleted())
    && (forall t :: t in deleted ==> t in rows && rows[t].IsDeleted())
  }

  lemma ListOneMore(rows: RecordTable, items: seq<AccountRecord>, deleted: seq<string>, page: set<string>, t: string)
    requires Listed(rows, items, deleted, page) && t in rows && rows[t].token == t
    ensures if rows[t].IsDeleted() then Listed(rows, items, deleted + [t], page + {t})
            else Listed(rows, items + [rows[t]], deleted, page + {t})
  {
    if rows[t].IsDeleted() {
      assert Elements(deleted + [t]) == Elements(deleted) + {t};
    } else {
      AppendToken(items, rows[t]);
    }
  }

  // ---------------------------------------------------------------------------
  // The repository
  // ---------------------------------------------------------------------------

  class LocalAccountRepository {
    var rows: RecordTable
    var revision: nat

    ghost predicate Valid()
      reads this
    {
      Stamped(rows, revision)
    }

    constructor ()
      ensures Valid() && rows == map[] && revision == 0
    {
      rows, revision := map[], 0;
    }

    method BumpRevision() returns (rev: nat)
      modifies this`revision
      ensures rev == revision == old(revision) + 1
    {
      revision := revision + 1;
      rev := revision;
    }

    method UpsertSync(items: seq<AccountUpsert>, rev: nat)
      modifies this`rows
      ensures rows == UpsertAll(old(rows), items, rev)
    {
      for i := 0 to |items|
        invariant rows == UpsertAll(old(rows), items[..i], rev)
      {
        assert items[..i + 1][..i] == items[..i];
        if items[i].token.Some? {
          var token := items[i].token.value;
          rows := rows[token := UpsertRow(rows, token, items[i], rev)];
        }
      }
      assert items[..|items|] == items;
    }

    method PatchSync(patches: seq<AccountPatch>, rev: nat)
      modifies this`rows
      ensures rows == PatchAll(old(rows), patches, rev)
    {
      for i := 0 to |patches|
        invariant rows == PatchAll(old(rows), patches[..i], rev)
      {
        assert patches[..i + 1][..i] == patches[..i];
        var p := patches[i];
        if p.token in rows {
          rows := rows[p.token := PatchRow(rows[p.token], p, rev)];
        }
      }
      assert patches[..|patches|] == patches;
    }

    method UpsertAccounts(items: seq<AccountUpsert>)
      requires Valid()
      modifies this
      ensures Valid() && Writes(old(rows), old(revision), rows, revision)
      ensures items == [] ==> rows == old(rows) && revision == old(revision)
      ensures items != [] ==> revision == old(revision) + 1 && rows == UpsertAll(old(rows), items, revision)
    {
      if items == [] {
        return;
      }
      var rev := BumpRevision();
      UpsertSync(items, rev);
      UpsertsWrite(old(rows), items, old(revision));
    }

    method PatchAccounts(patches: seq<AccountPatch>)
      requires Valid()
      modifies this
      ensures Valid() && Writes(old(rows), old(revision), rows, revision)
      ensures patches == [] ==> rows == old(rows) && revision == old(revision)
      ensures patches != [] ==> revision == old(revision) + 1 && rows == PatchAll(old(rows), patches, revision)
    {
      if patches == [] {
        return;
      }
      var rev := BumpRevision();
      PatchSync(patches, rev);
      PatchesWrite(old(rows), patches, old(revision));
    }

    method DeleteAccounts(tokens: seq<string>, ts: nat)
      requires Valid()
      modifies this
      ensures Valid() && Writes(old(rows), old(revision), rows, revision)
      ensures tokens == [] ==> rows == old(rows) && revision == old(revision)
      ensures tokens != [] ==>
                revision == old(revision) + 1 && rows == SoftDelete(old(rows), Elements(tokens), ts, revision)
    {
      if tokens == [] {
        return;
      }
      var rev := BumpRevision();
      for i := 0 to |tokens|
        invariant revision == rev == old(revision) + 1
        invariant rows == SoftDelete(old(rows), Elements(tokens[..i]), ts, rev)
      {
        var t := tokens[i];
        SoftDeleteOneMore(old(rows), tokens, i, ts, rev);
        if t in rows && !rows[t].IsDeleted() {
          rows := rows[t := rows[t].(deletedAt := Some(ts), revision := rev)];
        }
      }
      assert tokens[..|tokens|] == tokens;
      DeletesWrite(old(rows), Elements(tokens), ts, old(revision));
    }

    method ReplacePool(pool: Pool, upserts: seq<AccountUpsert>, ts: nat)
      requires Valid()
      modifies this
      ensures Valid() && Writes(old(rows), old(revision), rows, revision)
      ensures revision == old(revision) + 2
      ensures rows == ReplacePoolRows(old(rows), pool, upserts, ts, old(revision))
    {
      ReplaceWrites(rows, pool, upserts, ts, revision);
      ReplaceSync(pool, upserts, ts);
    }

    /** The transaction itself. */
    method ReplaceSync(pool: Pool, upserts: seq<AccountUpsert>, ts: nat)
      modifies this
      ensures revision == old(revision) + 2
      ensures rows == ReplacePoolRows(old(rows), pool, upserts, ts, old(revision))
    {
      var rev := EmptyPool(pool, ts);
      rev := BumpRevision();
      UpsertSync(upserts, rev);
    }

    /** The first half of a replacement: the pool's live rows are marked deleted. */
    method EmptyPool(pool: Pool, ts: nat) returns (rev: nat)
      modifies this
      ensures rev == revision == old(revision) + 1
      ensures rows == SoftDelete(old(rows), TokensInPool(old(rows), pool), ts, rev)
    {
      rev := BumpRevision();
      rows := SoftDelete(rows, TokensInPool(rows, pool), ts, rev);
    }

    /** All live rows, with the revision read first. */
    method RuntimeSnapshot() returns (rev: nat, items: seq<AccountRecord>)
      requires Valid()
      ensures rev == revision
      ensures TokensOf(items) == LiveTokens(rows)
      ensures forall r :: r in items ==> r.token in rows && r == rows[r.token]
      ensures forall i, j :: 0 <= i < j < |items| ==> items[i].token != items[j].token
    {
      rev := revision;
      items := [];
      var todo := LiveTokens(rows);
      while todo != {}
        invariant todo <= LiveTokens(rows)
        invariant TokensOf(items) == LiveTokens(rows) - todo
        invariant forall r :: r in items ==> r.token in rows && r == rows[r.token]
        invariant forall i, j :: 0 <= i < j < |items| ==> items[i].token != items[j].token
        decreases todo
      {
        var t :| t in todo;
        assert forall i :: 0 <= i < |items| ==> items[i].token in TokensOf(items);
        AppendToken(items, rows[t]);
        items := items + [rows[t]];
        todo := todo - {t};
      }
    }

    /** Rows newer than since in revision order, cut at limit, split into live and deleted. */
    method ScanChanges(since: nat, limit: nat) returns (cs: AccountChangeSet)
      requires Valid()
      ensures IsChangeSet(rows, revision, since, limit, cs)
    {
      var items, deleted: seq<string>, taken := [], [], 0;
      var todo := ChangedSince(rows, since);
      ghost var page: set<string> := {};
      while taken < limit && todo != {}
        invariant PageSoFar(rows, since, page, todo)
        invariant taken == |page| <= limit
        invariant Listed(rows, items, deleted, page)
        decreases todo
      {
        var t := Oldest(rows, todo);
        TakeOldest(rows, since, page, todo, t);
        ListOneMore(rows, items, deleted, page, t);
        if rows[t].IsDeleted() {
          deleted := deleted + [t];
        } else {
          items := items + [rows[t]];
        }
        page := page + {t};
        taken := taken + 1;
        todo := todo - {t};
      }
      WholePage(rows, since, limit, page, todo);
      cs := AccountChangeSet(revision, items, deleted, taken == limit);
    }
  }

  lemma AppendToken(records: seq<AccountRecord>, r: AccountRecord)
    ensures TokensOf(records + [r]) == TokensOf(records) + {r.token}
  {
    var more := records + [r];
    assert more[|records|] == r;
    assert forall i :: 0 <= i < |records| ==> more[i] == records[i];
    forall t | t in TokensOf(records) ensures t in TokensOf(more) {
      var i :| 0 <= i < |records| && records[i].token == t;
      assert more[i].token == t;
    }
  }
}
