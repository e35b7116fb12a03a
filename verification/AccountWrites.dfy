// What a batch of upserts, patches or deletions leaves of each row.
module AccountWrites {
  import opened AccountModels
  import opened AccountRepository
  import opened AccountSync
  import opened AccountColumns

  /** A field takes the value a command gives for it, if it gives one. */
  predicate Takes<T(==)>(given: Option<T>, before: T, after: T) {
    (given.None? ==> after == before) && (given.Some? ==> after == given.value)
  }

  /** A quota window that may be missing is replaced and never removed. */
  predicate TakesWindow(given: Option<QuotaWindow>, before: Option<QuotaWindow>, after: Option<QuotaWindow>) {
    if given.Some? then after == given else after == before
  }

  /** The fields that clearing failures resets, or that take the given values. */
  ghost predicate FailuresPatched(r: AccountRecord, p: AccountPatch, r': AccountRecord) {
    if p.clearFailures then
      r'.status == Active && r'.failCount == 0 && r'.lastFailAt.None? && r'.cooldownUntil.None?
    else
      && Takes(p.status, r.status, r'.status)
      && (p.lastFailAt.None? ==> r'.lastFailAt == r.lastFailAt)
         && (p.lastFailAt.Some? ==> r'.lastFailAt == p.lastFailAt)
      && (p.cooldownMerge.None? ==> r'.cooldownUntil == r.cooldownUntil)
      && (p.cooldownMerge.Some? ==> r'.cooldownUntil == p.cooldownMerge)
      && (p.failDelta.None? ==> r'.failCount == r.failCount)
      && (p.failDelta.Some? ==> r'.failCount == r.failCount + p.failDelta.value
                                || (r'.failCount == 0 && r.failCount + p.failDelta.value < 0))
  }

  /** The row is patched: what the patch gives is there, and nothing else changes but the revision. */
  ghost predicate Patched(r: AccountRecord, p: AccountPatch, r': AccountRecord, revision: nat) {
    && r'.token == r.token && r'.deletedAt == r.deletedAt && r'.revision == revision
    && Takes(p.pool, r.pool, r'.pool) && FailuresPatched(r, p, r')
    && (p.lastUseAt.None? ==> r'.lastUseAt == r.lastUseAt) && (p.lastUseAt.Some? ==> r'.lastUseAt == p.lastUseAt)
    && (forall tag :: tag in r'.tags <==>
          tag !in p.removeTags && (tag in p.addTags || tag in (if p.tags.Some? then p.tags.value else r.tags)))
    && Takes(p.quotaAuto, r.quota.auto, r'.quota.auto) && Takes(p.quotaFast, r.quota.fast, r'.quota.fast)
    && Takes(p.quotaExpert, r.quota.expert, r'.quota.expert)
    && TakesWindow(p.quotaHeavy, r.quota.heavy, r'.quota.heavy)
    && TakesWindow(p.quotaGrok43, r.quota.grok43, r'.quota.grok43)
  }

  /** No item of the batch from number k on is about the token. */
  ghost predicate NoMorePatches(patches: seq<AccountPatch>, k: nat, t: string) {
    forall i :: k <= i < |patches| ==> patches[i].token != t
  }

  lemma {:induction false} PatchesPass(rows: RecordTable, patches: seq<AccountPatch>, k: nat, t: string, revision: nat)
    requires k <= |patches| && NoMorePatches(patches, k, t)
    ensures var before, after := PatchAll(rows, patches[..k], revision), PatchAll(rows, patches, revision);
            (t in after <==> t in before) && (t in before ==> after[t] == before[t])
    decreases |patches|
  {
    if k == |patches| {
      assert patches[..k] == patches;
    } else {
      var front := patches[..|patches| - 1];
      assert front[..k] == patches[..k];
      PatchesPass(rows, front, k, t, revision);
    }
  }

  /** The last patch for a token decides: it is applied to what the patches before it left, and a
      token without a patch keeps its row. Unknown tokens stay unknown. */
  lemma {:induction false} LastPatchWins(rows: RecordTable, patches: seq<AccountPatch>, k: nat, t: string,
                                         revision: nat)
    ensures PatchAll(rows, patches, revision).Keys == rows.Keys
    ensures NoMorePatches(patches, 0, t) && t in rows ==> PatchAll(rows, patches, revision)[t] == rows[t]
    ensures k < |patches| && patches[k].token == t && NoMorePatches(patches, k + 1, t) && t in rows ==>
              var before := PatchAll(rows, patches[..k], revision);
              t in before && Patched(before[t], patches[k], PatchAll(rows, patches, revision)[t], revision)
  {
    PatchesKeepKeys(rows, patches, revision);
    if NoMorePatches(patches, 0, t) {
      PatchesPass(rows, patches, 0, t, revision);
      assert patches[..0] == [];
    }
    if k < |patches| && patches[k].token == t && NoMorePatches(patches, k + 1, t) {
      PatchesPass(rows, patches, k + 1, t, revision);
      PatchesKeepKeys(rows, patches[..k], revision);
      assert patches[..k + 1][..k] == patches[..k];
      if t in rows {
        PatchIsPatched(PatchAll(rows, patches[..k], revision)[t], patches[k], revision);
      }
    }
  }

  lemma {:induction false} PatchIsPatched(r: AccountRecord, p: AccountPatch, revision: nat)
    ensures Patched(r, p, PatchRow(r, p, revision), revision)
  {
  }

  lemma {:induction false} PatchesKeepKeys(rows: RecordTable, patches: seq<AccountPatch>, revision: nat)
    ensures PatchAll(rows, patches, revision).Keys == rows.Keys
  {
    if patches != [] {
      PatchesKeepKeys(rows, patches[..|patches| - 1], revision);
    }
  }

  // ---------------------------------------------------------------------------
  // Upserts
  // ---------------------------------------------------------------------------

  /** The row is upserted: alive and active with the item's pool, tags and cooldown. A row that was
      there keeps its quotas and counters, and a new one starts at zero with its pool's quotas. */
  ghost predicate Upserted(before: Option<AccountRecord>, item: AccountUpsert, r: AccountRecord, revision: nat) {
    && r.pool == item.pool && r.status == Active && r.tags == item.tags && r.cooldownUntil == item.cooldownUntil
    && !r.IsDeleted() && r.revision == revision
    && match before
       case Some(b) =>
         r.quota == b.quota && r.failCount == b.failCount && r.lastUseAt == b.lastUseAt && r.lastFailAt == b.lastFailAt
       case None =>
         r.quota == DefaultQuotaSet(item.pool) && r.failCount == 0 && r.lastUseAt.None? && r.lastFailAt.None?
  }

  ghost predicate NoMoreUpserts(items: seq<AccountUpsert>, k: nat, t: string) {
    forall i :: k <= i < |items| ==> items[i].token != Some(t)
  }

  function RowIn(rows: RecordTable, t: string): Option<AccountRecord> { if t in rows then Some(rows[t]) else None }

  lemma {:induction false} UpsertsPass(rows: RecordTable, items: seq<AccountUpsert>, k: nat, t: string, revision: nat)
    requires k <= |items| && NoMoreUpserts(items, k, t)
    ensures RowIn(UpsertAll(rows, items, revision), t) == RowIn(UpsertAll(rows, items[..k], revision), t)
    decreases |items|
  {
    if k == |items| {
      assert items[..k] == items;
    } else {
      var front := items[..|items| - 1];
      assert front[..k] == items[..k];
      UpsertsPass(rows, front, k, t, revision);
    }
  }

  /** The last valid upsert of a token decides, over what the items before it left; a token without
      one keeps its row. */
  lemma {:induction false} LastUpsertWins(rows: RecordTable, items: seq<AccountUpsert>, k: nat, t: string,
                                          revision: nat)
    ensures NoMoreUpserts(items, 0, t) ==> RowIn(UpsertAll(rows, items, revision), t) == RowIn(rows, t)
    ensures k < |items| && items[k].token == Some(t) && NoMoreUpserts(items, k + 1, t) ==>
              t in UpsertAll(rows, items, revision)
              && Upserted(RowIn(UpsertAll(rows, items[..k], revision), t), items[k],
                 UpsertAll(rows, items, revision)[t],
                   revision)
  {
    if NoMoreUpserts(items, 0, t) {
      UpsertsPass(rows, items, 0, t, revision);
      assert items[..0] == [];
    }
    if k < |items| && items[k].token == Some(t) && NoMoreUpserts(items, k + 1, t) {
      UpsertsPass(rows, items, k + 1, t, revision);
      assert items[..k + 1][..k] == items[..k];
    }
  }

  // ---------------------------------------------------------------------------
  // New accounts
  // ---------------------------------------------------------------------------

  /** Calls of a new account per window: a day for a basic account, two hours for the others. */
  function StartCalls(pool: Pool, mode: ModeId): int {
    match pool
    case Basic => if mode == 1 then 30 else 0
    case Super => if mode == 1 then 140 else if mode == 3 then 0 else 50
    case Heavy => if mode == 1 then 400 else if mode == 3 then 20 else 150
  }

  /** A new account, once loaded, starts with all calls of its pool's modes, and with none in others. */
  lemma {:induction false} NewAccountStarts(v: SlotView, item: AccountUpsert, r: AccountRecord, revision: nat, now: int,
                                            mode: ModeId)
    requires Upserted(None, item, r, revision) && ShowsRecord(v, r, now)
    ensures if StartCalls(item.pool, mode) > 0
            then v.quota.Get(mode) == v.total.Get(mode) == StartCalls(item.pool, mode)
              && v.window.Get(mode) == (if item.pool == Basic then 86_400 else 7_200)
            else v.quota.Get(mode) <= 0 && v.total.Get(mode) == 0 && v.window.Get(mode) == 0
    ensures v.reset.Get(mode) == 0
  {
    assert ShowsMode(r, mode, v.quota.Get(mode), v.total.Get(mode), v.window.Get(mode), v.reset.Get(mode));
  }

  // ---------------------------------------------------------------------------
  // Deletions
  // ---------------------------------------------------------------------------

  /** Exactly the live rows named are stamped as deleted, and nothing else about them changes. */
  lemma DeletionMarks(rows: RecordTable, tokens: set<string>, ts: nat, revision: nat, t: string)
    requires t in rows
    ensures var after := SoftDelete(rows, tokens, ts, revision);
            && after.Keys == rows.Keys
            && (if t in tokens && rows[t].deletedAt.None?
                then after[t].deletedAt == Some(ts) && after[t].revision == revision
                  && after[t].(deletedAt := None, revision := rows[t].revision) == rows[t]
                else after[t] == rows[t])
  {
  }
}
