// When a loaded account can serve: the columns, the bucket and the window reset together, in terms
// of the account's record.
module AccountEligibility {
  import opened AccountModels
  import opened AccountTable
  import opened AccountRepository
  import opened AccountSync
  import opened AccountColumns
  import opened AccountCatchUp
  import opened AccountSelector

  /** The columns of a live slot are those of its token's record. */
  lemma {:induction false} SlotShowsColumns(t: AccountRuntimeTable, rows: RecordTable, now: int, i: nat)
    requires t.Valid() && ViewOfTable(t) == Reload(rows, now) && i < |t.Rows()| && t.Rows()[i].status != DELETED
    ensures t.Rows()[i].token in rows && ShowsRecord(Project(t.Rows()[i]), rows[t.Rows()[i].token], now)
  {
    SlotShowsRecord(t, rows, now, i);
    RecordIsShown(rows[t.Rows()[i].token], now);
  }

  /** The reset time has come, in the second of the clock or before. */
  predicate Due(resetAt: Option<nat>, clock: nat) { resetAt.Some? && 1000 <= resetAt.value < clock * 1000 + 1000 }

  /** The record has calls left in the mode: a basic account also when its day is over. */
  predicate HasCalls(r: AccountRecord, mode: ModeId, clock: nat) {
    match r.pool
    case Basic => mode == 1 && (r.quota.fast.remaining > 0 || Due(r.quota.fast.resetAt, clock))
    case Super => mode != 3 && StoredCalls(r.quota.Get(mode))
    case Heavy => StoredCalls(r.quota.Get(mode))
  }

  predicate StoredCalls(w: Option<QuotaWindow>) { w.Some? && w.value.remaining > 0 && w.value.windowSeconds > 0 }

  /** In a table that shows the repository a live slot can serve a mode if and only if its account
      counts as active and has calls left, or, for a basic account, its window is due by now. */
  lemma {:induction false} EligibleExact(t: AccountRuntimeTable, rows: RecordTable, now: int, i: nat, mode: ModeId,
                                         exclude: set<nat>, clock: nat)
    requires t.Valid() && ViewOfTable(t) == Reload(rows, now) && i < |t.Rows()| && t.Rows()[i].status != DELETED
    ensures t.Rows()[i].token in rows
    ensures var r := rows[t.Rows()[i].token];
            i in QuotaEligible(t.Rows(), r.pool, mode, exclude, clock)
            <==> i !in exclude && CountsAsActive(r, now) && HasCalls(r, mode, clock)
  {
    SlotShowsColumns(t, rows, now, i);
    var s := t.Rows()[i];
    ServesExact(s, rows[s.token], now, mode, clock);
  }

  lemma {:induction false} ServesExact(s: Slot, r: AccountRecord, now: int, mode: ModeId, clock: nat)
    requires ShowsRecord(Project(s), r, now)
    ensures (InBucket(s, r.pool, mode) && ResetSlot(s, r.pool, mode, clock).quota.Get(mode) > 0)
            <==> CountsAsActive(r, now) && HasCalls(r, mode, clock)
  {
    assert ShowsMode(r, mode, s.quota.Get(mode), s.total.Get(mode), s.window.Get(mode), s.reset.Get(mode)) by {
      assert forall m: ModeId :: ShowsMode(r, m, Project(s).quota.Get(m), Project(s).total.Get(m),
                                           Project(s).window.Get(m), Project(s).reset.Get(m));
    }
  }
}
