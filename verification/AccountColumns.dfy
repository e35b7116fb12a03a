// What the columns of a slot hold, read off the account's record alone, mode by mode.
module AccountColumns {
  import opened AccountModels
  import opened AccountTable
  import opened AccountRepository
  import opened AccountSync

  /** The second that contains a time in milliseconds; 0 for no time. */
  predicate InSecond(ms: Option<nat>, s: int) {
    if ms.None? then s == 0 else s * 1000 <= ms.value < s * 1000 + 1000
  }

  /** The value of [lo, hi] nearest to v. */
  predicate Nearest(v: int, lo: int, hi: int, c: int) {
    lo <= c <= hi && (c < v ==> c == hi) && (c > v ==> c == lo)
  }

  /** Whether the record counts as active: its cooldown, if it has one, is over. */
  predicate CountsAsActive(r: AccountRecord, now: int) {
    r.status == Active || (r.status == Cooling && r.cooldownUntil.Some? && r.cooldownUntil.value <= now)
  }

  /** The columns of one mode for a stored window. */
  predicate ShowsWindow(w: QuotaWindow, quota: int, total: int, window: int, reset: int) {
    && Nearest(w.remaining, 0, 32_767, quota) && Nearest(w.total, 0, 32_767, total)
    && (if w.windowSeconds > 0 then window == w.windowSeconds else window == 0) && InSecond(w.resetAt, reset)
  }

  /** The columns of a mode without a window: the first three modes have no quota, the others no column. */
  predicate ShowsNothing(mode: ModeId, quota: int, total: int, window: int, reset: int) {
    quota == (if mode <= 2 then 0 else -1) && total == window == reset == 0
  }

  /** The columns of one mode. A basic account has 30 fast calls a day at most and nothing else; a
      super account has no heavy mode; every other mode shows its stored window. */
  predicate ShowsMode(r: AccountRecord, mode: ModeId, quota: int, total: int, window: int, reset: int) {
    if r.pool == Basic && mode == 1 then
      Nearest(r.quota.fast.remaining, 0, 30, quota) && total == 30 && window == 86_400
        && InSecond(r.quota.fast.resetAt, reset)
    else if r.pool == Basic || (r.pool == Super && mode == 3) || r.quota.Get(mode).None? then
      ShowsNothing(mode, quota, total, window, reset)
    else ShowsWindow(r.quota.Get(mode).value, quota, total, window, reset)
  }

  /** Everything a view tells of a record. */
  ghost predicate ShowsRecord(v: SlotView, r: AccountRecord, now: int) {
    && v.pool == r.pool && v.tags == r.tags
    && (v.status == ACTIVE <==> CountsAsActive(r, now))
    && (v.status == COOLING <==> r.status == Cooling && !CountsAsActive(r, now))
    && (v.status == EXPIRED <==> r.status == Expired) && v.status != DELETED
    && (forall m: ModeId :: ShowsMode(r, m, v.quota.Get(m), v.total.Get(m), v.window.Get(m), v.reset.Get(m)))
    && InSecond(r.lastUseAt, v.lastUse) && InSecond(r.lastFailAt, v.lastFail)
    && Nearest(r.failCount, 0, 65_535, v.failCount)
    && (forall p: Pool, m: ModeId :: (p, m) in v.buckets <==> p == r.pool && v.status == ACTIVE && v.window.Get(m) > 0)
  }

  /** The projection of a record shows it. */
  lemma {:induction false} RecordIsShown(r: AccountRecord, now: int)
    ensures ShowsRecord(ViewOfRecord(r, now), r, now)
  {
    var v := ViewOfRecord(r, now);
    forall m: ModeId
      ensures ShowsMode(r, m, v.quota.Get(m), v.total.Get(m), v.window.Get(m), v.reset.Get(m))
    {
      ModeIsShown(r, now, m);
    }
    forall p: Pool, m: ModeId
      ensures (p, m) in v.buckets <==> p == r.pool && v.status == ACTIVE && v.window.Get(m) > 0
    {
    }
  }

  lemma {:induction false} ModeIsShown(r: AccountRecord, now: int, m: ModeId)
    ensures var v := ViewOfRecord(r, now);
            ShowsMode(r, m, v.quota.Get(m), v.total.Get(m), v.window.Get(m), v.reset.Get(m))
  {
    ColumnsOfMode(r, now, m);
    NormalizedMode(r, m);
  }

  /** The columns of a mode are those of its normalised window. */
  lemma {:induction false} ColumnsOfMode(r: AccountRecord, now: int, m: ModeId)
    ensures var v, w := ViewOfRecord(r, now), NormalizeQuotaSet(r.pool, r.quota).Get(m);
            && v.quota.Get(m) == Min(QuotaOf(w), INT16_MAX) && v.total.Get(m) == Min(TotalOf(w), INT16_MAX)
            && v.window.Get(m) == WindowOf(w) && v.reset.Get(m) == ResetOf(w)
  {
  }

  lemma {:induction false} NormalizedMode(r: AccountRecord, m: ModeId)
    ensures var w := NormalizeQuotaSet(r.pool, r.quota).Get(m);
            ShowsMode(r, m, Min(QuotaOf(w), INT16_MAX), Min(TotalOf(w), INT16_MAX), WindowOf(w), ResetOf(w))
  {
  }

  /** A view that shows exactly the live records. */
  ghost predicate ShowsRecords(view: TableView, rows: RecordTable, now: int) {
    && (forall t :: t in view <==> t in rows && !rows[t].IsDeleted())
    && (forall t :: t in view ==> t in rows && ShowsRecord(view[t], rows[t], now))
  }

  /** A loaded view shows exactly the live records. */
  lemma {:induction false} LoadShowsRecords(rows: RecordTable, now: int)
    ensures ShowsRecords(Reload(rows, now), rows, now)
  {
    forall t | t in Reload(rows, now) ensures ShowsRecord(Reload(rows, now)[t], rows[t], now) {
      RecordIsShown(rows[t], now);
    }
  }
}
