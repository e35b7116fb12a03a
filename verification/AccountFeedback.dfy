// In-place column updates driven by upstream responses.
module AccountFeedback {
  import opened AccountModels
  import opened AccountTable

  const SUCCESS_STEP := 0.12
  const AUTH_FACTOR := 0.55
  const FORBIDDEN_FACTOR := 0.25
  const RATE_LIMIT_FACTOR := 0.45
  const SERVER_ERROR_FACTOR := 0.75
  const MIN_HEALTH := 0.05
  const MAX_HEALTH := 1.0

  function Bumped(health: real): real {
    if health + SUCCESS_STEP < MAX_HEALTH then health + SUCCESS_STEP else MAX_HEALTH
  }

  function Adjusted(health: real, factor: real): real {
    if health * factor > MIN_HEALTH then health * factor else MIN_HEALTH
  }

  datatype Strategy = Quota | Random

  datatype FeedbackKind = Success | Unauthorized | Forbidden | RateLimited | ServerError | OtherKind

  /** Authoritative quota data from upstream response headers. */
  datatype Upstream = NoData | QuotaData(remaining: int, resetAtMs: nat)

  // ---------------------------------------------------------------------------
  // What one response does to one slot
  // ---------------------------------------------------------------------------

  function CooledUntil(s: Slot, until: nat): Slot { s.(cooling := Max(s.cooling, until)) }

  /** A slot one lease of which came back. */
  function Returned(s: Slot): Slot { s.(inflight := if s.inflight > 0 then s.inflight - 1 else 0) }

  function Failed(s: Slot, ts: nat): Slot { s.(lastFail := ts, failCount := Min(s.failCount + 1, UINT16_MAX)) }

  /** ts is the caller's clock, clock the wall clock read for cooldowns, cooling the pool's cooldown. */
  function KindFeedback(s: Slot, strategy: Strategy, kind: FeedbackKind, mode: ModeId, ts: nat, clock: nat,
                        cooling: nat): Slot {
    match kind
    case Success =>
      s.(quota := if strategy == Quota then s.quota.Set(mode, Max(0, s.quota.Get(mode) - 1)) else s.quota,
         health := Bumped(s.health))
    case RateLimited =>
      var cooled := if strategy == Random || cooling > 0 then CooledUntil(s, clock + cooling) else s;
      Failed(cooled.(quota := if strategy == Quota then s.quota.Set(mode, 0) else s.quota,
                     health := Adjusted(s.health, RATE_LIMIT_FACTOR)), ts)
    case Unauthorized => Failed(s.(health := Adjusted(s.health, AUTH_FACTOR), status := EXPIRED), ts)
    case Forbidden => Failed(s.(health := Adjusted(s.health, FORBIDDEN_FACTOR)), ts)
    case ServerError => Failed(s.(health := Adjusted(s.health, SERVER_ERROR_FACTOR)), ts)
    case OtherKind => s
  }

  function QuotaFeedback(s: Slot, strategy: Strategy, mode: ModeId, up: Upstream): Slot {
    if strategy == Quota && up.QuotaData? then
      s.(quota := s.quota.Set(mode, Max(0, Min(up.remaining, INT16_MAX))),
        reset := s.reset.Set(mode, up.resetAtMs / 1000))
    else s
  }

  /** Feedback keeps health in [0.05, 1.0] and never shortens a cooldown; it takes a slot out of
      buckets only by expiring it. */
  lemma FeedbackBounds(s: Slot, strategy: Strategy, kind: FeedbackKind, mode: ModeId, ts: nat, clock: nat,
                       cooling: nat, up: Upstream)
    requires MIN_HEALTH <= s.health <= MAX_HEALTH
    ensures var s' := QuotaFeedback(KindFeedback(s, strategy, kind, mode, ts, clock, cooling), strategy, mode, up);
            && MIN_HEALTH <= s'.health <= MAX_HEALTH && s'.cooling >= s.cooling && s'.inflight == s.inflight
            && (kind == RateLimited && strategy == Random ==> s'.cooling >= clock + cooling)
            && forall p: Pool, m: ModeId :: InBucket(s', p, m) <==> InBucket(s, p, m) && kind != Unauthorized
  {
    assert s.health * AUTH_FACTOR <= 1.0 && s.health * FORBIDDEN_FACTOR <= 1.0;
    assert s.health * RATE_LIMIT_FACTOR <= 1.0 && s.health * SERVER_ERROR_FACTOR <= 1.0;
  }

  /** The columns that no feedback touches. */
  ghost predicate SameAccount(s: Slot, s': Slot) {
    && s'.token == s.token && s'.pool == s.pool && s'.total == s.total && s'.window == s.window
    && s'.inflight == s.inflight && s'.lastUse == s.lastUse && s'.tags == s.tags
  }

  /** Failures are counted, up to 65535, and dated. */
  ghost predicate FailsReported(s: Slot, s': Slot, kind: FeedbackKind, ts: nat) {
    if kind == Success || kind == OtherKind then s'.failCount == s.failCount && s'.lastFail == s.lastFail
    else s'.lastFail == ts && (if s.failCount < 65_535 then s'.failCount == s.failCount + 1 else s'.failCount == 65_535)
  }

  /** Health gains 0.12 up to 1 on success, and falls to no less than 0.05: to a quarter when
      forbidden, 45% at a rate limit, 55% when unauthorised, three quarters at a server error. */
  ghost predicate HealthReported(s: Slot, s': Slot, kind: FeedbackKind) {
    match kind
    case Success => s'.health == (if s.health <= 0.88 then s.health + 0.12 else 1.0)
    case Forbidden => s'.health == (if s.health >= 0.2 then s.health / 4.0 else 0.05)
    case RateLimited => s'.health == (if s.health * 9.0 >= 1.0 then s.health * 9.0 / 20.0 else 0.05)
    case Unauthorized => s'.health == (if s.health * 11.0 >= 1.0 then s.health * 11.0 / 20.0 else 0.05)
    case ServerError => s'.health == (if s.health * 15.0 >= 1.0 then s.health * 3.0 / 4.0 else 0.05)
    case OtherKind => s'.health == s.health
  }

  /** Under the quota strategy upstream data sets the mode's quota, within 0 and 32767, and its reset
      time in whole seconds; without data a success takes one call and a rate limit all of them. */
  ghost predicate QuotaReported(s: Slot, s': Slot, strategy: Strategy, kind: FeedbackKind, mode: ModeId, up: Upstream,
                                m: ModeId) {
    var q, q' := s.quota.Get(m), s'.quota.Get(m);
    if strategy == Random || m != mode then q' == q && s'.reset.Get(m) == s.reset.Get(m)
    else if up.QuotaData? then
      && 0 <= q' <= 32_767 && (q' < up.remaining ==> q' == 32_767) && (q' > up.remaining ==> q' == 0)
      && s'.reset.Get(m) * 1000 <= up.resetAtMs < s'.reset.Get(m) * 1000 + 1000
    else
      && s'.reset.Get(m) == s.reset.Get(m)
      && (if kind == Success then q' == (if q > 0 then q - 1 else 0)
          else if kind == RateLimited then q' == 0 else q' == q)
  }

  /** A rate limit cools the slot, under the quota strategy only if there is a cooldown, and never
      less than before. */
  ghost predicate CoolingReported(s: Slot, s': Slot, strategy: Strategy, kind: FeedbackKind, clock: nat, cooling: nat) {
    if kind == RateLimited && (strategy == Random || cooling > 0) then
      s'.cooling >= s.cooling && s'.cooling >= clock + cooling
        && (s'.cooling == s.cooling || s'.cooling == clock + cooling)
    else s'.cooling == s.cooling
  }

  /** What one response leaves of a slot. */
  ghost predicate Reported(s: Slot, s': Slot, strategy: Strategy, kind: FeedbackKind, mode: ModeId, ts: nat,
                           clock: nat, cooling: nat, up: Upstream) {
    && SameAccount(s, s') && FailsReported(s, s', kind, ts) && HealthReported(s, s', kind)
    && s'.status == (if kind == Unauthorized then EXPIRED else s.status)
    && CoolingReported(s, s', strategy, kind, clock, cooling)
    && forall m: ModeId :: QuotaReported(s, s', strategy, kind, mode, up, m)
  }

  lemma {:induction false} FeedbackIsReported(s: Slot, strategy: Strategy, kind: FeedbackKind, mode: ModeId, ts: nat,
                                              clock: nat, cooling: nat, up: Upstream)
    ensures Reported(s, QuotaFeedback(KindFeedback(s, strategy, kind, mode, ts, clock, cooling), strategy, mode, up),
              strategy, kind, mode, ts, clock, cooling, up)
  {
    var k := KindFeedback(s, strategy, kind, mode, ts, clock, cooling);
    var s' := QuotaFeedback(k, strategy, mode, up);
    forall m: ModeId ensures QuotaReported(s, s', strategy, kind, mode, up, m) {
      QuotaIsReported(s, strategy, kind, mode, ts, clock, cooling, up, m);
    }
    HealthIsReported(s, strategy, kind, mode, ts, clock, cooling);
    KindIsReported(s, strategy, kind, mode, ts, clock, cooling);
    OnlyQuotas(k, strategy, mode, up);
    ReportCarries(s, k, s', strategy, kind, ts, clock, cooling);
  }

  lemma {:induction false} KindIsReported(s: Slot, strategy: Strategy, kind: FeedbackKind, mode: ModeId, ts: nat,
                                          clock: nat, cooling: nat)
    ensures var k := KindFeedback(s, strategy, kind, mode, ts, clock, cooling);
            && SameAccount(s, k) && FailsReported(s, k, kind, ts)
            && k.status == (if kind == Unauthorized then EXPIRED else s.status)
            && CoolingReported(s, k, strategy, kind, clock, cooling)
  {
  }

  lemma {:induction false} OnlyQuotas(k: Slot, strategy: Strategy, mode: ModeId, up: Upstream)
    ensures QuotaFeedback(k, strategy, mode, up).(quota := k.quota, reset := k.reset) == k
  {
  }

  lemma ReportCarries(s: Slot, k: Slot, s': Slot, strategy: Strategy, kind: FeedbackKind, ts: nat, clock: nat,
                      cooling: nat)
    requires s'.(quota := k.quota, reset := k.reset) == k
    requires SameAccount(s, k) && FailsReported(s, k, kind, ts) && HealthReported(s, k, kind)
    requires CoolingReported(s, k, strategy, kind, clock, cooling)
    ensures SameAccount(s, s') && FailsReported(s, s', kind, ts) && HealthReported(s, s', kind)
    ensures CoolingReported(s, s', strategy, kind, clock, cooling) && s'.status == k.status
  {
  }

  lemma {:induction false} QuotaIsReported(s: Slot, strategy: Strategy, kind: FeedbackKind, mode: ModeId, ts: nat,
                                           clock: nat, cooling: nat, up: Upstream, m: ModeId)
    ensures QuotaReported(s, QuotaFeedback(KindFeedback(s, strategy, kind, mode, ts, clock, cooling), strategy, mode,
            up),
              strategy, kind, mode, up, m)
  {
  }

  lemma {:induction false} HealthIsReported(s: Slot, strategy: Strategy, kind: FeedbackKind, mode: ModeId, ts: nat,
                                            clock: nat, cooling: nat)
    ensures HealthReported(s, KindFeedback(s, strategy, kind, mode, ts, clock, cooling), kind)
  {
  }

  // ---------------------------------------------------------------------------
  // Column writes
  // ---------------------------------------------------------------------------

  /** Overwrite the runtime columns of one slot; identity, pool, status and window stay. */
  function WriteRuntime(c: Columns, i: nat, s: Slot): Columns
    requires c.Aligned() && i < |c.token|
  {
    c.(quota := c.quota[i := s.quota], reset := c.reset[i := s.reset], inflight := c.inflight[i := s.inflight],
       failCount := c.failCount[i := s.failCount], health := c.health[i := s.health],
       lastUse := c.lastUse[i := s.lastUse], lastFail := c.lastFail[i := s.lastFail],
         cooling := c.cooling[i := s.cooling])
  }

  lemma WriteRuntimeRow(c: Columns, index: ModeIndex, tags: TagIndex, i: nat, s: Slot)
    requires c.Aligned() && i < |c.token| && BucketsAgree(c, index)
    requires var r := RowOf(c, tags, i);
             s == r.(quota := s.quota, reset := s.reset, inflight := s.inflight, failCount := s.failCount,
                     health := s.health, lastUse := s.lastUse, lastFail := s.lastFail, cooling := s.cooling)
    ensures WriteRuntime(c, i, s).Aligned() && BucketsAgree(WriteRuntime(c, i, s), index)
    ensures RowsOf(WriteRuntime(c, i, s), tags) == RowsOf(c, tags)[i := s]
  {
    OneSlotWritten(c, WriteRuntime(c, i, s), index, tags, i);
  }

  // ---------------------------------------------------------------------------
  // Status changes
  // ---------------------------------------------------------------------------

  /** How a status change re-indexes a slot: leaving ACTIVE drops it from its pool's buckets;
      entering ACTIVE adds it wherever quota is left. */
  ghost predicate Reindexed(s: Slot, i: nat, status: StatusId, index: ModeIndex, index': ModeIndex) {
    forall p: Pool, m: ModeId ::
      Bucket(index', p, m) ==
        if s.status == status || p != s.pool then Bucket(index, p, m)
        else if status != ACTIVE then Bucket(index, p, m) - {i}
        else Bucket(index, p, m) + (if s.quota.Get(m) > 0 then {i} else {})
  }

  /** Re-indexing by quota left is right exactly when quota left and a positive window coincide:
      always when a slot leaves ACTIVE, but not always when it comes back. */
  lemma StatusChangeExact(c: Columns, i: nat, status: StatusId, index: ModeIndex, index': ModeIndex)
    requires c.Aligned() && i < |c.token| && BucketsAgree(c, index)
    requires Reindexed(c.Row(i), i, status, index, index')
    ensures BucketsAgree(c.(status := c.status[i := status]), index')
            <==> (status != ACTIVE || c.status[i] == ACTIVE
                  || forall m: ModeId :: c.quota[i].Get(m) > 0 <==> c.window[i].Get(m) > 0)
  {
    var c' := c.(status := c.status[i := status]);
    assert c'.Row(i) == c.Row(i).(status := status);
    forall p: Pool, m: ModeId, j: nat | j != i
      ensures j in Bucket(index', p, m) <==> j < |c'.token| && InBucket(c'.Row(j), p, m)
    {
      assert j in Bucket(index, p, m) <==> j < |c.token| && InBucket(c.Row(j), p, m);
      if j < |c.token| { assert c'.Row(j) == c.Row(j); }
    }
    forall p: Pool, m: ModeId
      ensures (i in Bucket(index', p, m) <==> InBucket(c'.Row(i), p, m))
              <==> (p != c.pool[i] || status != ACTIVE || c.status[i] == ACTIVE
                || (c.quota[i].Get(m) > 0 <==> c.window[i].Get(m) > 0))
    {
      assert i in Bucket(index, p, m) <==> InBucket(c.Row(i), p, m);
    }
    if BucketsAgree(c', index') {
      forall m: ModeId
        ensures status != ACTIVE || c.status[i] == ACTIVE || (c.quota[i].Get(m) > 0 <==> c.window[i].Get(m) > 0)
      {
        assert i in Bucket(index', c.pool[i], m) <==> i < |c'.token| && InBucket(c'.Row(i), c.pool[i], m);
      }
    } else {
      var p: Pool, m: ModeId, j: nat :| !(j in Bucket(index', p, m) <==> j < |c'.token| && InBucket(c'.Row(j), p, m));
      assert j == i;
    }
  }

  method ApplyStatusChange(table: AccountRuntimeTable, idx: nat, status: StatusId)
    requires table.Valid() && idx < |table.Rows()|
    modifies table`cols, table`modeAvailable
    ensures table.cols == old(table.cols).(status := old(table.cols).status[idx := status])
    ensures Reindexed(old(table.cols).Row(idx), idx, status, old(table.modeAvailable), table.modeAvailable)
    ensures status != ACTIVE ==>
              table.Valid() && table.Rows() == old(table.Rows())[idx := old(table.Rows())[idx].(status := status)]
  {
    var c := table.cols;
    var pool := c.pool[idx];
    if c.status[idx] == status {
      assert c.status[idx := status] == c.status;
      return;
    }
    table.cols := c.(status := c.status[idx := status]);
    for mode := 0 to 5
      invariant table.cols == c.(status := c.status[idx := status])
      invariant forall p: Pool, m: ModeId ::
                  Bucket(table.modeAvailable, p, m) ==
                    if p != pool || m >= mode then Bucket(old(table.modeAvailable), p, m)
                    else if status != ACTIVE then Bucket(old(table.modeAvailable), p, m) - {idx}
                    else Bucket(old(table.modeAvailable), p, m) + (if c.quota[idx].Get(m) > 0 then {idx} else {})
    {
      if status != ACTIVE {
        if Bucket(table.modeAvailable, pool, mode) != {} {
          table.modeAvailable := table.modeAvailable[(pool, mode) := table.modeAvailable[(pool, mode)] - {idx}];
        }
      } else if c.quota[idx].Get(mode) > 0 {
        table.modeAvailable := table.modeAvailable[(pool, mode) := Bucket(table.modeAvailable, pool, mode) + {idx}];
      }
    }
    StatusChangeExact(c, idx, status, old(table.modeAvailable), table.modeAvailable);
    StatusRow(c, table.tagIdx, idx, status);
  }

  lemma StatusRow(c: Columns, tags: TagIndex, i: nat, status: StatusId)
    requires c.Aligned() && i < |c.token|
    ensures var c' := c.(status := c.status[i := status]);
            c'.Aligned() && RowsOf(c', tags) == RowsOf(c, tags)[i := RowOf(c, tags, i).(status := status)]
  {
  }

  // ---------------------------------------------------------------------------
  // Feedback on one slot
  // ---------------------------------------------------------------------------

  /** Upstream quota data: the bucket entry is re-added only for a positive window, so the
      buckets do not change. */
  method ApplyQuotaUpdate(table: AccountRuntimeTable, idx: nat, mode: ModeId, remaining: int, resetS: nat)
    requires table.Valid() && idx < |table.Rows()|
    modifies table`cols, table`modeAvailable
    ensures table.Valid()
    ensures table.Rows() == old(table.Rows())[idx := old(table.Rows())[idx].(
                quota := old(table.Rows())[idx].quota.Set(mode, Max(0, Min(remaining, INT16_MAX))),
                reset := old(table.Rows())[idx].reset.Set(mode, resetS))]
  {
    var c := table.cols;
    ghost var s := table.Rows()[idx];
    assert s == RowOf(c, table.tagIdx, idx);
    var s' := RowOf(c, table.tagIdx, idx).(quota := c.quota[idx].Set(mode, Max(0, Min(remaining, INT16_MAX))),
                                           reset := c.reset[idx].Set(mode, resetS));
    WriteRuntimeRow(c, table.modeAvailable, table.tagIdx, idx, s');
    table.cols := WriteRuntime(c, idx, s');
    if c.status[idx] == ACTIVE {
      var pool := c.pool[idx];
      BucketRows(c, table.modeAvailable, table.tagIdx, pool, mode, idx);
      var bucket := Bucket(table.modeAvailable, pool, mode);
      if c.window[idx].Get(mode) > 0 {
        bucket := bucket + {idx};
      }
      SameBuckets(table.cols, table.modeAvailable, pool, mode, bucket);
      table.modeAvailable := table.modeAvailable[(pool, mode) := bucket];
    }
  }

  lemma SameBuckets(c: Columns, index: ModeIndex, pool: Pool, mode: ModeId, bucket: set<nat>)
    requires c.Aligned() && BucketsAgree(c, index) && bucket == Bucket(index, pool, mode)
    ensures BucketsAgree(c, index[(pool, mode) := bucket])
  {
    var index' := index[(pool, mode) := bucket];
    assert forall p: Pool, m: ModeId :: Bucket(index', p, m) == Bucket(index, p, m);
    forall p: Pool, m: ModeId, i: nat ensures i in Bucket(index', p, m) <==> i < |c.token| && InBucket(c.Row(i), p, m) {
      assert i in Bucket(index, p, m) <==> i < |c.token| && InBucket(c.Row(i), p, m);
    }
  }

  method ApplyKind(table: AccountRuntimeTable, idx: nat, strategy: Strategy, kind: FeedbackKind, mode: ModeId, ts: nat,
                   clock: nat, cooling: nat)
    requires table.Valid() && idx < |table.Rows()|
    modifies table`cols, table`modeAvailable
    ensures table.Valid()
    ensures table.Rows() == old(table.Rows())[idx := KindFeedback(old(table.Rows())[idx], strategy, kind, mode, ts,
            clock, cooling)]
  {
    var c := table.cols;
    assert table.Rows()[idx] == RowOf(c, table.tagIdx, idx);
    var s := RowOf(c, table.tagIdx, idx);
    var s' := KindFeedback(s, strategy, kind, mode, ts, clock, cooling).(status := s.status);
    WriteRuntimeRow(c, table.modeAvailable, table.tagIdx, idx, s');
    table.cols := WriteRuntime(c, idx, s');
    if kind == Unauthorized {
      ApplyStatusChange(table, idx, EXPIRED);
    }
  }

  method IncrementInflight(table: AccountRuntimeTable, idx: nat)
    requires table.Valid() && idx < |table.Rows()|
    modifies table`cols
    ensures table.Valid()
    ensures table.Rows() == old(table.Rows())[idx :=
              old(table.Rows())[idx].(inflight := Min(old(table.Rows())[idx].inflight + 1, UINT16_MAX))]
  {
    var c := table.cols;
    assert table.Rows()[idx] == RowOf(c, table.tagIdx, idx);
    var s' := RowOf(c, table.tagIdx, idx).(inflight := Min(c.inflight[idx] + 1, UINT16_MAX));
    WriteRuntimeRow(c, table.modeAvailable, table.tagIdx, idx, s');
    table.cols := WriteRuntime(c, idx, s');
  }

  method DecrementInflight(table: AccountRuntimeTable, idx: nat)
    requires table.Valid() && idx < |table.Rows()|
    modifies table`cols
    ensures table.Valid()
    ensures table.Rows() == old(table.Rows())[idx :=
              Returned(old(table.Rows())[idx])]
  {
    var c := table.cols;
    assert table.Rows()[idx] == RowOf(c, table.tagIdx, idx);
    var s' := RowOf(c, table.tagIdx, idx).(inflight := if c.inflight[idx] > 0 then c.inflight[idx] - 1 else 0);
    WriteRuntimeRow(c, table.modeAvailable, table.tagIdx, idx, s');
    table.cols := WriteRuntime(c, idx, s');
  }

  method UpdateLastUse(table: AccountRuntimeTable, idx: nat, ts: nat)
    requires table.Valid() && idx < |table.Rows()|
    modifies table`cols
    ensures table.Valid()
    ensures table.Rows() == old(table.Rows())[idx := old(table.Rows())[idx].(lastUse := ts)]
  {
    var c := table.cols;
    assert table.Rows()[idx] == RowOf(c, table.tagIdx, idx);
    var s' := RowOf(c, table.tagIdx, idx).(lastUse := ts);
    WriteRuntimeRow(c, table.modeAvailable, table.tagIdx, idx, s');
    table.cols := WriteRuntime(c, idx, s');
  }
}
