// The two selection strategies: quota (scored, with inline window resets for the basic pool)
// and random (cooling and inflight filters, scores ignored).
module AccountSelector {
  import opened AccountModels
  import opened AccountTable

  // ---------------------------------------------------------------------------
  // Scores
  // ---------------------------------------------------------------------------

  const W_HEALTH := 100.0
  const W_QUOTA := 25.0
  const W_RECENT := 15.0
  const W_INFLIGHT := 20.0
  const W_FAIL := 4.0
  const RECENT_WINDOW_S := 15

  /** The initial best score: -1e18. */
  const SENTINEL := -1000000000000000000.0

  function Penalties(s: Slot, now: int): real {
    var recent :=
      if s.lastUse > 0 && now - s.lastUse < RECENT_WINDOW_S
      then (1.0 - (now - s.lastUse) as real / RECENT_WINDOW_S as real) * W_RECENT
      else 0.0;
    s.inflight as real * W_INFLIGHT + Min(s.failCount, 10) as real * W_FAIL + recent
  }

  function Score(s: Slot, mode: ModeId, now: int): real {
    s.health * W_HEALTH + s.quota.Get(mode) as real * W_QUOTA - Penalties(s, now)
  }

  function ScoreNoQuota(s: Slot, now: int): real { s.health * W_HEALTH - Penalties(s, now) }

  const UINT32_MAX := 0xFFFF_FFFF

  /** The value ranges of the typed columns that enter a score. */
  predicate InColumnRange(s: Slot) {
    0.0 <= s.health <= 1.0 && s.inflight <= UINT16_MAX && s.lastUse <= UINT32_MAX
  }

  /** No score reachable from the column ranges is as low as the sentinel, so the sentinel never
      hides a candidate. */
  lemma ScoresBeatSentinel(s: Slot, mode: ModeId, now: int)
    requires InColumnRange(s) && 0 <= now && s.quota.Get(mode) >= -1
    ensures Score(s, mode, now) > SENTINEL && ScoreNoQuota(s, now) > SENTINEL
  {
    var age := now - s.lastUse;
    assert age >= -UINT32_MAX;
    if s.lastUse > 0 && age < RECENT_WINDOW_S {
      assert age as real >= -(UINT32_MAX as real);
      assert age as real / 15.0 >= -(UINT32_MAX as real) / 15.0;
      assert (1.0 - age as real / 15.0) * W_RECENT == 15.0 - age as real;
    }
    assert s.inflight as real <= 65535.0;
    assert Min(s.failCount, 10) as real <= 10.0;
  }

  /** Fails beyond ten do not count. */
  function CountedFails(s: Slot): nat { if s.failCount <= 10 then s.failCount else 10 }

  /** Points lost for a recent use: 15 in the second of the use, one less each second, 0 from 15 seconds on. */
  function RecentPoints(s: Slot, now: int): int {
    if s.lastUse == 0 || now - s.lastUse >= 15 then 0 else 15 - (now - s.lastUse)
  }

  /** The trade-offs in points: a hundredth of health is worth 1, a call left 25, a lease out costs
      20, a counted fail 4, and a use within the last 15 seconds a point for each second short of 15. */
  lemma ScoreTradeoffs(a: Slot, b: Slot, mode: ModeId, now: int)
    ensures ScoreNoQuota(a, now) - ScoreNoQuota(b, now)
            == 100.0 * (a.health - b.health) - 20.0 * (a.inflight - b.inflight) as real
               - 4.0 * (CountedFails(a) - CountedFails(b)) as real
               - (RecentPoints(a, now) - RecentPoints(b, now)) as real
    ensures Score(a, mode, now) - Score(b, mode, now)
            == ScoreNoQuota(a, now) - ScoreNoQuota(b, now) + 25.0 * (a.quota.Get(mode) - b.quota.Get(mode)) as real
  {
    PenaltyPoints(a, now);
    PenaltyPoints(b, now);
  }

  lemma PenaltyPoints(s: Slot, now: int)
    ensures Penalties(s, now)
            == 20.0 * s.inflight as real + 4.0 * CountedFails(s) as real + RecentPoints(s, now) as real
  {
    if s.lastUse > 0 && now - s.lastUse < 15 {
      assert (1.0 - (now - s.lastUse) as real / 15.0) * 15.0 == 15.0 - (now - s.lastUse) as real;
    }
  }

  /** a is no worse than b in health, leases, fails and time since its last use. */
  predicate NoWorse(a: Slot, b: Slot, now: int) {
    && a.health >= b.health && a.inflight <= b.inflight
    && (a.failCount <= b.failCount || b.failCount >= 10)
    && (a.lastUse == 0 || now - a.lastUse >= 15 || (b.lastUse > 0 && a.lastUse <= b.lastUse))
  }

  /** a is better than b in one of them. */
  predicate SomewhereBetter(a: Slot, b: Slot, now: int) {
    || a.health > b.health || a.inflight < b.inflight
    || (a.failCount < b.failCount && a.failCount < 10)
    || (b.lastUse > 0 && now - b.lastUse < 15 && (a.lastUse == 0 || a.lastUse < b.lastUse))
  }

  /** The score prefers what is better: strictly more health, calls left, or distance to the last use
      within 15 seconds, or strictly fewer leases out, or fails up to ten, gives a strictly higher
      score when nothing else is worse; and nothing else counts. */
  lemma ScorePrefersBetter(a: Slot, b: Slot, mode: ModeId, now: int)
    requires NoWorse(a, b, now)
    ensures if SomewhereBetter(a, b, now) then ScoreNoQuota(a, now) > ScoreNoQuota(b, now)
            else ScoreNoQuota(a, now) == ScoreNoQuota(b, now)
    ensures a.quota.Get(mode) >= b.quota.Get(mode) ==>
              if SomewhereBetter(a, b, now) || a.quota.Get(mode) > b.quota.Get(mode)
              then Score(a, mode, now) > Score(b, mode, now)
              else Score(a, mode, now) == Score(b, mode, now)
  {
    ScoreTradeoffs(a, b, mode, now);
  }

  /** a is better than b on some count and worse on none, calls left included. */
  predicate Beats(a: Slot, b: Slot, mode: ModeId, now: int) {
    && NoWorse(a, b, now) && a.quota.Get(mode) >= b.quota.Get(mode)
    && (SomewhereBetter(a, b, now) || a.quota.Get(mode) > b.quota.Get(mode))
  }

  // ---------------------------------------------------------------------------
  // What a selection may return
  // ---------------------------------------------------------------------------

  /** A preference narrows the candidates only when it leaves some. */
  function Favoured(candidates: set<nat>, prefer: set<nat>): set<nat> {
    if candidates * prefer != {} then candidates * prefer else candidates
  }

  /** A basic-pool slot whose reset time has passed gets its total back, for one more window. */
  function ResetSlot(s: Slot, pool: Pool, mode: ModeId, now: nat): Slot {
    if pool == Basic && InBucket(s, pool, mode) && s.reset.Get(mode) != 0 && now >= s.reset.Get(mode)
       && s.total.Get(mode) > 0 then
      s.(quota := s.quota.Set(mode, s.total.Get(mode)), reset := s.reset.Set(mode, now + s.window.Get(mode)))
    else s
  }

  ghost function ResetRows(rows: seq<Slot>, pool: Pool, mode: ModeId, now: nat): (after: seq<Slot>)
    ensures |after| == |rows| && forall i :: 0 <= i < |rows| ==> after[i] == ResetSlot(rows[i], pool, mode, now)
  {
    seq(|rows|, i requires 0 <= i < |rows| => ResetSlot(rows[i], pool, mode, now))
  }

  /** The slots a quota selection may choose from, judged after the window resets. */
  ghost function QuotaEligible(rows: seq<Slot>, pool: Pool, mode: ModeId, exclude: set<nat>, now: nat): set<nat> {
    set i: nat | i < |rows| && InBucket(rows[i], pool, mode) && i !in exclude
                 && ResetSlot(rows[i], pool, mode, now).quota.Get(mode) > 0
  }

  predicate InPool(s: Slot, pool: Pool) { exists m: ModeId :: InBucket(s, pool, m) }

  ghost function PoolMembers(rows: seq<Slot>, pool: Pool): set<nat> {
    set i: nat | i < |rows| && InPool(rows[i], pool)
  }

  ghost function RandomEligible(rows: seq<Slot>, pool: Pool, exclude: set<nat>, maxInflight: int, now: nat): set<nat> {
    set i: nat | i in PoolMembers(rows, pool) && i !in exclude
                 && rows[i].cooling <= now && rows[i].inflight < maxInflight
  }

  /** r is a candidate of highest score, or there is none above the sentinel. */
  ghost predicate Maximal(candidates: set<nat>, scores: seq<real>, r: Option<nat>)
    requires forall j :: j in candidates ==> j < |scores|
  {
    if r.Some? then
      r.value in candidates && scores[r.value] > SENTINEL && forall j :: j in candidates ==>
        scores[j] <= scores[r.value]
    else
      forall j :: j in candidates ==> scores[j] <= SENTINEL
  }

  /** Scores after the window resets of a pool. */
  ghost function QuotaScores(rows: seq<Slot>, pool: Pool, mode: ModeId, now: nat): (scores: seq<real>)
    ensures |scores| == |rows|
  {
    seq(|rows|, i requires 0 <= i < |rows| => Score(ResetSlot(rows[i], pool, mode, now), mode, now))
  }

  ghost function PlainScores(rows: seq<Slot>, now: nat): (scores: seq<real>)
    ensures |scores| == |rows|
  {
    seq(|rows|, i requires 0 <= i < |rows| => ScoreNoQuota(rows[i], now))
  }

  /** r is what a quota selection may return: an eligible slot, preferred if any eligible slot is,
      of maximal score. */
  ghost predicate QuotaChoice(rows: seq<Slot>, pool: Pool, mode: ModeId, exclude: set<nat>, prefer: set<nat>, now: nat,
                              r: Option<nat>) {
    Maximal(Favoured(QuotaEligible(rows, pool, mode, exclude, now), prefer), QuotaScores(rows, pool, mode, now), r)
  }

  ghost predicate AnyChoice(rows: seq<Slot>, pool: Pool, exclude: set<nat>, prefer: set<nat>, now: nat,
                            r: Option<nat>) {
    Maximal(Favoured(PoolMembers(rows, pool) - exclude, prefer), PlainScores(rows, now), r)
  }

  ghost predicate RandomChoice(rows: seq<Slot>, pool: Pool, exclude: set<nat>, prefer: set<nat>, maxInflight: int,
                               now: nat, r: Option<nat>) {
    var eligible := RandomEligible(rows, pool, exclude, maxInflight, now);
    if r.Some? then r.value in Favoured(eligible, prefer) else eligible == {}
  }

  /** With every column in range the quota choice is empty only when nothing is eligible. */
  lemma NoneMeansNoneEligible(rows: seq<Slot>, pool: Pool, mode: ModeId, exclude: set<nat>, prefer: set<nat>, now: nat,
                              r: Option<nat>)
    requires forall i :: 0 <= i < |rows| ==> InColumnRange(rows[i])
    requires QuotaChoice(rows, pool, mode, exclude, prefer, now, r)
    ensures r.None? <==> QuotaEligible(rows, pool, mode, exclude, now) == {}
  {
    var eligible := QuotaEligible(rows, pool, mode, exclude, now);
    if r.None? && eligible != {} {
      var i :| i in Favoured(eligible, prefer);
      assert QuotaScores(rows, pool, mode, now)[i] <= SENTINEL;
      ScoresBeatSentinel(ResetSlot(rows[i], pool, mode, now), mode, now);
    }
  }

  // ---------------------------------------------------------------------------
  // Window resets
  // ---------------------------------------------------------------------------

  /** A reset moves the reset time past the clock, so resetting again changes nothing. */
  lemma ResetOnce(s: Slot, pool: Pool, mode: ModeId, now: nat)
    ensures ResetSlot(ResetSlot(s, pool, mode, now), pool, mode, now) == ResetSlot(s, pool, mode, now)
    ensures forall p: Pool, m: ModeId :: InBucket(ResetSlot(s, pool, mode, now), p, m) <==> InBucket(s, p, m)
    ensures ResetSlot(s, pool, mode, now).(quota := s.quota, reset := s.reset) == s
  {
  }

  /** A window that is due is refilled to its total and runs again from now; other modes and slots
      of other pools keep their quota. */
  lemma ResetRefills(s: Slot, pool: Pool, mode: ModeId, now: nat, m: ModeId)
    ensures var s' := ResetSlot(s, pool, mode, now);
            if pool == Basic && s.pool == Basic && s.status == ACTIVE && m == mode && 0 < s.window.Get(m)
               && 0 < s.total.Get(m) && s.reset.Get(m) != 0 && s.reset.Get(m) <= now
            then s'.quota.Get(m) == s.total.Get(m) && s'.reset.Get(m) == now + s.window.Get(m)
            else s'.quota.Get(m) == s.quota.Get(m) && s'.reset.Get(m) == s.reset.Get(m)
  {
  }

  lemma BucketMembers(table: AccountRuntimeTable, pool: Pool, mode: ModeId)
    requires table.Valid()
    ensures forall i: nat :: i in Bucket(table.modeAvailable, pool, mode) <==>
              i < |table.Rows()| && InBucket(table.Rows()[i], pool, mode)
  {
    forall i: nat
      ensures i in Bucket(table.modeAvailable, pool, mode)
              <==> i < |table.Rows()| && InBucket(table.Rows()[i], pool, mode)
    {
      BucketRows(table.cols, table.modeAvailable, table.tagIdx, pool, mode, i);
    }
  }

  method MaybeResetWindows(table: AccountRuntimeTable, candidates: set<nat>, mode: ModeId, pool: Pool, now: nat)
    requires table.Valid() && candidates == Bucket(table.modeAvailable, pool, mode)
    modifies table`cols
    ensures table.Valid()
    ensures table.Rows() == ResetRows(old(table.Rows()), pool, mode, now)
  {
    if pool != Basic {
      return;
    }
    ghost var before := table.Rows();
    BucketMembers(table, pool, mode);
    var todo := candidates;
    while todo != {}
      invariant table.Valid() && todo <= candidates
      invariant PartlyReset(before, table.Rows(), todo, pool, mode, now)
      decreases todo
    {
      var idx :| idx in todo;
      ResetOneMore(before, table.Rows(), todo, idx, mode, now);
      todo := todo - {idx};
      ResetWindow(table, idx, mode, now);
    }
  }

  lemma ResetOneMore(before: seq<Slot>, rows: seq<Slot>, todo: set<nat>, idx: nat, mode: ModeId, now: nat)
    requires PartlyReset(before, rows, todo, Basic, mode, now) && idx in todo && idx < |before|
    ensures PartlyReset(before, rows[idx := ResetSlot(rows[idx], Basic, mode, now)], todo - {idx}, Basic, mode, now)
  {
  }

  ghost predicate PartlyReset(before: seq<Slot>, rows: seq<Slot>, todo: set<nat>, pool: Pool, mode: ModeId, now: nat) {
    && |rows| == |before|
    && forall i :: 0 <= i < |before| ==>
         rows[i] == if i in todo then before[i] else ResetSlot(before[i], pool, mode, now)
  }

  /** The body of the reset loop, for one slot of the basic pool's bucket. */
  method ResetWindow(table: AccountRuntimeTable, idx: nat, mode: ModeId, now: nat)
    requires table.Valid() && idx < |table.Rows()| && InBucket(table.Rows()[idx], Basic, mode)
    modifies table`cols
    ensures table.Valid()
    ensures table.Rows() == old(table.Rows())[idx := ResetSlot(old(table.Rows())[idx], Basic, mode, now)]
  {
    var c := table.cols;
    assert table.Rows()[idx] == RowOf(c, table.tagIdx, idx);
    var r := c.reset[idx].Get(mode);
    if r == 0 || now < r || c.pool[idx] != Basic {
      return;
    }
    var total, window := c.total[idx].Get(mode), c.window[idx].Get(mode);
    if total <= 0 || window <= 0 {
      return;
    }
    var c' := c.(quota := c.quota[idx := c.quota[idx].Set(mode, total)],
                 reset := c.reset[idx := c.reset[idx].Set(mode, now + window)]);
    OneSlotWritten(c, c', table.modeAvailable, table.tagIdx, idx);
    table.cols := c';
  }

  // ---------------------------------------------------------------------------
  // Scoring loops
  // ---------------------------------------------------------------------------

  ghost function ColumnScores(cols: Columns, mode: ModeId, now: nat): (scores: seq<real>)
    requires cols.Aligned()
    ensures |scores| == |cols.token|
  {
    seq(|cols.token|, i requires 0 <= i < |cols.token| => Score(cols.Row(i), mode, now))
  }

  ghost function ColumnScoresNoQuota(cols: Columns, now: nat): (scores: seq<real>)
    requires cols.Aligned()
    ensures |scores| == |cols.token|
  {
    seq(|cols.token|, i requires 0 <= i < |cols.token| => ScoreNoQuota(cols.Row(i), now))
  }

  /** The slots of a set that have quota left; the others are passed over. */
  ghost function WithQuota(cols: Columns, working: set<nat>, mode: ModeId): set<nat>
    requires cols.Aligned() && forall i :: i in working ==> i < |cols.token|
  {
    set i | i in working && cols.quota[i].Get(mode) > 0
  }

  method Best(cols: Columns, working: set<nat>, mode: ModeId, now: nat) returns (r: Option<nat>)
    requires cols.Aligned() && forall i :: i in working ==> i < |cols.token|
    ensures Maximal(WithQuota(cols, working, mode), ColumnScores(cols, mode, now), r)
  {
    r := None;
    var bestScore := SENTINEL;
    var todo := working;
    while todo != {}
      invariant todo <= working && bestScore >= SENTINEL
      invariant r.Some? ==> r.value in WithQuota(cols, working, mode)
      invariant r.Some? ==> bestScore == ColumnScores(cols, mode, now)[r.value] > SENTINEL
      invariant r.None? ==> bestScore == SENTINEL
      invariant forall j :: j in WithQuota(cols, working - todo, mode) ==> ColumnScores(cols, mode, now)[j] <= bestScore
      decreases todo
    {
      var idx :| idx in todo;
      todo := todo - {idx};
      if cols.quota[idx].Get(mode) > 0 {
        var score := Score(cols.Row(idx), mode, now);
        if score > bestScore {
          bestScore := score;
          r := Some(idx);
        }
      }
    }
    assert working - todo == working;
  }

  method BestNoQuota(cols: Columns, working: set<nat>, now: nat) returns (r: Option<nat>)
    requires cols.Aligned() && forall i :: i in working ==> i < |cols.token|
    ensures Maximal(working, ColumnScoresNoQuota(cols, now), r)
  {
    r := None;
    var bestScore := SENTINEL;
    var todo := working;
    while todo != {}
      invariant todo <= working && bestScore >= SENTINEL
      invariant r.Some? ==> r.value in working && bestScore == ColumnScoresNoQuota(cols, now)[r.value] > SENTINEL
      invariant r.None? ==> bestScore == SENTINEL
      invariant forall j :: j in working - todo ==> ColumnScoresNoQuota(cols, now)[j] <= bestScore
      decreases todo
    {
      var idx :| idx in todo;
      todo := todo - {idx};
      var score := ScoreNoQuota(cols.Row(idx), now);
      if score > bestScore {
        bestScore := score;
        r := Some(idx);
      }
    }
  }

  /** Union of the buckets of one pool. */
  method PoolUnion(table: AccountRuntimeTable, pool: Pool) returns (out: set<nat>)
    requires table.Valid()
    ensures out == PoolMembers(table.Rows(), pool)
  {
    out := {};
    var todo := table.modeAvailable.Keys;
    while todo != {}
      invariant todo <= table.modeAvailable.Keys
      invariant forall i: nat :: i in out <==>
                  exists m: ModeId ::
                    (pool, m) in table.modeAvailable.Keys - todo && i in Bucket(table.modeAvailable, pool, m)
      decreases todo
    {
      var key :| key in todo;
      if key.0 == pool {
        out := out + table.modeAvailable[key];
      }
      todo := todo - {key};
    }
    UnionIsMembers(table, pool, out);
  }

  lemma UnionIsMembers(table: AccountRuntimeTable, pool: Pool, out: set<nat>)
    requires table.Valid()
    requires forall i: nat :: i in out <==>
               exists m: ModeId :: (pool, m) in table.modeAvailable.Keys && i in Bucket(table.modeAvailable, pool, m)
    ensures out == PoolMembers(table.Rows(), pool)
  {
    forall i: nat ensures i in out <==> i in PoolMembers(table.Rows(), pool) {
      if i in out {
        var m: ModeId :| (pool, m) in table.modeAvailable.Keys && i in Bucket(table.modeAvailable, pool, m);
        BucketMembers(table, pool, m);
      }
      if i in PoolMembers(table.Rows(), pool) {
        var m: ModeId :| InBucket(table.Rows()[i], pool, m);
        BucketMembers(table, pool, m);
        assert i in Bucket(table.modeAvailable, pool, m);
      }
    }
  }

  // ---------------------------------------------------------------------------
  // Strategies
  // ---------------------------------------------------------------------------

  method QuotaSelect(table: AccountRuntimeTable, pool: Pool, mode: ModeId, exclude: set<nat>, prefer: set<nat>,
                     now: nat)
    returns (r: Option<nat>)
    requires table.Valid()
    modifies table`cols
    ensures table.Valid() && table.Rows() == ResetRows(old(table.Rows()), pool, mode, now)
    ensures QuotaChoice(old(table.Rows()), pool, mode, exclude, prefer, now, r)
  {
    var candidates := Bucket(table.modeAvailable, pool, mode);
    ghost var rows := table.Rows();
    BucketMembers(table, pool, mode);
    if candidates == {} {
      NoCandidates(rows, pool, mode, exclude, now);
      return None;
    }
    MaybeResetWindows(table, candidates, mode, pool, now);
    var working := candidates - exclude;
    working := set i | i in working && table.cols.quota[i].Get(mode) > 0;
    ColumnsAfterReset(table, rows, pool, mode, exclude, now);
    assert working == QuotaEligible(rows, pool, mode, exclude, now);
    r := BestFavoured(table.cols, working, prefer, mode, now);
  }

  /** The preferred slots if there are any, and the best of them. */
  method BestFavoured(cols: Columns, eligible: set<nat>, prefer: set<nat>, mode: ModeId, now: nat)
      returns (r: Option<nat>)
    requires cols.Aligned() && forall i :: i in eligible ==> i < |cols.token| && cols.quota[i].Get(mode) > 0
    ensures Maximal(Favoured(eligible, prefer), ColumnScores(cols, mode, now), r)
  {
    if eligible == {} {
      return None;
    }
    var working := eligible;
    if working * prefer != {} {
      working := working * prefer;
    }
    r := Best(cols, working, mode, now);
    assert WithQuota(cols, working, mode) == working;
  }

  lemma NoCandidates(rows: seq<Slot>, pool: Pool, mode: ModeId, exclude: set<nat>, now: nat)
    requires forall i: nat :: i < |rows| ==> !InBucket(rows[i], pool, mode)
    ensures ResetRows(rows, pool, mode, now) == rows && QuotaEligible(rows, pool, mode, exclude, now) == {}
  {
  }

  lemma ColumnsAfterReset(table: AccountRuntimeTable, rows: seq<Slot>, pool: Pool, mode: ModeId, exclude: set<nat>,
                          now: nat)
    requires table.Valid() && table.Rows() == ResetRows(rows, pool, mode, now)
    ensures ColumnScores(table.cols, mode, now) == QuotaScores(rows, pool, mode, now)
    ensures QuotaEligible(rows, pool, mode, exclude, now) ==
              set i: nat | i < |rows| && InBucket(rows[i], pool, mode) && i !in exclude
                && table.cols.quota[i].Get(mode) > 0
  {
    forall i | 0 <= i < |rows| ensures RowOf(table.cols, table.tagIdx, i) == ResetSlot(rows[i], pool, mode, now) {
      assert table.Rows()[i] == RowOf(table.cols, table.tagIdx, i);
    }
  }

  method QuotaSelectAny(table: AccountRuntimeTable, pool: Pool, exclude: set<nat>, prefer: set<nat>, now: nat)
    returns (r: Option<nat>)
    requires table.Valid()
    ensures AnyChoice(table.Rows(), pool, exclude, prefer, now, r)
  {
    var candidates := PoolUnion(table, pool);
    if candidates == {} {
      return None;
    }
    var working := candidates - exclude;
    if working == {} {
      return None;
    }
    if working * prefer != {} {
      working := working * prefer;
    }
    r := BestNoQuota(table.cols, working, now);
    PlainColumnScores(table, now);
  }

  lemma PlainColumnScores(table: AccountRuntimeTable, now: nat)
    requires table.Valid()
    ensures ColumnScoresNoQuota(table.cols, now) == PlainScores(table.Rows(), now)
  {
    forall i | 0 <= i < |table.Rows()|
      ensures ScoreNoQuota(table.cols.Row(i), now) == ScoreNoQuota(table.Rows()[i], now)
    {
      assert table.Rows()[i] == RowOf(table.cols, table.tagIdx, i);
    }
  }

  method RandomSelect(table: AccountRuntimeTable, pool: Pool, exclude: set<nat>, prefer: set<nat>, maxInflight: int,
                      now: nat)
    returns (r: Option<nat>)
    requires table.Valid()
    ensures RandomChoice(table.Rows(), pool, exclude, prefer, maxInflight, now, r)
  {
    var candidates := PoolUnion(table, pool);
    if candidates == {} {
      assert RandomEligible(table.Rows(), pool, exclude, maxInflight, now) == {};
      return None;
    }
    var working := candidates - exclude;
    working := set i | i in working && table.cols.cooling[i] <= now && table.cols.inflight[i] < maxInflight;
    RandomColumns(table, pool, exclude, maxInflight, now);
    if working == {} {
      return None;
    }
    if working * prefer != {} {
      working := working * prefer;
    }
    var i :| i in working;
    r := Some(i);
  }

  lemma RandomColumns(table: AccountRuntimeTable, pool: Pool, exclude: set<nat>, maxInflight: int, now: nat)
    requires table.Valid()
    ensures RandomEligible(table.Rows(), pool, exclude, maxInflight, now) ==
              set i: nat | i in PoolMembers(table.Rows(), pool) - exclude
                           && table.cols.cooling[i] <= now && table.cols.inflight[i] < maxInflight
  {
    forall i: nat | i < |table.Rows()| ensures table.Rows()[i] == RowOf(table.cols, table.tagIdx, i) {
    }
  }
}
