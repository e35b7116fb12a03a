// The account directory: reserve, release, feedback and sync over one table, with a ghost
// history of the operations that touch the inflight and cooling columns.
module AccountDirectory {
  import opened AccountModels
  import opened AccountTable
  import opened AccountRepository
  import opened AccountCatchUp
  import opened AccountSync
  import opened AccountSelector
  import opened AccountFeedback
  import opened LeaseRuns

  datatype AccountLease = AccountLease(idx: nat, token: string, pool: Pool, mode: Option<ModeId>, selectedAt: nat)

  // ---------------------------------------------------------------------------
  // What a reservation may do
  // ---------------------------------------------------------------------------

  /** One pool's selection: by mode under the quota strategy, mode-free for mode None, and by
      cooling and inflight alone under the random strategy. */
  ghost predicate Choice(strategy: Strategy, maxInflight: nat, rows: seq<Slot>, pool: Pool, mode: Option<ModeId>,
                         exclude: set<nat>, prefer: set<nat>, now: nat, r: Option<nat>) {
    if strategy == Random then RandomChoice(rows, pool, exclude, prefer, maxInflight, now, r)
    else if mode.Some? then QuotaChoice(rows, pool, mode.value, exclude, prefer, now, r)
    else AnyChoice(rows, pool, exclude, prefer, now, r)
  }

  /** The rows after the window resets that trying a list of pools performs. */
  ghost function AfterResets(strategy: Strategy, rows: seq<Slot>, pools: seq<Pool>, mode: Option<ModeId>,
                             now: nat): (after: seq<Slot>)
    ensures |after| == |rows|
  {
    if strategy == Quota && mode.Some? && Basic in pools then ResetRows(rows, Basic, mode.value, now) else rows
  }

  function Taken(s: Slot, now: nat): Slot { s.(inflight := Min(s.inflight + 1, UINT16_MAX), lastUse := now) }

  /** The first pool with a choice wins; every earlier pool had none. */
  ghost predicate ReservedFrom(strategy: Strategy, maxInflight: nat, rows: seq<Slot>, pools: seq<Pool>,
                               mode: Option<ModeId>,
                               exclude: set<nat>, prefer: set<nat>, now: nat, k: nat, r: Option<nat>) {
    && k <= |pools|
    && (forall j :: 0 <= j < k ==> Choice(strategy, maxInflight, rows, pools[j], mode, exclude, prefer, now, None))
    && (if r.Some? then k < |pools| && Choice(strategy, maxInflight, rows, pools[k], mode, exclude, prefer, now, r)
       else k == |pools|)
  }

  function SlotOf(r: Option<AccountLease>): Option<nat> { if r.Some? then Some(r.value.idx) else None }

  /** A whole reservation: which pool won, which slot, and the new rows. */
  ghost predicate ReserveOutcome(strategy: Strategy, maxInflight: nat, before: seq<Slot>, after: seq<Slot>,
                                 pools: seq<Pool>,
                                 mode: Option<ModeId>, exclude: set<nat>, prefer: set<nat>, now: nat,
                                   r: Option<AccountLease>) {
    exists k: nat ::
      && ReservedFrom(strategy, maxInflight, before, pools, mode, exclude, prefer, now, k, SlotOf(r))
      && var reset := AfterResets(strategy, before, pools[..Min(k + 1, |pools|)], mode, now);
         if r.Some? then
           && r.value.idx < |before| && r.value.idx !in exclude
           && r.value == AccountLease(r.value.idx, before[r.value.idx].token, before[r.value.idx].pool, mode, now)
           && after == reset[r.value.idx := Taken(reset[r.value.idx], now)]
         else after == reset
  }

  lemma OutcomeHolds(strategy: Strategy, maxInflight: nat, before: seq<Slot>, after: seq<Slot>, pools: seq<Pool>,
                     mode: Option<ModeId>,
                  exclude: set<nat>, prefer: set<nat>, now: nat, k: nat, r: Option<AccountLease>)
    requires ReservedFrom(strategy, maxInflight, before, pools, mode, exclude, prefer, now, k, SlotOf(r))
    requires var reset := AfterResets(strategy, before, pools[..Min(k + 1, |pools|)], mode, now);
             if r.Some? then
               && r.value.idx < |before|
               && r.value == AccountLease(r.value.idx, reset[r.value.idx].token, reset[r.value.idx].pool, mode, now)
               && after == reset[r.value.idx := Taken(reset[r.value.idx], now)]
             else after == reset
    ensures ReserveOutcome(strategy, maxInflight, before, after, pools, mode, exclude, prefer, now, r)
    ensures r.Some? ==> r.value.idx !in exclude && r.value.token == before[r.value.idx].token
  {
    ResetsKeepCounters(strategy, before, pools[..Min(k + 1, |pools|)], mode, now);
    if r.Some? {
      ChosenSlot(strategy, maxInflight, before, pools[k], mode, exclude, prefer, now, r.value.idx);
    }
  }

  lemma NotExcluded(tokens: seq<string>, idxByToken: map<string, nat>, excluded: seq<string>, i: nat)
    requires TokensIndexed(tokens, idxByToken) && i < |tokens| && i !in Excluded(idxByToken, excluded)
    ensures tokens[i] !in excluded && tokens[i] in idxByToken && idxByToken[tokens[i]] == i
  {
  }

  /** A lease on a slot that is not excluded carries a token that is not excluded. */
  lemma LeaseToken(table: AccountRuntimeTable, excluded: seq<string>, lease: AccountLease)
    requires table.Valid() && lease.idx < |table.Rows()| && lease.token == table.Rows()[lease.idx].token
    requires lease.idx !in Excluded(table.idxByToken, excluded)
    ensures lease.token !in excluded && lease.token in table.idxByToken && table.idxByToken[lease.token] == lease.idx
  {
    assert table.Rows()[lease.idx] == RowOf(table.cols, table.tagIdx, lease.idx);
    NotExcluded(table.cols.token, table.idxByToken, excluded, lease.idx);
  }

  /** Slots of the excluded tokens. */
  function Excluded(idxByToken: map<string, nat>, tokens: seq<string>): set<nat> {
    set t | t in tokens && t in idxByToken :: idxByToken[t]
  }

  /** Slots carrying any of the preferred tags. */
  function Preferred(index: TagIndex, tags: seq<string>): set<nat> {
    set tag, i | tag in tags && i in TagBucket(index, tag) :: i
  }

  lemma ChosenSlot(strategy: Strategy, maxInflight: nat, rows: seq<Slot>, pool: Pool, mode: Option<ModeId>,
                   exclude: set<nat>, prefer: set<nat>, now: nat, i: nat)
    requires Choice(strategy, maxInflight, rows, pool, mode, exclude, prefer, now, Some(i))
    ensures i < |rows| && i !in exclude && rows[i].pool == pool && rows[i].status == ACTIVE
    ensures strategy == Random ==> rows[i].cooling <= now && rows[i].inflight < maxInflight
  {
  }

  // ---------------------------------------------------------------------------
  // Resets do not change the judgement
  // ---------------------------------------------------------------------------

  lemma ResetSlotTwice(s: Slot, p: Pool, mode: ModeId, now: nat)
    ensures ResetSlot(ResetSlot(s, Basic, mode, now), Basic, mode, now) == ResetSlot(s, Basic, mode, now)
    ensures s.pool == p ==> ResetSlot(ResetSlot(s, Basic, mode, now), p, mode, now) == ResetSlot(s, p, mode, now)
    ensures InBucket(ResetSlot(s, Basic, mode, now), p, mode) <==> InBucket(s, p, mode)
  {
    ResetOnce(s, Basic, mode, now);
  }

  lemma MaximalSame(candidates: set<nat>, a: seq<real>, b: seq<real>, r: Option<nat>)
    requires |a| == |b| && forall j :: j in candidates ==> j < |a| && a[j] == b[j]
    ensures Maximal(candidates, a, r) <==> Maximal(candidates, b, r)
  {
  }

  /** Choosing from a pool after earlier resets is choosing from it before them. */
  lemma ChoiceAfterResets(rows: seq<Slot>, p: Pool, mode: ModeId, exclude: set<nat>, prefer: set<nat>, now: nat,
                          r: Option<nat>)
    ensures QuotaChoice(ResetRows(rows, Basic, mode, now), p, mode, exclude, prefer, now, r)
            <==> QuotaChoice(rows, p, mode, exclude, prefer, now, r)
  {
    var after := ResetRows(rows, Basic, mode, now);
    forall i | 0 <= i < |rows|
      ensures InBucket(after[i], p, mode) <==> InBucket(rows[i], p, mode)
      ensures InBucket(rows[i], p, mode) ==> ResetSlot(after[i], p, mode, now) == ResetSlot(rows[i], p, mode, now)
    {
      ResetSlotTwice(rows[i], p, mode, now);
    }
    var eligible := QuotaEligible(rows, p, mode, exclude, now);
    assert QuotaEligible(after, p, mode, exclude, now) == eligible;
    MaximalSame(Favoured(eligible, prefer), QuotaScores(after, p, mode, now), QuotaScores(rows, p, mode, now), r);
  }

  lemma ResetsOneMore(rows: seq<Slot>, pools: seq<Pool>, k: nat, mode: ModeId, now: nat)
    requires k < |pools|
    ensures ResetRows(AfterResets(Quota, rows, pools[..k], Some(mode), now), pools[k], mode, now)
            == AfterResets(Quota, rows, pools[..k + 1], Some(mode), now)
  {
    var before := AfterResets(Quota, rows, pools[..k], Some(mode), now);
    assert Basic in pools[..k + 1] <==> Basic in pools[..k] || pools[k] == Basic;
    forall i | 0 <= i < |rows| {
      ResetSlotTwice(rows[i], Basic, mode, now);
    }
    assert pools[k] != Basic ==> ResetRows(before, pools[k], mode, now) == before;
  }

  // ---------------------------------------------------------------------------
  // The directory
  // ---------------------------------------------------------------------------

  ghost function InflightColumn(rows: seq<Slot>): seq<nat> {
    seq(|rows|, i requires 0 <= i < |rows| => rows[i].inflight)
  }

  ghost function CoolingColumn(rows: seq<Slot>): seq<nat> { seq(|rows|, i requires 0 <= i < |rows| => rows[i].cooling) }

  ghost function CountersOf(rows: seq<Slot>): Counters { Counters(InflightColumn(rows), CoolingColumn(rows)) }

  class AccountDirectory {
    const repo: LocalAccountRepository
    const strategy: Strategy
    const maxInflight: nat
    var table: AccountRuntimeTable?
    ghost var history: seq<Event>

    /** The columns are what the history replays to, every bucket member's pool supports the
        bucket's mode, and under the random strategy every reservation passed the filters. */
    ghost predicate Valid()
      reads this, table
    {
      && (table != null ==> table.Valid() && Replay(history) == CountersOf(table.Rows()) && RowsSupported(table.Rows()))
      && (table == null ==> history == [])
      && SlotsExist(history)
      && (strategy == Random ==> Filtered(history, maxInflight))
    }

    constructor (repo: LocalAccountRepository, strategy: Strategy, maxInflight: nat)
      ensures Valid() && table == null && history == []
      ensures this.repo == repo && this.strategy == strategy && this.maxInflight == maxInflight
    {
      this.repo, this.strategy, this.maxInflight := repo, strategy, maxInflight;
      table := null;
      history := [];
    }

    /** Append an event whose effect on the columns has just been written. */
    ghost method Record(e: Event)
      requires table != null && table.Valid() && RowsSupported(table.Rows()) && SlotsExist(history)
      requires strategy == Random ==> Filtered(history, maxInflight)
      requires CountersOf(table.Rows()) == Step(Replay(history), e)
      requires !e.Grew? ==> Replay(history).Has(e.idx)
      requires strategy == Random && e.Reserved? ==> Admits(Replay(history), e, maxInflight)
      modifies this`history
      ensures Valid() && history == old(history) + [e]
    {
      ExtendReplay(history, e, 0);
      ExtendExists(history, e);
      if strategy == Random {
        ExtendFiltered(history, e, maxInflight);
      }
      history := history + [e];
    }

    method Start(now: int)
      requires Valid() && repo.Valid() && table == null
      modifies this
      ensures Valid() && table != null && fresh(table)
      ensures table.revision == repo.revision && ViewOfTable(table) == Reload(repo.rows, now)
      ensures exists n :: history == [Grew(n)]
    {
      var t := Bootstrap(repo, now);
      table := t;
      ghost var n := |t.Rows()|;
      assert CountersOf(t.Rows()) == Step(Replay([]), Grew(n)) by {
        assert InflightColumn(t.Rows()) == Zeros(n) && CoolingColumn(t.Rows()) == Zeros(n);
      }
      LoadedIsSupported(t, repo.rows, now);
      Record(Grew(n));
    }

    method SyncIfChanged(now: int) returns (changed: bool)
      requires Valid() && repo.Valid()
      modifies this`history, table
      ensures Valid() && table == old(table)
      ensures table == null ==> !changed && history == old(history)
      ensures table != null ==> table.revision == Max(old(table.revision), repo.revision)
      ensures table != null && CanCatchUp(old(ViewOfTable(table)), repo.rows, old(table.revision), 5000, now) ==>
                ViewOfTable(table) == Reload(repo.rows, now)
      ensures table != null ==> exists n :: history == old(history) + [Grew(n)]
      ensures table != null ==>
                OnePage(old(ViewOfTable(table)), ViewOfTable(table), repo.rows, old(table.revision), 5000, now)
      ensures table != null && !changed ==> table.Rows() == old(table.Rows())
    {
      if table == null {
        return false;
      }
      ghost var grown;
      changed, grown := CatchUp(now);
      Record(Grew(grown));
    }

    /** Apply the changes; new slots start with no leases and no cooling. */
    method CatchUp(now: int) returns (changed: bool, ghost grown: nat)
      requires table != null && table.Valid() && repo.Valid() && RowsSupported(table.Rows())
      modifies table
      ensures table.Valid() && table.revision == Max(old(table.revision), repo.revision) && RowsSupported(table.Rows())
      ensures OnePage(old(ViewOfTable(table)), ViewOfTable(table), repo.rows, old(table.revision), 5000, now)
      ensures !changed ==> table.Rows() == old(table.Rows())
      ensures CanCatchUp(old(ViewOfTable(table)), repo.rows, old(table.revision), 5000, now) ==>
                ViewOfTable(table) == Reload(repo.rows, now)
      ensures CountersOf(table.Rows()) == Step(old(CountersOf(table.Rows())), Grew(grown))
    {
      ghost var before, view, since := table.Rows(), ViewOfTable(table), table.revision;
      TableSupported(table);
      changed := ApplyChanges(table, repo, 5000, now);
      PageIsSupported(table, view, repo.rows, since, now);
      GrownCounters(before, table.Rows());
      grown := |table.Rows()| - |before|;
    }

    /** One pool's selection under the active strategy. */
    method Select(pool: Pool, mode: Option<ModeId>, exclude: set<nat>, prefer: set<nat>, now: nat)
        returns (r: Option<nat>)
      requires table != null && table.Valid()
      modifies table`cols
      ensures table.Valid()
      ensures Choice(strategy, maxInflight, old(table.Rows()), pool, mode, exclude, prefer, now, r)
      ensures table.Rows() == if strategy == Quota && mode.Some?
              then ResetRows(old(table.Rows()), pool, mode.value, now)
                              else old(table.Rows())
    {
      if strategy == Random {
        r := RandomSelect(table, pool, exclude, prefer, maxInflight, now);
      } else if mode.Some? {
        r := QuotaSelect(table, pool, mode.value, exclude, prefer, now);
      } else {
        r := QuotaSelectAny(table, pool, exclude, prefer, now);
      }
    }

    /** Try the pools in order until one yields a slot. */
    method SelectFrom(pools: seq<Pool>, mode: Option<ModeId>, exclude: set<nat>, prefer: set<nat>, now: nat)
      returns (idx: Option<nat>, ghost k: nat)
      requires table != null && table.Valid()
      modifies table`cols
      ensures table.Valid()
      ensures ReservedFrom(strategy, maxInflight, old(table.Rows()), pools, mode, exclude, prefer, now, k, idx)
      ensures table.Rows() == AfterResets(strategy, old(table.Rows()), pools[..Min(k + 1, |pools|)], mode, now)
    {
      ghost var before := table.Rows();
      idx := None;
      var i := 0;
      while i < |pools| && idx.None?
        invariant i <= |pools| && table.Valid()
        invariant TriedSoFar(strategy, maxInflight, before, pools, i, mode, exclude, prefer, now, idx)
        invariant table.Rows() == AfterResets(strategy, before, pools[..i], mode, now)
      {
        ghost var rows := table.Rows();
        idx := Select(pools[i], mode, exclude, prefer, now);
        TriedOneMore(strategy, maxInflight, before, rows, table.Rows(), pools, i, mode, exclude, prefer, now, idx);
        i := i + 1;
      }
      k := if idx.Some? then i - 1 else i;
      TriedAll(strategy, maxInflight, before, pools, i, mode, exclude, prefer, now, idx, k);
    }

    method ReserveSlot(pools: seq<Pool>, mode: Option<ModeId>, excludeTokens: seq<string>, preferTags: seq<string>,
                       now: nat)
      returns (r: Option<AccountLease>)
      requires Valid()
      modifies this`history, table
      ensures Valid() && table == old(table)
      ensures table == null ==> r.None?
      ensures table != null ==>
                ReserveOutcome(strategy, maxInflight, old(table.Rows()), table.Rows(), pools, mode,
                               Excluded(old(table.idxByToken), excludeTokens),
                                 Preferred(old(table.tagIdx), preferTags), now, r)
      ensures history == old(history) + (if r.Some? then [Reserved(r.value.idx, now)] else [])
      ensures r.Some? ==> r.value.token !in excludeTokens && r.value.idx < |table.Rows()|
      ensures table != null ==> table.idxByToken == old(table.idxByToken) && table.tagIdx == old(table.tagIdx)
      ensures r.Some? ==> r.value.token in table.idxByToken && table.idxByToken[r.value.token] == r.value.idx
    {
      if table == null {
        return None;
      }
      var exclude := Excluded(table.idxByToken, excludeTokens);
      var prefer := Preferred(table.tagIdx, preferTags);
      r := ReserveFrom(pools, mode, exclude, prefer, now);
      if r.Some? {
        LeaseToken(table, excludeTokens, r.value);
      }
    }

    /** Select a slot and take it. */
    method ReserveFrom(pools: seq<Pool>, mode: Option<ModeId>, exclude: set<nat>, prefer: set<nat>, now: nat)
      returns (r: Option<AccountLease>)
      requires Valid() && table != null
      modifies this`history, table`cols
      ensures Valid()
      ensures ReserveOutcome(strategy, maxInflight, old(table.Rows()), table.Rows(), pools, mode, exclude, prefer, now,
              r)
      ensures history == old(history) + (if r.Some? then [Reserved(r.value.idx, now)] else [])
      ensures r.Some? ==>
                r.value.idx < |table.Rows()| && r.value.idx !in exclude
                && r.value.token == table.Rows()[r.value.idx].token
    {
      ghost var before := table.Rows();
      var idx, k := SelectFrom(pools, mode, exclude, prefer, now);
      ResetsKeepCounters(strategy, before, pools[..Min(k + 1, |pools|)], mode, now);
      ResetsKeepSupport(strategy, before, pools[..Min(k + 1, |pools|)], mode, now);
      r := None;
      if idx.Some? {
        ChosenSlot(strategy, maxInflight, before, pools[k], mode, exclude, prefer, now, idx.value);
        var lease := TakeSlot(idx.value, mode, now);
        r := Some(lease);
      }
      OutcomeHolds(strategy, maxInflight, before, table.Rows(), pools, mode, exclude, prefer, now, k, r);
    }

    /** Count the lease and note the use. */
    method TakeSlot(i: nat, mode: Option<ModeId>, now: nat) returns (lease: AccountLease)
      requires table != null && table.Valid() && i < |table.Rows()|
      requires SlotsExist(history) && Replay(history) == CountersOf(table.Rows())
      requires strategy == Random ==> Filtered(history, maxInflight)
      requires strategy == Random ==> table.Rows()[i].cooling <= now && table.Rows()[i].inflight < maxInflight
      requires RowsSupported(table.Rows())
      modifies this`history, table`cols
      ensures Valid() && history == old(history) + [Reserved(i, now)]
      ensures table.Rows() == old(table.Rows())[i := Taken(old(table.Rows())[i], now)]
      ensures lease == AccountLease(i, old(table.Rows())[i].token, old(table.Rows())[i].pool, mode, now)
    {
      ghost var before := table.Rows();
      assert before[i] == RowOf(table.cols, table.tagIdx, i);
      lease := AccountLease(i, table.cols.token[i], table.cols.pool[i], mode, now);
      IncrementInflight(table, i);
      UpdateLastUse(table, i, now);
      assert table.Rows() == before[i := Taken(before[i], now)];
      assert Replay(history).inflight[i] == before[i].inflight;
      TakenCounters(before, i, now);
      OneSlotSupported(before, i, Taken(before[i], now));
      Record(Reserved(i, now));
    }

    /** Reserve for one mode. */
    method Reserve(pools: seq<Pool>, mode: ModeId, excludeTokens: seq<string>, preferTags: seq<string>, now: nat)
      returns (r: Option<AccountLease>)
      requires Valid()
      modifies this`history, table
      ensures Valid() && table == old(table)
      ensures table == null ==> r.None?
      ensures table != null ==>
                ReserveOutcome(strategy, maxInflight, old(table.Rows()), table.Rows(), pools, Some(mode),
                               Excluded(old(table.idxByToken), excludeTokens),
                                 Preferred(old(table.tagIdx), preferTags), now, r)
      ensures history == old(history) + (if r.Some? then [Reserved(r.value.idx, now)] else [])
      ensures r.Some? ==> r.value.token !in excludeTokens && r.value.idx < |table.Rows()|
      ensures table != null ==> table.idxByToken == old(table.idxByToken) && table.tagIdx == old(table.tagIdx)
      ensures r.Some? ==> r.value.token in table.idxByToken && table.idxByToken[r.value.token] == r.value.idx
    {
      r := ReserveSlot(pools, Some(mode), excludeTokens, preferTags, now);
    }

    /** Reserve any active slot of the pools, whatever its quotas. */
    method ReserveAny(pools: seq<Pool>, excludeTokens: seq<string>, preferTags: seq<string>, now: nat)
      returns (r: Option<AccountLease>)
      requires Valid()
      modifies this`history, table
      ensures Valid() && table == old(table)
      ensures table == null ==> r.None?
      ensures table != null ==>
                ReserveOutcome(strategy, maxInflight, old(table.Rows()), table.Rows(), pools, None,
                               Excluded(old(table.idxByToken), excludeTokens),
                                 Preferred(old(table.tagIdx), preferTags), now, r)
      ensures history == old(history) + (if r.Some? then [Reserved(r.value.idx, now)] else [])
      ensures r.Some? ==> r.value.token !in excludeTokens && r.value.idx < |table.Rows()|
      ensures table != null ==> table.idxByToken == old(table.idxByToken) && table.tagIdx == old(table.tagIdx)
      ensures r.Some? ==> r.value.token in table.idxByToken && table.idxByToken[r.value.token] == r.value.idx
    {
      r := ReserveSlot(pools, None, excludeTokens, preferTags, now);
    }

    method Release(lease: AccountLease)
      requires Valid() && (table != null ==> lease.idx < |table.Rows()|)
      modifies this`history, table
      ensures Valid() && table == old(table)
      ensures table != null ==> table.idxByToken == old(table.idxByToken) && table.tagIdx == old(table.tagIdx)
      ensures table == null ==> history == old(history)
      ensures table != null ==> history == old(history) + [Released(lease.idx)]
      ensures table != null ==>
                table.Rows() == old(table.Rows())[lease.idx := Returned(old(table.Rows())[lease.idx])]
    {
      if table == null {
        return;
      }
      ghost var before := table.Rows();
      DecrementInflight(table, lease.idx);
      ReturnedCounters(before, lease.idx);
      OneSlotSupported(before, lease.idx, Returned(before[lease.idx]));
      Record(Released(lease.idx));
    }

    /** ts is the caller's clock, clock the wall clock, cooling the pool's cooldown in seconds. */
    method Feedback(token: string, kind: FeedbackKind, mode: ModeId, up: Upstream, ts: nat, clock: nat, cooling: nat)
      requires Valid()
      modifies this`history, table
      ensures Valid() && table == old(table)
      ensures table != null ==> table.idxByToken == old(table.idxByToken) && table.tagIdx == old(table.tagIdx)
      ensures table == null || token !in old(table.idxByToken) ==> history == old(history)
      ensures table != null && token !in old(table.idxByToken) ==> table.Rows() == old(table.Rows())
      ensures table != null && token in old(table.idxByToken) ==>
                var i := old(table.idxByToken)[token];
                && table.Rows() == old(table.Rows())[i :=
                     QuotaFeedback(KindFeedback(old(table.Rows())[i], strategy, kind, mode, ts, clock, cooling),
                       strategy, mode, up)]
                && history == old(history) + (if kind == RateLimited && (strategy == Random || cooling > 0)
                                              then [CoolUntil(i, clock + cooling)] else [])
                && Reported(old(table.Rows())[i], table.Rows()[i], strategy, kind, mode, ts, clock, cooling, up)
    {
      if table == null || token !in table.idxByToken {
        return;
      }
      var i := table.idxByToken[token];
      ghost var before := table.Rows();
      ApplyFeedback(i, kind, mode, up, ts, clock, cooling);
      FeedbackIsReported(before[i], strategy, kind, mode, ts, clock, cooling, up);
      CooledCounters(before, i, strategy, kind, mode, ts, clock, cooling, up);
      FeedbackKeepsSupport(before, i, strategy, kind, mode, ts, clock, cooling, up);
      if kind == RateLimited && (strategy == Random || cooling > 0) {
        Record(CoolUntil(i, clock + cooling));
      }
    }

    method ApplyFeedback(i: nat, kind: FeedbackKind, mode: ModeId, up: Upstream, ts: nat, clock: nat, cooling: nat)
      requires table != null && table.Valid() && i < |table.Rows()|
      modifies table`cols, table`modeAvailable
      ensures table.Valid()
      ensures table.Rows() == old(table.Rows())[i :=
                QuotaFeedback(KindFeedback(old(table.Rows())[i], strategy, kind, mode, ts, clock, cooling), strategy,
                  mode, up)]
    {
      ApplyKind(table, i, strategy, kind, mode, ts, clock, cooling);
      if strategy == Quota && up.QuotaData? {
        ApplyQuotaUpdate(table, i, mode, up.remaining, up.resetAtMs / 1000);
      }
    }
  }

  // ---------------------------------------------------------------------------
  // What callers may rely on
  // ---------------------------------------------------------------------------

  /** A quota reservation, with every column in range: it fails exactly when no pool has an
      eligible slot; otherwise the slot is eligible in the first pool that has one, preferred if
      any eligible slot there is, and no other favoured slot beats it. */
  lemma {:induction false} QuotaReserveExact(maxInflight: nat, before: seq<Slot>, after: seq<Slot>, pools: seq<Pool>,
                                             mode: ModeId,
                          exclude: set<nat>, prefer: set<nat>, now: nat, r: Option<AccountLease>)
    requires forall i :: 0 <= i < |before| ==> InColumnRange(before[i])
    requires ReserveOutcome(Quota, maxInflight, before, after, pools, Some(mode), exclude, prefer, now, r)
    ensures r.None? <==> forall j :: 0 <= j < |pools| ==> QuotaEligible(before, pools[j], mode, exclude, now) == {}
    ensures r.Some? ==>
              exists k :: 0 <= k < |pools| && FirstChoice(before, pools, k, mode, exclude, prefer, now, r.value.idx)
                          && Unbeaten(before, pools[k], mode, exclude, prefer, now, r.value.idx)
  {
    var k: nat :| ReservedFrom(Quota, maxInflight, before, pools, Some(mode), exclude, prefer, now, k, SlotOf(r));
    forall j | 0 <= j < k ensures QuotaEligible(before, pools[j], mode, exclude, now) == {} {
      assert Choice(Quota, maxInflight, before, pools[j], Some(mode), exclude, prefer, now, None);
      NoneMeansNoneEligible(before, pools[j], mode, exclude, prefer, now, None);
    }
    if r.Some? {
      assert Choice(Quota, maxInflight, before, pools[k], Some(mode), exclude, prefer, now, SlotOf(r));
      BestOfFavoured(before, pools[k], mode, exclude, prefer, now, r.value.idx);
      BestIsUnbeaten(before, pools[k], mode, exclude, prefer, now, r.value.idx);
      assert FirstChoice(before, pools, k, mode, exclude, prefer, now, r.value.idx);
    }
  }

  lemma BestOfFavoured(rows: seq<Slot>, pool: Pool, mode: ModeId, exclude: set<nat>, prefer: set<nat>, now: nat, i: nat)
    requires QuotaChoice(rows, pool, mode, exclude, prefer, now, Some(i))
    ensures BestEligible(rows, pool, mode, exclude, prefer, now, i)
  {
    var scores := QuotaScores(rows, pool, mode, now);
    forall j | j in Favoured(QuotaEligible(rows, pool, mode, exclude, now), prefer)
      ensures Score(ResetSlot(rows[j], pool, mode, now), mode, now)
              <= Score(ResetSlot(rows[i], pool, mode, now), mode, now)
    {
      assert scores[j] <= scores[i];
    }
  }

  /** i is the best eligible slot of pool k, and no earlier pool has an eligible slot. */
  ghost predicate FirstChoice(rows: seq<Slot>, pools: seq<Pool>, k: nat, mode: ModeId, exclude: set<nat>,
                              prefer: set<nat>, now: nat, i: nat)
    requires k < |pools|
  {
    && (forall j :: 0 <= j < k ==> QuotaEligible(rows, pools[j], mode, exclude, now) == {})
    && BestEligible(rows, pools[k], mode, exclude, prefer, now, i)
  }

  ghost predicate BestEligible(rows: seq<Slot>, pool: Pool, mode: ModeId, exclude: set<nat>, prefer: set<nat>,
                               now: nat, i: nat) {
    var eligible := QuotaEligible(rows, pool, mode, exclude, now);
    && i in eligible
    && (eligible * prefer != {} ==> i in prefer)
    && forall j :: j in eligible && (eligible * prefer != {} ==> j in prefer) ==>
         Score(ResetSlot(rows[j], pool, mode, now), mode, now) <= Score(ResetSlot(rows[i], pool, mode, now), mode, now)
  }

  /** No slot that was as eligible and as favoured beats slot i, counting from after the resets. */
  ghost predicate Unbeaten(rows: seq<Slot>, pool: Pool, mode: ModeId, exclude: set<nat>, prefer: set<nat>,
                           now: nat, i: nat) {
    var eligible := QuotaEligible(rows, pool, mode, exclude, now);
    i < |rows| && forall j :: j in eligible && (eligible * prefer != {} ==> j in prefer) ==>
      !Beats(ResetSlot(rows[j], pool, mode, now), ResetSlot(rows[i], pool, mode, now), mode, now)
  }

  lemma BestIsUnbeaten(rows: seq<Slot>, pool: Pool, mode: ModeId, exclude: set<nat>, prefer: set<nat>, now: nat, i: nat)
    requires BestEligible(rows, pool, mode, exclude, prefer, now, i)
    ensures Unbeaten(rows, pool, mode, exclude, prefer, now, i)
  {
    var eligible := QuotaEligible(rows, pool, mode, exclude, now);
    forall j | j in eligible && (eligible * prefer != {} ==> j in prefer)
      ensures !Beats(ResetSlot(rows[j], pool, mode, now), ResetSlot(rows[i], pool, mode, now), mode, now)
    {
      var a, b := ResetSlot(rows[j], pool, mode, now), ResetSlot(rows[i], pool, mode, now);
      if Beats(a, b, mode, now) {
        ScorePrefersBetter(a, b, mode, now);
      }
    }
  }

  /** Lease conservation on the real column: as long as a slot never had more leases out than
      the column can count, its inflight entry is the number of leases out. */
  lemma InflightIsLeasesOut(dir: AccountDirectory, i: nat)
    requires dir.Valid() && dir.table != null && i < |dir.table.Rows()|
    requires ReleasedOnce(dir.history, i)
    requires forall k :: 0 <= k <= |dir.history| ==> Outstanding(dir.history[..k], i) <= INFLIGHT_CAP
    ensures dir.table.Rows()[i].inflight == Outstanding(dir.history, i)
  {
    InflightCounts(dir.history, i);
    assert Replay(dir.history).inflight[i] == dir.table.Rows()[i].inflight;
  }

  /** Under the random strategy no slot has more than maxInflight leases out, and the slot's
      column says how many. */
  lemma RandomCap(dir: AccountDirectory, i: nat)
    requires dir.Valid() && dir.table != null && i < |dir.table.Rows()|
    requires dir.strategy == Random && dir.maxInflight <= INFLIGHT_CAP && ReleasedOnce(dir.history, i)
    ensures dir.table.Rows()[i].inflight == Outstanding(dir.history, i) <= dir.maxInflight
  {
    CapHolds(dir.history, i, dir.maxInflight);
    assert dir.history[..|dir.history|] == dir.history;
    assert Replay(dir.history).inflight[i] == dir.table.Rows()[i].inflight;
  }

  // ---------------------------------------------------------------------------
  // Row changes seen by the counters
  // ---------------------------------------------------------------------------

  /** The pools before i had no choice, except the last when a slot was found. */
  ghost predicate TriedSoFar(strategy: Strategy, maxInflight: nat, rows: seq<Slot>, pools: seq<Pool>, i: nat,
                             mode: Option<ModeId>,
                             exclude: set<nat>, prefer: set<nat>, now: nat, r: Option<nat>) {
    && i <= |pools| && (r.Some? ==>
         0 < i && Choice(strategy, maxInflight, rows, pools[i - 1], mode, exclude, prefer, now, r))
    && forall j :: 0 <= j < (if r.Some? then i - 1 else i) ==>
         Choice(strategy, maxInflight, rows, pools[j], mode, exclude, prefer, now, None)
  }

  lemma TriedOneMore(strategy: Strategy, maxInflight: nat, before: seq<Slot>, rows: seq<Slot>, after: seq<Slot>,
                     pools: seq<Pool>, i: nat,
                     mode: Option<ModeId>, exclude: set<nat>, prefer: set<nat>, now: nat, r: Option<nat>)
    requires i < |pools| && TriedSoFar(strategy, maxInflight, before, pools, i, mode, exclude, prefer, now, None)
    requires rows == AfterResets(strategy, before, pools[..i], mode, now)
    requires Choice(strategy, maxInflight, rows, pools[i], mode, exclude, prefer, now, r)
    requires after == if strategy == Quota && mode.Some? then ResetRows(rows, pools[i], mode.value, now) else rows
    ensures TriedSoFar(strategy, maxInflight, before, pools, i + 1, mode, exclude, prefer, now, r)
    ensures after == AfterResets(strategy, before, pools[..i + 1], mode, now)
  {
    JudgedBefore(strategy, maxInflight, before, pools, i, mode, exclude, prefer, now, r);
    ChosenNext(strategy, maxInflight, before, pools, i, mode, exclude, prefer, now, r);
  }

  lemma ChosenNext(strategy: Strategy, maxInflight: nat, rows: seq<Slot>, pools: seq<Pool>, i: nat,
                   mode: Option<ModeId>,
                   exclude: set<nat>, prefer: set<nat>, now: nat, r: Option<nat>)
    requires i < |pools| && TriedSoFar(strategy, maxInflight, rows, pools, i, mode, exclude, prefer, now, None)
    requires Choice(strategy, maxInflight, rows, pools[i], mode, exclude, prefer, now, r)
    ensures TriedSoFar(strategy, maxInflight, rows, pools, i + 1, mode, exclude, prefer, now, r)
  {
  }

  lemma TriedAll(strategy: Strategy, maxInflight: nat, rows: seq<Slot>, pools: seq<Pool>, i: nat, mode: Option<ModeId>,
                 exclude: set<nat>, prefer: set<nat>, now: nat, r: Option<nat>, k: nat)
    requires TriedSoFar(strategy, maxInflight, rows, pools, i, mode, exclude, prefer, now, r)
    requires (r.Some? || i == |pools|) && k == if r.Some? then i - 1 else i
    ensures ReservedFrom(strategy, maxInflight, rows, pools, mode, exclude, prefer, now, k, r)
            && Min(k + 1, |pools|) == i
  {
  }

  lemma JudgedBefore(strategy: Strategy, maxInflight: nat, before: seq<Slot>, pools: seq<Pool>, i: nat,
                     mode: Option<ModeId>,
                     exclude: set<nat>, prefer: set<nat>, now: nat, r: Option<nat>)
    requires i < |pools|
    requires Choice(strategy, maxInflight, AfterResets(strategy, before, pools[..i], mode, now), pools[i], mode,
             exclude, prefer, now, r)
    ensures Choice(strategy, maxInflight, before, pools[i], mode, exclude, prefer, now, r)
    ensures (if strategy == Quota && mode.Some?
             then ResetRows(AfterResets(strategy, before, pools[..i], mode, now), pools[i], mode.value, now)
             else AfterResets(strategy, before, pools[..i], mode, now))
            == AfterResets(strategy, before, pools[..i + 1], mode, now)
  {
    if strategy == Quota && mode.Some? {
      ChoiceAfterResets(before, pools[i], mode.value, exclude, prefer, now, r);
      ResetsOneMore(before, pools, i, mode.value, now);
    }
  }

  lemma ResetsKeepCounters(strategy: Strategy, rows: seq<Slot>, pools: seq<Pool>, mode: Option<ModeId>, now: nat)
    ensures CountersOf(AfterResets(strategy, rows, pools, mode, now)) == CountersOf(rows)
    ensures forall i :: 0 <= i < |rows| ==> var s := AfterResets(strategy, rows, pools, mode, now)[i];
              s.token == rows[i].token && s.pool == rows[i].pool
  {
    var after := AfterResets(strategy, rows, pools, mode, now);
    assert InflightColumn(after) == InflightColumn(rows);
    assert CoolingColumn(after) == CoolingColumn(rows);
  }

  lemma OneSlotCounters(rows: seq<Slot>, i: nat, s: Slot)
    requires i < |rows|
    ensures CountersOf(rows[i := s]) == Counters(InflightColumn(rows)[i := s.inflight],
            CoolingColumn(rows)[i := s.cooling])
  {
    assert InflightColumn(rows[i := s]) == InflightColumn(rows)[i := s.inflight];
    assert CoolingColumn(rows[i := s]) == CoolingColumn(rows)[i := s.cooling];
  }

  lemma TakenCounters(rows: seq<Slot>, i: nat, now: nat)
    requires i < |rows|
    ensures rows[i].inflight <= INFLIGHT_CAP ==>
              CountersOf(rows[i := Taken(rows[i], now)]) == Step(CountersOf(rows), Reserved(i, now))
  {
    OneSlotCounters(rows, i, Taken(rows[i], now));
  }

  lemma ReturnedCounters(rows: seq<Slot>, i: nat)
    requires i < |rows|
    ensures CountersOf(rows[i := Returned(rows[i])]) == Step(CountersOf(rows), Released(i))
  {
    OneSlotCounters(rows, i, Returned(rows[i]));
  }

  lemma CooledCounters(rows: seq<Slot>, i: nat, strategy: Strategy, kind: FeedbackKind, mode: ModeId, ts: nat,
                       clock: nat, cooling: nat, up: Upstream)
    requires i < |rows|
    ensures var s := QuotaFeedback(KindFeedback(rows[i], strategy, kind, mode, ts, clock, cooling), strategy, mode, up);
            CountersOf(rows[i := s]) ==
              if kind == RateLimited && (strategy == Random || cooling > 0)
              then Step(CountersOf(rows), CoolUntil(i, clock + cooling)) else CountersOf(rows)
  {
    var s := QuotaFeedback(KindFeedback(rows[i], strategy, kind, mode, ts, clock, cooling), strategy, mode, up);
    OneSlotCounters(rows, i, s);
  }

  // ---------------------------------------------------------------------------
  // Row changes seen by the buckets
  // ---------------------------------------------------------------------------

  lemma ResetsKeepSupport(strategy: Strategy, rows: seq<Slot>, pools: seq<Pool>, mode: Option<ModeId>, now: nat)
    requires RowsSupported(rows)
    ensures RowsSupported(AfterResets(strategy, rows, pools, mode, now))
  {
    var after := AfterResets(strategy, rows, pools, mode, now);
    forall i | 0 <= i < |after| ensures SlotSupported(after[i]) {
      assert SlotSupported(rows[i]);
      if mode.Some? {
        ResetOnce(rows[i], Basic, mode.value, now);
      }
    }
  }

  lemma FeedbackKeepsSupport(rows: seq<Slot>, i: nat, strategy: Strategy, kind: FeedbackKind, mode: ModeId,
                             ts: nat, clock: nat, cooling: nat, up: Upstream)
    requires RowsSupported(rows) && i < |rows|
    ensures RowsSupported(rows[i := QuotaFeedback(KindFeedback(rows[i], strategy, kind, mode, ts, clock, cooling),
            strategy, mode, up)])
  {
    OneSlotSupported(rows, i, QuotaFeedback(KindFeedback(rows[i], strategy, kind, mode, ts, clock, cooling), strategy,
      mode, up));
  }

  lemma LoadedIsSupported(t: AccountRuntimeTable, rows: RecordTable, now: int)
    requires t.Valid() && ViewOfTable(t) == Reload(rows, now)
    ensures RowsSupported(t.Rows())
  {
    SyncKeepsSupport(map[], rows, {}, now);
    TableSupported(t);
  }

  lemma PageIsSupported(t: AccountRuntimeTable, before: TableView, rows: RecordTable, since: nat, now: int)
    requires t.Valid() && Supported(before) && OnePage(before, ViewOfTable(t), rows, since, 5000, now)
    ensures RowsSupported(t.Rows())
  {
    var page :| IsPage(rows, since, 5000, page) && ViewOfTable(t) == Overlay(before, rows, page, now);
    SyncKeepsSupport(before, rows, page, now);
    TableSupported(t);
  }

  /** In every reachable directory a slot is only in buckets whose mode its pool supports. */
  lemma BucketsSupported(dir: AccountDirectory, i: nat, p: Pool, m: ModeId)
    requires dir.Valid() && dir.table != null && i in Bucket(dir.table.modeAvailable, p, m)
    ensures SupportsMode(p, m)
  {
    BucketRows(dir.table.cols, dir.table.modeAvailable, dir.table.tagIdx, p, m, i);
    assert SlotSupported(dir.table.Rows()[i]);
  }

  lemma GrownCounters(before: seq<Slot>, after: seq<Slot>)
    requires KeepsRuntime(before, after)
    ensures CountersOf(after) == Step(CountersOf(before), Grew(|after| - |before|))
  {
    assert InflightColumn(after) == InflightColumn(before) + Zeros(|after| - |before|);
    assert CoolingColumn(after) == CoolingColumn(before) + Zeros(|after| - |before|);
  }
}
