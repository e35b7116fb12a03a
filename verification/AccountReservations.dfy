// Reservations without quotas, as callers see them: when they fail, and which slot they give.
module AccountReservations {
  import opened AccountModels
  import opened AccountTable
  import opened AccountSelector
  import opened AccountFeedback
  import opened AccountDirectory

  /** An active slot of the pool with a window in some mode. */
  predicate Serving(s: Slot, pool: Pool) {
    s.pool == pool && s.status == ACTIVE && exists m: ModeId :: s.window.Get(m) > 0
  }

  predicate Free(s: Slot, pool: Pool, maxInflight: nat, now: nat) {
    Serving(s, pool) && s.cooling <= now && s.inflight < maxInflight
  }

  /** A random reservation fails exactly when every slot that is not excluded is inactive, cooling or
      at the limit; otherwise it gives a free slot of the first pool that has one, and a preferred
      one if any such slot is preferred. */
  lemma {:induction false} RandomReserveExact(maxInflight: nat, before: seq<Slot>, after: seq<Slot>, pools: seq<Pool>,
                                              mode: Option<ModeId>, exclude: set<nat>, prefer: set<nat>, now: nat,
                                              r: Option<AccountLease>)
    requires ReserveOutcome(Random, maxInflight, before, after, pools, mode, exclude, prefer, now, r)
    ensures r.None? <==> forall p :: p in pools ==> NoneFree(before, p, exclude, maxInflight, now)
    ensures r.Some? ==> exists k :: 0 <= k < |pools| && FirstFree(before, pools, k, exclude, prefer, maxInflight, now,
                                                                 r.value.idx)
  {
    var k: nat :| ReservedFrom(Random, maxInflight, before, pools, mode, exclude, prefer, now, k, SlotOf(r));
    forall j | 0 <= j < k ensures NoneFree(before, pools[j], exclude, maxInflight, now) {
      assert Choice(Random, maxInflight, before, pools[j], mode, exclude, prefer, now, None);
      FreeIsEligible(before, pools[j], exclude, maxInflight, now);
    }
    if r.Some? {
      assert Choice(Random, maxInflight, before, pools[k], mode, exclude, prefer, now, SlotOf(r));
      FreeIsEligible(before, pools[k], exclude, maxInflight, now);
      FavouredIsPreferred(RandomEligible(before, pools[k], exclude, maxInflight, now), prefer, r.value.idx);
      assert FirstFree(before, pools, k, exclude, prefer, maxInflight, now, r.value.idx);
      assert pools[k] in pools;
    }
  }

  lemma FavouredIsPreferred(candidates: set<nat>, prefer: set<nat>, i: nat)
    requires i in Favoured(candidates, prefer)
    ensures i in candidates && (i in prefer || forall j :: j in candidates ==> j !in prefer)
  {
    if i !in prefer {
      forall j | j in candidates ensures j !in prefer {
        assert j in prefer ==> j in candidates * prefer;
      }
    }
  }

  ghost predicate NoneFree(rows: seq<Slot>, pool: Pool, exclude: set<nat>, maxInflight: nat, now: nat) {
    forall i: nat :: i < |rows| && Free(rows[i], pool, maxInflight, now) ==> i in exclude
  }

  ghost predicate FirstFree(rows: seq<Slot>, pools: seq<Pool>, k: nat, exclude: set<nat>, prefer: set<nat>,
                            maxInflight: nat, now: nat, i: nat)
    requires k < |pools|
  {
    && (forall j :: 0 <= j < k ==> NoneFree(rows, pools[j], exclude, maxInflight, now))
    && i < |rows| && i !in exclude && Free(rows[i], pools[k], maxInflight, now)
    && (i in prefer || forall j: nat ::
          j < |rows| && j !in exclude && Free(rows[j], pools[k], maxInflight, now) ==> j !in prefer)
  }

  lemma FreeIsEligible(rows: seq<Slot>, pool: Pool, exclude: set<nat>, maxInflight: nat, now: nat)
    ensures forall i: nat :: i in RandomEligible(rows, pool, exclude, maxInflight, now) <==>
              i < |rows| && i !in exclude && Free(rows[i], pool, maxInflight, now)
  {
    forall i: nat
      ensures i in RandomEligible(rows, pool, exclude, maxInflight, now)
              <==> i < |rows| && i !in exclude && Free(rows[i], pool, maxInflight, now)
    {
      if i < |rows| {
        ServingIsMember(rows[i], pool);
      }
    }
  }

  lemma ServingIsMember(s: Slot, pool: Pool)
    ensures InPool(s, pool) <==> Serving(s, pool)
  {
    if InPool(s, pool) {
      var m: ModeId :| InBucket(s, pool, m);
      assert s.window.Get(m) > 0;
    }
    if Serving(s, pool) {
      var m: ModeId :| s.window.Get(m) > 0;
      assert InBucket(s, pool, m);
    }
  }

  /** A reservation without a mode, with every column in range: it fails exactly when every serving
      slot is excluded; otherwise it gives one of the first pool that has one, preferred if any is,
      and no other such slot is better on some count and worse on none. */
  lemma {:induction false} AnyReserveExact(maxInflight: nat, before: seq<Slot>, after: seq<Slot>, pools: seq<Pool>,
                                           exclude: set<nat>, prefer: set<nat>, now: nat, r: Option<AccountLease>)
    requires forall i :: 0 <= i < |before| ==> InColumnRange(before[i])
    requires ReserveOutcome(Quota, maxInflight, before, after, pools, None, exclude, prefer, now, r)
    ensures r.None? <==> forall p :: p in pools ==> NoneServing(before, p, exclude)
    ensures r.Some? ==> exists k ::
              0 <= k < |pools| && FirstServing(before, pools, k, exclude, prefer, now, r.value.idx)
  {
    var k: nat :| ReservedFrom(Quota, maxInflight, before, pools, None, exclude, prefer, now, k, SlotOf(r));
    forall j | 0 <= j < k ensures NoneServing(before, pools[j], exclude) {
      assert Choice(Quota, maxInflight, before, pools[j], None, exclude, prefer, now, None);
      NoneOfAny(before, pools[j], exclude, prefer, now);
    }
    if r.Some? {
      assert Choice(Quota, maxInflight, before, pools[k], None, exclude, prefer, now, SlotOf(r));
      SomeOfAny(before, pools[k], exclude, prefer, now, r.value.idx);
      assert FirstServing(before, pools, k, exclude, prefer, now, r.value.idx);
      assert pools[k] in pools;
    }
  }

  ghost predicate NoneServing(rows: seq<Slot>, pool: Pool, exclude: set<nat>) {
    forall i: nat :: i < |rows| && Serving(rows[i], pool) ==> i in exclude
  }

  ghost predicate FirstServing(rows: seq<Slot>, pools: seq<Pool>, k: nat, exclude: set<nat>, prefer: set<nat>, now: nat,
                               i: nat)
    requires k < |pools|
  {
    (forall j :: 0 <= j < k ==> NoneServing(rows, pools[j], exclude))
      && BestServing(rows, pools[k], exclude, prefer, now, i)
  }

  ghost predicate BestServing(rows: seq<Slot>, pool: Pool, exclude: set<nat>, prefer: set<nat>, now: nat, i: nat) {
    && i < |rows| && i !in exclude && Serving(rows[i], pool)
    && forall j: nat :: j < |rows| && j !in exclude && Serving(rows[j], pool) ==>
         (j in prefer ==> i in prefer)
         && ((i in prefer ==> j in prefer) ==>
              !(NoWorse(rows[j], rows[i], now) && SomewhereBetter(rows[j], rows[i], now)))
  }

  lemma NoneOfAny(rows: seq<Slot>, pool: Pool, exclude: set<nat>, prefer: set<nat>, now: nat)
    requires forall i :: 0 <= i < |rows| ==> InColumnRange(rows[i])
    requires AnyChoice(rows, pool, exclude, prefer, now, None)
    ensures NoneServing(rows, pool, exclude)
  {
    var members := PoolMembers(rows, pool) - exclude;
    if members != {} {
      var i :| i in Favoured(members, prefer);
      assert PlainScores(rows, now)[i] <= SENTINEL;
      ScoresBeatSentinel(rows[i].(quota := PerMode(0, 0, 0, 0, 0)), 0, now);
    }
    forall i: nat | i < |rows| && Serving(rows[i], pool) ensures i in exclude {
      ServingIsMember(rows[i], pool);
      assert i !in members;
    }
  }

  lemma SomeOfAny(rows: seq<Slot>, pool: Pool, exclude: set<nat>, prefer: set<nat>, now: nat, i: nat)
    requires AnyChoice(rows, pool, exclude, prefer, now, Some(i))
    ensures BestServing(rows, pool, exclude, prefer, now, i)
  {
    var members, scores := PoolMembers(rows, pool) - exclude, PlainScores(rows, now);
    ServingIsMember(rows[i], pool);
    forall j: nat | j < |rows| && j !in exclude && Serving(rows[j], pool)
      ensures j in prefer ==> i in prefer
      ensures (i in prefer ==> j in prefer) ==>
                !(NoWorse(rows[j], rows[i], now) && SomewhereBetter(rows[j], rows[i], now))
    {
      ServingIsMember(rows[j], pool);
      assert j in members;
      if j in prefer {
        assert j in members * prefer;
      }
      assert (i in prefer ==> j in prefer) ==> scores[j] <= scores[i];
      if NoWorse(rows[j], rows[i], now) && SomewhereBetter(rows[j], rows[i], now) {
        ScorePrefersBetter(rows[j], rows[i], 0, now);
      }
    }
  }

  // ---------------------------------------------------------------------------
  // What a reservation touches
  // ---------------------------------------------------------------------------

  /** Preferred are exactly the slots that carry one of the tags. */
  lemma PreferredByTag(t: AccountRuntimeTable, tags: seq<string>, i: nat)
    requires t.Valid() && i < |t.Rows()|
    ensures i in Preferred(t.tagIdx, tags) <==> exists tag :: tag in tags && tag in t.Rows()[i].tags
  {
    assert t.Rows()[i] == RowOf(t.cols, t.tagIdx, i);
    forall tag ensures i in TagBucket(t.tagIdx, tag) <==> tag in t.Rows()[i].tags {
    }
  }

  /** Excluded are exactly the slots of the tokens. */
  lemma ExcludedByToken(t: AccountRuntimeTable, tokens: seq<string>, i: nat)
    requires t.Valid() && i < |t.Rows()|
    ensures i in Excluded(t.idxByToken, tokens) <==> t.Rows()[i].token in tokens
  {
    assert t.Rows()[i] == RowOf(t.cols, t.tagIdx, i);
    assert t.cols.token[i] in t.idxByToken;
  }

  /** The reserved slot has one more lease, up to 65535, and was used now; every other slot keeps its
      leases, and apart from quotas and their reset times nothing else changes. */
  lemma {:induction false} ReserveTouches(strategy: Strategy, maxInflight: nat, before: seq<Slot>, after: seq<Slot>,
                                          pools: seq<Pool>, mode: Option<ModeId>, exclude: set<nat>, prefer: set<nat>,
                                          now: nat, r: Option<AccountLease>, j: nat)
    requires ReserveOutcome(strategy, maxInflight, before, after, pools, mode, exclude, prefer, now, r) && j < |before|
    ensures |after| == |before|
    ensures after[j].(quota := before[j].quota, reset := before[j].reset, inflight := before[j].inflight,
                      lastUse := before[j].lastUse) == before[j]
    ensures if r.Some? && r.value.idx == j
            then after[j].lastUse == now
              && after[j].inflight == (if before[j].inflight < 65_535 then before[j].inflight + 1 else 65_535)
            else after[j].lastUse == before[j].lastUse && after[j].inflight == before[j].inflight
    ensures strategy == Random || mode.None? ==>
              after[j].quota == before[j].quota && after[j].reset == before[j].reset
  {
  }
}
