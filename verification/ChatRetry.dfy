// The account-swapping retry loop around one chat completion: reserve, call upstream, always
// release and report, and exclude the account before trying again.
module ChatRetry {
  import opened AccountModels
  import opened AccountTable
  import opened AccountSelector
  import opened Sequences
  import opened AccountDirectory
  import opened AccountFeedback
  import opened LeaseRuns

  /** How one upstream call ends: well, with an upstream error, or with any other exception. */
  datatype Outcome = Succeeded | UpstreamError(retryable: bool, kind: FeedbackKind) | Crashed

  /** Whether attempt n is followed by another. */
  predicate Swaps(o: Outcome, attempt: nat, maxRetries: nat) { o.UpstreamError? && o.retryable && attempt < maxRetries }

  function KindOf(o: Outcome): FeedbackKind {
    match o
    case Succeeded => Success
    case UpstreamError(_, kind) => kind
    case Crashed => ServerError
  }

  predicate AllDifferent(tokens: seq<string>) { forall i, j :: 0 <= i < j < |tokens| ==> tokens[i] != tokens[j] }

  /** Nothing is left out or given back twice: every slot has as many leases out as before. */
  ghost predicate SameLeases(before: seq<Event>, after: seq<Event>) {
    forall i: nat :: Outstanding(after, i) == Outstanding(before, i)
  }

  /** A rate limit is recorded as a cooldown. */
  function CoolingOf(strategy: Strategy, i: nat, kind: FeedbackKind, now: nat, cooling: nat): seq<Event> {
    if kind == RateLimited && (strategy == Random || cooling > 0) then [CoolUntil(i, now + cooling)] else []
  }

  /** The events of one attempt on slot i. */
  function AttemptEvents(strategy: Strategy, i: nat, kind: FeedbackKind, now: nat, cooling: nat): seq<Event> {
    [Reserved(i, now)] + [Released(i)] + CoolingOf(strategy, i, kind, now, cooling)
  }

  /** Different tokens of the table. */
  predicate KnownOnce(index: map<string, nat>, tried: seq<string>) {
    if tried == [] then true
    else
      var front, token := tried[..|tried| - 1], tried[|tried| - 1];
      KnownOnce(index, front) && token in index && token !in front
  }

  lemma KnownOneMore(index: map<string, nat>, tried: seq<string>, token: string)
    requires KnownOnce(index, tried) && token in index && token !in tried
    ensures KnownOnce(index, tried + [token])
  {
    assert (tried + [token])[..|tried + [token]| - 1] == tried;
  }

  lemma {:induction false} KnownAreDifferent(index: map<string, nat>, tried: seq<string>)
    requires KnownOnce(index, tried)
    ensures AllDifferent(tried) && forall t :: t in tried ==> t in index
  {
    if tried != [] {
      var front, token := tried[..|tried| - 1], tried[|tried| - 1];
      KnownAreDifferent(index, front);
      assert tried == front + [token];
    }
  }

  /** The events of a whole request: one group per token tried, in order, on that token's slot. */
  function RequestEvents(strategy: Strategy, index: map<string, nat>, tried: seq<string>,
                         upstream: nat -> Outcome, clock: nat -> nat, cooling: nat): seq<Event>
    requires KnownOnce(index, tried)
  {
    if tried == [] then []
    else
      var k := |tried| - 1;
      RequestEvents(strategy, index, tried[..k], upstream, clock, cooling)
        + AttemptEvents(strategy, index[tried[k]], KindOf(upstream(k)), clock(k), cooling)
  }

  lemma OneMoreAttempt(strategy: Strategy, index: map<string, nat>, tried: seq<string>, token: string,
                       upstream: nat -> Outcome, clock: nat -> nat, cooling: nat, before: seq<Event>)
    requires KnownOnce(index, tried) && token in index && token !in tried
    ensures KnownOnce(index, tried + [token])
    ensures before + RequestEvents(strategy, index, tried + [token], upstream, clock, cooling)
            == before + RequestEvents(strategy, index, tried, upstream, clock, cooling)
               + AttemptEvents(strategy, index[token], KindOf(upstream(|tried|)), clock(|tried|), cooling)
  {
    KnownOneMore(index, tried, token);
    assert (tried + [token])[..|tried|] == tried;
    InTwoParts(before, RequestEvents(strategy, index, tried, upstream, clock, cooling),
      AttemptEvents(strategy, index[token], KindOf(upstream(|tried|)), clock(|tried|), cooling));
  }

  lemma LeaseReturned(h: seq<Event>, i: nat, strategy: Strategy, kind: FeedbackKind, now: nat, cooling: nat)
    ensures SameLeases(h, h + AttemptEvents(strategy, i, kind, now, cooling))
  {
    var h1 := h + [Reserved(i, now)];
    var h2 := h1 + [Released(i)];
    var rest := CoolingOf(strategy, i, kind, now, cooling);
    assert h + AttemptEvents(strategy, i, kind, now, cooling) == h2 + rest;
    forall j: nat ensures Outstanding(h2 + rest, j) == Outstanding(h, j) {
      ExtendReplay(h, Reserved(i, now), j);
      ExtendReplay(h1, Released(i), j);
      if rest != [] {
        ExtendReplay(h2, rest[0], j);
        assert rest == [rest[0]];
      } else {
        assert h2 + rest == h2;
      }
    }
  }

  // ---------------------------------------------------------------------------
  // Reserving
  // ---------------------------------------------------------------------------

  /** Reservations for the first n modes in turn, from row to row: all but the last found nothing. */
  ghost predicate Turns(strategy: Strategy, maxInflight: nat, trace: seq<seq<Slot>>, pools: seq<Pool>,
                        modes: seq<ModeId>,
                        n: nat, exclude: set<nat>, prefer: set<nat>, now: nat, lease: Option<AccountLease>) {
    && n <= |modes| && |trace| == n + 1
    && forall j :: 0 <= j < n ==>
         ReserveOutcome(strategy, maxInflight, trace[j], trace[j + 1], pools, Some(modes[j]), exclude, prefer, now,
                        if j == n - 1 then lease else None)
  }

  lemma OneMoreTurn(strategy: Strategy, maxInflight: nat, trace: seq<seq<Slot>>, after: seq<Slot>, pools: seq<Pool>,
                    modes: seq<ModeId>,
                    n: nat, exclude: set<nat>, prefer: set<nat>, now: nat, lease: Option<AccountLease>)
    requires n < |modes| && Turns(strategy, maxInflight, trace, pools, modes, n, exclude, prefer, now, None)
    requires ReserveOutcome(strategy, maxInflight, trace[n], after, pools, Some(modes[n]), exclude, prefer, now, lease)
    ensures Turns(strategy, maxInflight, trace + [after], pools, modes, n + 1, exclude, prefer, now, lease)
  {
    var more := trace + [after];
    assert forall j :: 0 <= j <= n ==> more[j] == trace[j];
  }

  /** No candidate mode found a slot, and the rows are as the last try left them. */
  ghost predicate FoundNothing(strategy: Strategy, maxInflight: nat, rows: seq<Slot>, pools: seq<Pool>,
                               modes: seq<ModeId>,
                               exclude: set<nat>, prefer: set<nat>, now: nat) {
    exists trace ::
      Turns(strategy, maxInflight, trace, pools, modes, |modes|, exclude, prefer, now, None) && trace[|modes|] == rows
  }

  /** Try the candidate modes in order. */
  method ReserveAccount(dir: AccountDirectory, pools: seq<Pool>, modes: seq<ModeId>, exclude: seq<string>, now: nat)
    returns (lease: Option<AccountLease>, mode: ModeId, ghost trace: seq<seq<Slot>>)
    requires dir.Valid() && dir.table != null && |modes| > 0
    modifies dir`history, dir.table
    ensures dir.Valid() && dir.table == old(dir.table) && dir.table.idxByToken == old(dir.table.idxByToken)
    ensures dir.history == old(dir.history) + (if lease.Some? then [Reserved(lease.value.idx, now)] else [])
    ensures lease.Some? ==> lease.value.token !in exclude && lease.value.idx < |dir.table.Rows()|
    ensures lease.Some? ==>
              lease.value.token in dir.table.idxByToken && dir.table.idxByToken[lease.value.token] == lease.value.idx
    ensures |trace| > 0 && trace[0] == old(dir.table.Rows()) && trace[|trace| - 1] == dir.table.Rows()
    ensures Turns(dir.strategy, dir.maxInflight, trace, pools, modes, |trace| - 1,
            Excluded(dir.table.idxByToken, exclude), {}, now, lease)
    ensures if lease.Some? then |trace| > 1 && mode == modes[|trace| - 2]
            else |trace| == |modes| + 1 && mode == modes[0]
  {
    lease, mode := None, modes[0];
    trace := [dir.table.Rows()];
    assert Preferred(dir.table.tagIdx, []) == {};
    for i := 0 to |modes|
      invariant dir.Valid() && dir.table == old(dir.table) && dir.history == old(dir.history)
      invariant dir.table.idxByToken == old(dir.table.idxByToken) && Preferred(dir.table.tagIdx, []) == {}
      invariant |trace| == i + 1 && trace[0] == old(dir.table.Rows()) && trace[i] == dir.table.Rows()
      invariant Turns(dir.strategy, dir.maxInflight, trace, pools, modes, i, Excluded(dir.table.idxByToken, exclude),
                {}, now, None)
    {
      var r := dir.Reserve(pools, modes[i], exclude, [], now);
      OneMoreTurn(dir.strategy, dir.maxInflight, trace, dir.table.Rows(), pools, modes, i,
        Excluded(dir.table.idxByToken, exclude), {}, now, r);
      trace := trace + [dir.table.Rows()];
      if r.Some? {
        return r, modes[i], trace;
      }
    }
  }

  /** A success is reported as one, an upstream error as its kind, any other exception as a server error. */
  predicate ReportsAs(o: Outcome, kind: FeedbackKind) {
    && (o.Succeeded? ==> kind == Success) && (o.Crashed? ==> kind == ServerError)
       && (o.UpstreamError? ==> kind == o.kind)
  }

  /** One lease of slot i came back and the outcome was reported on it; no other slot changed. */
  ghost predicate Finished(before: seq<Slot>, after: seq<Slot>, i: nat, strategy: Strategy, kind: FeedbackKind,
                           mode: ModeId, now: nat, clock: nat, cooling: nat) {
    && i < |before| == |after| && (forall j :: 0 <= j < |before| && j != i ==> after[j] == before[j])
    && Reported(before[i].(inflight := if before[i].inflight > 0 then before[i].inflight - 1 else 0), after[i],
                strategy, kind, mode, now, clock, cooling, NoData)
  }

  /** The finally clause: give the lease back and report how the call went. */
  method Finish(dir: AccountDirectory, lease: AccountLease, mode: ModeId, kind: FeedbackKind, now: nat, clock: nat,
                cooling: nat)
    requires dir.Valid() && dir.table != null && lease.idx < |dir.table.Rows()|
    requires lease.token in dir.table.idxByToken && dir.table.idxByToken[lease.token] == lease.idx
    modifies dir`history, dir.table
    ensures dir.Valid() && dir.table == old(dir.table) && dir.table.idxByToken == old(dir.table.idxByToken)
    ensures dir.history == old(dir.history) + [Released(lease.idx)]
            + CoolingOf(dir.strategy, lease.idx, kind, clock, cooling)
    ensures Finished(old(dir.table.Rows()), dir.table.Rows(), lease.idx, dir.strategy, kind, mode, now, clock, cooling)
  {
    dir.Release(lease);
    dir.Feedback(lease.token, kind, mode, NoData, now, clock, cooling);
  }

  /** How an attempt went: a slot was reserved for one of the modes in turn, and the outcome reported on it. */
  ghost predicate Attempted(strategy: Strategy, maxInflight: nat, before: seq<Slot>, after: seq<Slot>, pools: seq<Pool>,
                            modes: seq<ModeId>, exclude: set<nat>, token: string, outcome: Outcome, now: nat,
                            cooling: nat) {
    exists trace, lease: AccountLease, kind, n: nat ::
      && n < |modes| && Turns(strategy, maxInflight, trace, pools, modes, n + 1, exclude, {}, now, Some(lease))
      && trace[0] == before && lease.token == token && ReportsAs(outcome, kind)
      && Finished(trace[n + 1], after, lease.idx, strategy, kind, modes[n], now, now, cooling)
  }

  lemma AttemptWent(strategy: Strategy, maxInflight: nat, trace: seq<seq<Slot>>, after: seq<Slot>, pools: seq<Pool>,
                    modes: seq<ModeId>, exclude: set<nat>, lease: AccountLease, mode: ModeId, outcome: Outcome,
                      now: nat,
                    cooling: nat)
    requires |trace| > 1 && Turns(strategy, maxInflight, trace, pools, modes, |trace| - 1, exclude, {}, now,
             Some(lease))
    requires mode == modes[|trace| - 2]
    requires Finished(trace[|trace| - 1], after, lease.idx, strategy, KindOf(outcome), mode, now, now, cooling)
    ensures Attempted(strategy, maxInflight, trace[0], after, pools, modes, exclude, lease.token, outcome, now, cooling)
  {
    var n: nat := |trace| - 2;
    assert ReportsAs(outcome, KindOf(outcome));
    assert Turns(strategy, maxInflight, trace, pools, modes, n + 1, exclude, {}, now, Some(lease));
  }

  /** One attempt: whatever the outcome, the lease is back when it ends. */
  method Attempt(dir: AccountDirectory, pools: seq<Pool>, modes: seq<ModeId>, excluded: seq<string>, outcome: Outcome,
                 now: nat, cooling: nat)
    returns (token: Option<string>)
    requires dir.Valid() && dir.table != null && |modes| > 0
    modifies dir`history, dir.table
    ensures dir.Valid() && dir.table == old(dir.table) && dir.table.idxByToken == old(dir.table.idxByToken)
    ensures token.Some? ==> token.value !in excluded && token.value in dir.table.idxByToken
    ensures token.Some? ==>
              dir.history == old(dir.history)
                + AttemptEvents(dir.strategy, dir.table.idxByToken[token.value], KindOf(outcome), now, cooling)
    ensures token.Some? ==>
              Attempted(dir.strategy, dir.maxInflight, old(dir.table.Rows()), dir.table.Rows(), pools, modes,
                        Excluded(dir.table.idxByToken, excluded), token.value, outcome, now, cooling)
    ensures token.None? ==>
              dir.history == old(dir.history)
              && FoundNothing(dir.strategy, dir.maxInflight, dir.table.Rows(), pools, modes,
                              Excluded(dir.table.idxByToken, excluded), {}, now)
  {
    ghost var before := dir.history;
    var lease, mode;
    ghost var trace;
    lease, mode, trace := ReserveAccount(dir, pools, modes, excluded, now);
    if lease.None? {
      assert dir.history == before;
      return None;
    }
    Finish(dir, lease.value, mode, KindOf(outcome), now, now, cooling);
    AttemptWent(dir.strategy, dir.maxInflight, trace, dir.table.Rows(), pools, modes,
      Excluded(dir.table.idxByToken, excluded), lease.value, mode, outcome, now, cooling);
    AttemptParts(before, lease.value.idx, dir.strategy, KindOf(outcome), now, cooling);
    token := Some(lease.value.token);
  }

  lemma AttemptParts(h: seq<Event>, i: nat, strategy: Strategy, kind: FeedbackKind, now: nat, cooling: nat)
    ensures h + AttemptEvents(strategy, i, kind, now, cooling)
            == h + [Reserved(i, now)] + [Released(i)] + CoolingOf(strategy, i, kind, now, cooling)
  {
  }

  ghost predicate AllSwap(tried: seq<string>, upstream: nat -> Outcome, maxRetries: nat, n: nat) {
    n <= |tried| && forall k :: 0 <= k < n ==> Swaps(upstream(k), k, maxRetries)
  }

  /** The attempts on these tokens have led from one history to the other. */
  ghost predicate Requested(strategy: Strategy, index: map<string, nat>, before: seq<Event>, history: seq<Event>,
                            tried: seq<string>,
                            upstream: nat -> Outcome, clock: nat -> nat, cooling: nat) {
    KnownOnce(index, tried) && history == before + RequestEvents(strategy, index, tried, upstream, clock, cooling)
  }

  lemma RequestedOneMore(strategy: Strategy, index: map<string, nat>, before: seq<Event>, history: seq<Event>,
                         tried: seq<string>,
                         upstream: nat -> Outcome, clock: nat -> nat, cooling: nat, token: string, after: seq<Event>)
    requires Requested(strategy, index, before, history, tried, upstream, clock, cooling)
    requires token !in tried && token in index
    requires after == history + AttemptEvents(strategy, index[token], KindOf(upstream(|tried|)), clock(|tried|),
             cooling)
    ensures Requested(strategy, index, before, after, tried + [token], upstream, clock, cooling)
  {
    OneMoreAttempt(strategy, index, tried, token, upstream, clock, cooling, before);
  }

  /** Every lease taken is returned. */
  lemma {:induction false} LeasesReturned(strategy: Strategy, index: map<string, nat>, before: seq<Event>,
                                          tried: seq<string>,
                                          upstream: nat -> Outcome, clock: nat -> nat, cooling: nat)
    requires KnownOnce(index, tried)
    ensures SameLeases(before, before + RequestEvents(strategy, index, tried, upstream, clock, cooling))
  {
    if tried == [] {
      assert before + [] == before;
    } else {
      var k := |tried| - 1;
      var front := tried[..k];
      assert tried == front + [tried[k]];
      LeasesReturned(strategy, index, before, front, upstream, clock, cooling);
      LeaseReturned(before + RequestEvents(strategy, index, front, upstream, clock, cooling), index[tried[k]], strategy,
        KindOf(upstream(k)), clock(k), cooling);
      OneMoreAttempt(strategy, index, front, tried[k], upstream, clock, cooling, before);
    }
  }

  /** Why the loop stopped: the last outcome is not retried, or no account was left. */
  ghost predicate StopReason(strategy: Strategy, maxInflight: nat, rows: seq<Slot>, index: map<string, nat>,
                             pools: seq<Pool>, modes: seq<ModeId>, tried: seq<string>, maxRetries: nat,
                             upstream: nat -> Outcome, clock: nat -> nat) {
    || (tried != [] && !Swaps(upstream(|tried| - 1), |tried| - 1, maxRetries))
    || (|tried| <= maxRetries && AllSwap(tried, upstream, maxRetries, |tried|)
        && FoundNothing(strategy, maxInflight, rows, pools, modes, Excluded(index, tried), {}, clock(|tried|)))
  }

  predicate Retryable(o: Outcome) { o.UpstreamError? && o.retryable }

  /** The history grows by one group of events per token tried, on that token's slot, so every lease
      is returned. The tokens are pairwise different, and each outcome but the last is retried. The
      loop stops because the last outcome is not retried, or because no account is left. */
  method Completions(dir: AccountDirectory, pools: seq<Pool>, modes: seq<ModeId>, maxRetries: nat,
                     upstream: nat -> Outcome, clock: nat -> nat, cooling: nat)
    returns (tried: seq<string>, success: bool)
    requires dir.Valid() && dir.table != null && |modes| > 0
    modifies dir`history, dir.table
    ensures dir.Valid() && dir.table == old(dir.table) && dir.table.idxByToken == old(dir.table.idxByToken)
    ensures Requested(dir.strategy, dir.table.idxByToken, old(dir.history), dir.history, tried, upstream, clock,
            cooling)
    ensures SameLeases(old(dir.history), dir.history) && AllDifferent(tried)
    ensures Retried(tried, upstream, maxRetries)
    ensures success <==> tried != [] && upstream(|tried| - 1).Succeeded?
    ensures StopReason(dir.strategy, dir.maxInflight, dir.table.Rows(), dir.table.idxByToken, pools, modes,
                       tried, maxRetries, upstream, clock)
    ensures |tried| <= maxRetries + 1 && forall k :: 0 <= k < |tried| - 1 ==> Retryable(upstream(k))
    ensures tried == [] || (Retryable(upstream(|tried| - 1)) && |tried| <= maxRetries) ==>
              FoundNothing(dir.strategy, dir.maxInflight, dir.table.Rows(), pools, modes,
                           Excluded(dir.table.idxByToken, tried), {}, clock(|tried|))
  {
    tried, success := TryAccounts(dir, pools, modes, maxRetries, upstream, clock, cooling);
    KnownAreDifferent(dir.table.idxByToken, tried);
    LeasesReturned(dir.strategy, dir.table.idxByToken, old(dir.history), tried, upstream, clock, cooling);
  }

  method TryAccounts(dir: AccountDirectory, pools: seq<Pool>, modes: seq<ModeId>, maxRetries: nat,
                     upstream: nat -> Outcome, clock: nat -> nat, cooling: nat)
    returns (tried: seq<string>, success: bool)
    requires dir.Valid() && dir.table != null && |modes| > 0
    modifies dir`history, dir.table
    ensures dir.Valid() && dir.table == old(dir.table) && dir.table.idxByToken == old(dir.table.idxByToken)
    ensures Requested(dir.strategy, dir.table.idxByToken, old(dir.history), dir.history, tried, upstream, clock,
            cooling)
    ensures Retried(tried, upstream, maxRetries)
    ensures success <==> tried != [] && upstream(|tried| - 1).Succeeded?
    ensures StopReason(dir.strategy, dir.maxInflight, dir.table.Rows(), dir.table.idxByToken, pools, modes,
                       tried, maxRetries, upstream, clock)
  {
    tried, success := [], false;
    ghost var before, index := dir.history, dir.table.idxByToken;
    NothingRequested(dir.strategy, index, before, upstream, clock, cooling);
    var swapping := true;
    while swapping
      invariant dir.Valid() && dir.table == old(dir.table) && dir.table.idxByToken == index
      invariant Requested(dir.strategy, index, before, dir.history, tried, upstream, clock, cooling)
      invariant if swapping then |tried| <= maxRetries && AllSwap(tried, upstream, maxRetries, |tried|)
                else StopReason(dir.strategy, dir.maxInflight, dir.table.Rows(), dir.table.idxByToken, pools, modes,
                                tried, maxRetries, upstream, clock)
      invariant Retried(tried, upstream, maxRetries)
      invariant success <==> tried != [] && upstream(|tried| - 1).Succeeded?
      decreases maxRetries + 1 - |tried|, swapping
    {
      var attempt := |tried|;
      var token := NextAttempt(dir, pools, modes, tried, upstream, clock, cooling, before);
      if token.None? {
        swapping := false;
      } else {
        SwapOneMore(tried, token.value, upstream, maxRetries);
        tried := tried + [token.value];
        success := upstream(attempt).Succeeded?;
        swapping := Swaps(upstream(attempt), attempt, maxRetries);
      }
    }
  }

  /** Every outcome but the last was retried. */
  ghost predicate Retried(tried: seq<string>, upstream: nat -> Outcome, maxRetries: nat) {
    |tried| <= maxRetries + 1 && (tried != [] ==> AllSwap(tried, upstream, maxRetries, |tried| - 1))
  }

  lemma SwapOneMore(tried: seq<string>, token: string, upstream: nat -> Outcome, maxRetries: nat)
    requires AllSwap(tried, upstream, maxRetries, |tried|)
    ensures AllSwap(tried + [token], upstream, maxRetries, |tried|)
    ensures Swaps(upstream(|tried|), |tried|, maxRetries) ==>
              AllSwap(tried + [token], upstream, maxRetries, |tried| + 1)
  {
  }

  /** The attempt after those on the excluded tokens. */
  method NextAttempt(dir: AccountDirectory, pools: seq<Pool>, modes: seq<ModeId>, excluded: seq<string>,
                     upstream: nat -> Outcome, clock: nat -> nat, cooling: nat, ghost before: seq<Event>)
    returns (token: Option<string>)
    requires dir.Valid() && dir.table != null && |modes| > 0
    requires Requested(dir.strategy, dir.table.idxByToken, before, dir.history, excluded, upstream, clock, cooling)
    modifies dir`history, dir.table
    ensures dir.Valid() && dir.table == old(dir.table) && dir.table.idxByToken == old(dir.table.idxByToken)
    ensures token.Some? ==>
              Requested(dir.strategy, dir.table.idxByToken, before, dir.history, excluded + [token.value], upstream,
                clock, cooling)
    ensures token.None? ==> dir.history == old(dir.history)
    ensures token.None? ==> FoundNothing(dir.strategy, dir.maxInflight, dir.table.Rows(), pools, modes,
                                         Excluded(dir.table.idxByToken, excluded), {}, clock(|excluded|))
  {
    ghost var sofar := dir.history;
    token := Attempt(dir, pools, modes, excluded, upstream(|excluded|), clock(|excluded|), cooling);
    if token.Some? {
      RequestedOneMore(dir.strategy, dir.table.idxByToken, before, sofar, excluded, upstream, clock, cooling,
        token.value, dir.history);
    }
  }

  lemma NothingRequested(strategy: Strategy, index: map<string, nat>, before: seq<Event>,
                         upstream: nat -> Outcome, clock: nat -> nat, cooling: nat)
    ensures Requested(strategy, index, before, before, [], upstream, clock, cooling)
  {
    assert before + [] == before;
  }
}
