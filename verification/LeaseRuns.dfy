// Leases over whole runs. A history lists, in order, the operations that touch the inflight
// and cooling columns; replaying it gives the columns, and counting it gives the leases.
module LeaseRuns {

  const INFLIGHT_CAP := 65_535

  datatype Event =
    | Reserved(idx: nat, now: nat)        // a lease was handed out at clock now
    | Released(idx: nat)                  // a lease came back
    | CoolUntil(idx: nat, until: nat)     // the slot must cool until the given second
    | Grew(slots: nat)                    // sync appended idle slots

  datatype Counters = Counters(inflight: seq<nat>, cooling: seq<nat>)
  {
    predicate Has(idx: nat) { idx < |inflight| && idx < |cooling| }
  }

  function Zeros(n: nat): seq<nat> { seq(n, _ => 0) }

  function Step(c: Counters, e: Event): Counters {
    match e
    case Reserved(i, _) =>
      if c.Has(i)
      then c.(inflight := c.inflight[i := if c.inflight[i] < INFLIGHT_CAP then c.inflight[i] + 1 else INFLIGHT_CAP])
      else c
    case Released(i) =>
      if c.Has(i) then c.(inflight := c.inflight[i := if c.inflight[i] > 0 then c.inflight[i] - 1 else 0]) else c
    case CoolUntil(i, until) =>
      if c.Has(i) then c.(cooling := c.cooling[i := if c.cooling[i] < until then until else c.cooling[i]]) else c
    case Grew(n) => Counters(c.inflight + Zeros(n), c.cooling + Zeros(n))
  }

  function Replay(h: seq<Event>): (c: Counters)
    ensures |c.inflight| == |c.cooling|
    ensures forall i :: 0 <= i < |c.inflight| ==> c.inflight[i] <= INFLIGHT_CAP
  {
    if h == [] then Counters([], []) else Step(Replay(h[..|h| - 1]), h[|h| - 1])
  }

  /** Leases on slot i that have not come back. */
  function Outstanding(h: seq<Event>, i: nat): int {
    if h == [] then 0
    else
      var e := h[|h| - 1];
      Outstanding(h[..|h| - 1], i)
        + (if e.Reserved? && e.idx == i then 1 else 0)
        - (if e.Released? && e.idx == i then 1 else 0)
  }

  /** Slots are used only once they exist. */
  predicate SlotsExist(h: seq<Event>) {
    forall k :: 0 <= k < |h| && !h[k].Grew? ==> Replay(h[..k]).Has(h[k].idx)
  }

  /** Each lease comes back at most once. */
  predicate ReleasedOnce(h: seq<Event>, i: nat) { forall k :: 0 <= k <= |h| ==> 0 <= Outstanding(h[..k], i) }

  // ---------------------------------------------------------------------------
  // Conservation
  // ---------------------------------------------------------------------------

  function CountAt(c: Counters, i: nat): nat { if i < |c.inflight| then c.inflight[i] else 0 }

  function InflightAt(h: seq<Event>, i: nat): nat { CountAt(Replay(h), i) }

  lemma PrefixOf(h: seq<Event>, j: nat, k: nat)
    requires j <= k <= |h|
    ensures h[..k][..j] == h[..j]
  {
  }

  lemma {:induction false} InflightCounts(h: seq<Event>, i: nat)
    requires SlotsExist(h) && ReleasedOnce(h, i)
    requires forall k :: 0 <= k <= |h| ==> Outstanding(h[..k], i) <= INFLIGHT_CAP
    ensures InflightAt(h, i) == Outstanding(h, i)
  {
    if h != [] {
      var n := |h| - 1;
      var init := h[..n];
      forall k | 0 <= k <= n ensures init[..k] == h[..k] { PrefixOf(h, k, n); }
      assert SlotsExist(init) && ReleasedOnce(init, i);
      InflightCounts(init, i);
      assert h[..|h|] == h;
      assert Outstanding(h[..n], i) >= 0 && Outstanding(h, i) <= INFLIGHT_CAP && Outstanding(h[..|h|], i) >= 0;
      assert !h[n].Grew? ==> Replay(h[..n]).Has(h[n].idx);
    }
  }

  /** Conservation: the inflight counter equals the number of outstanding leases throughout a run
      exactly when that number never passes the column's range. */
  lemma LeaseConservation(h: seq<Event>, i: nat)
    requires SlotsExist(h) && ReleasedOnce(h, i)
    ensures (forall k :: 0 <= k <= |h| ==> InflightAt(h[..k], i) == Outstanding(h[..k], i))
            <==> (forall k :: 0 <= k <= |h| ==> Outstanding(h[..k], i) <= INFLIGHT_CAP)
  {
    if forall k :: 0 <= k <= |h| ==> Outstanding(h[..k], i) <= INFLIGHT_CAP {
      forall k | 0 <= k <= |h| ensures InflightAt(h[..k], i) == Outstanding(h[..k], i) {
        PrefixIsRun(h, i, k);
        InflightCounts(h[..k], i);
      }
    } else {
      var k :| 0 <= k <= |h| && Outstanding(h[..k], i) > INFLIGHT_CAP;
      assert InflightAt(h[..k], i) <= INFLIGHT_CAP;
    }
  }

  lemma PrefixIsRun(h: seq<Event>, i: nat, k: nat)
    requires SlotsExist(h) && ReleasedOnce(h, i) && k <= |h|
    ensures SlotsExist(h[..k]) && ReleasedOnce(h[..k], i)
    ensures forall j :: 0 <= j <= k ==> h[..k][..j] == h[..j]
  {
    forall j | 0 <= j <= k ensures h[..k][..j] == h[..j] { PrefixOf(h, j, k); }
  }

  // ---------------------------------------------------------------------------
  // The random strategy
  // ---------------------------------------------------------------------------

  /** Every reservation passed the cooling and inflight filters of the moment. */
  predicate Filtered(h: seq<Event>, maxInflight: nat) {
    forall k :: 0 <= k < |h| && h[k].Reserved? ==> Admits(Replay(h[..k]), h[k], maxInflight)
  }

  predicate Admits(c: Counters, e: Event, maxInflight: nat)
    requires e.Reserved?
  {
    c.Has(e.idx) && c.cooling[e.idx] <= e.now && c.inflight[e.idx] < maxInflight
  }

  /** What one event does to the counter of slot i. */
  lemma StepAt(c: Counters, e: Event, i: nat)
    requires |c.inflight| == |c.cooling| && (forall j :: 0 <= j < |c.inflight| ==> c.inflight[j] <= INFLIGHT_CAP)
    requires !e.Grew? ==> c.Has(e.idx)
    ensures var was := CountAt(c, i);
            CountAt(Step(c, e), i) ==
              if e.Reserved? && e.idx == i then (if was < INFLIGHT_CAP then was + 1 else INFLIGHT_CAP)
                  else if e.Released? && e.idx == i then (if was > 0 then was - 1 else 0)
                  else was
  {
  }

  lemma ReplayLast(h: seq<Event>, n: nat)
    requires |h| == n + 1
    ensures Replay(h) == Step(Replay(h[..n]), h[n])
  {
  }

  lemma {:induction false} CapHolds(h: seq<Event>, i: nat, maxInflight: nat)
    requires SlotsExist(h) && ReleasedOnce(h, i) && Filtered(h, maxInflight) && maxInflight <= INFLIGHT_CAP
    ensures Outstanding(h, i) <= maxInflight && InflightAt(h, i) == Outstanding(h, i)
  {
    if h != [] {
      var n := |h| - 1;
      var init := h[..n];
      PrefixIsRun(h, i, n);
      assert Filtered(init, maxInflight);
      CapHolds(init, i, maxInflight);
      ReplayLast(h, n);
      assert !h[n].Grew? ==> Replay(init).Has(h[n].idx);
      StepAt(Replay(init), h[n], i);
      assert h[..|h|] == h;
      assert Outstanding(h, i) >= 0;
    }
  }

  /** n reservations of one slot at clock 0. */
  function Burst(n: nat): seq<Event> {
    if n == 0 then [Grew(1)] else Burst(n - 1) + [Reserved(0, 0)]
  }

  /** Appending an event to a run. */
  lemma ExtendReplay(h: seq<Event>, e: Event, i: nat)
    ensures Replay(h + [e]) == Step(Replay(h), e)
    ensures Outstanding(h + [e], i) ==
              Outstanding(h, i) + (if e.Reserved? && e.idx == i then 1 else 0)
                - (if e.Released? && e.idx == i then 1 else 0)
  {
    assert (h + [e])[..|h|] == h;
  }

  lemma ExtendPrefixes(h: seq<Event>, e: Event)
    ensures forall k :: 0 <= k <= |h| ==> (h + [e])[..k] == h[..k]
    ensures h[..|h|] == h && (h + [e])[|h|] == e && (h + [e])[..|h| + 1] == h + [e]
    ensures forall k :: 0 <= k < |h| ==> (h + [e])[k] == h[k]
  {
    assert (h + [e])[..|h|] == h;
    forall k | 0 <= k <= |h| ensures (h + [e])[..k] == h[..k] { PrefixOf(h + [e], k, |h|); }
  }

  lemma {:induction false} ExtendExists(h: seq<Event>, e: Event)
    requires SlotsExist(h) && (!e.Grew? ==> Replay(h).Has(e.idx))
    ensures SlotsExist(h + [e])
  {
    ExtendPrefixes(h, e);
  }

  lemma {:induction false} ExtendFiltered(h: seq<Event>, e: Event, m: nat)
    requires Filtered(h, m) && (e.Reserved? ==> Admits(Replay(h), e, m))
    ensures Filtered(h + [e], m)
  {
    ExtendPrefixes(h, e);
  }

  lemma ExtendReleased(h: seq<Event>, e: Event, i: nat)
    requires ReleasedOnce(h, i) && 0 <= Outstanding(h + [e], i)
    ensures ReleasedOnce(h + [e], i)
  {
    ExtendPrefixes(h, e);
  }

  predicate BurstState(h: seq<Event>, n: nat, maxInflight: nat) {
    && SlotsExist(h) && ReleasedOnce(h, 0) && Filtered(h, maxInflight)
    && Outstanding(h, 0) == n && Replay(h).Has(0) && Replay(h).cooling[0] == 0
  }

  lemma BurstStarts(maxInflight: nat)
    ensures BurstState([Grew(1)], 0, maxInflight)
  {
    var h: seq<Event> := [];
    assert h + [Grew(1)] == [Grew(1)];
    assert Zeros(1) == [0];
    ExtendReplay(h, Grew(1), 0);
    ExtendReleased(h, Grew(1), 0);
  }

  lemma {:induction false} BurstGoesOn(h: seq<Event>, n: nat, maxInflight: nat)
    requires BurstState(h, n, maxInflight) && maxInflight > INFLIGHT_CAP
    ensures BurstState(h + [Reserved(0, 0)], n + 1, maxInflight)
  {
    var e := Reserved(0, 0);
    ExtendReplay(h, e, 0);
    ExtendExists(h, e);
    ExtendFiltered(h, e, maxInflight);
    ExtendReleased(h, e, 0);
  }

  lemma {:induction false} BurstRuns(n: nat, maxInflight: nat)
    requires maxInflight > INFLIGHT_CAP
    ensures BurstState(Burst(n), n, maxInflight)
  {
    if n == 0 {
      BurstStarts(maxInflight);
    } else {
      BurstRuns(n - 1, maxInflight);
      BurstGoesOn(Burst(n - 1), n - 1, maxInflight);
    }
  }

  /** The cap: with a fixed max_inflight no slot ever has more than max_inflight leases out, in
      every filtered run, exactly when max_inflight is within the column's range. */
  lemma InflightCapExact(maxInflight: nat)
    ensures (forall h, i :: SlotsExist(h) && ReleasedOnce(h, i) && Filtered(h, maxInflight) ==>
              Outstanding(h, i) <= maxInflight)
            <==> maxInflight <= INFLIGHT_CAP
  {
    if maxInflight <= INFLIGHT_CAP {
      forall h, i | SlotsExist(h) && ReleasedOnce(h, i) && Filtered(h, maxInflight)
             ensures Outstanding(h, i) <= maxInflight {
        CapHolds(h, i, maxInflight);
        assert h[..|h|] == h;
      }
    } else {
      BurstRuns(maxInflight + 1, maxInflight);
    }
  }

  lemma {:induction false} CoolingNeverFalls(h: seq<Event>, i: nat, k: nat)
    requires k <= |h| && Replay(h[..k]).Has(i)
    ensures Replay(h).Has(i) && Replay(h[..k]).cooling[i] <= Replay(h).cooling[i]
  {
    if k == |h| {
      assert h[..k] == h;
    } else {
      PrefixOf(h, k, |h| - 1);
      CoolingNeverFalls(h[..|h| - 1], i, k);
    }
  }

  /** A slot rate-limited until a given second is never handed out before it, whatever
      releases, syncs and other rate limits come in between. */
  lemma NeverReservedWhileCooling(h: seq<Event>, maxInflight: nat, a: nat, b: nat)
    requires SlotsExist(h) && Filtered(h, maxInflight)
    requires a < b < |h| && h[a].CoolUntil? && h[b].Reserved? && h[b].idx == h[a].idx
    ensures h[b].now >= h[a].until
  {
    var i := h[a].idx;
    assert Replay(h[..a]).Has(i);
    assert h[..a + 1][..a] == h[..a];
    assert Replay(h[..a + 1]).cooling[i] >= h[a].until;
    PrefixOf(h, a + 1, b);
    CoolingNeverFalls(h[..b], i, a + 1);
  }
}
