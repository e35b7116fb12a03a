// The single-flight guard of the clearance refresh as a state machine. Coroutines run the body
// of the get-or-build loop; each lock-protected block, each wait and each refresh is one step.
// Reloads, invalidations and refreshes from outside the guard are steps of the environment.
module ProxySingleFlight {

  type Key(==, !new, 0) = nat

  type EventId = nat

  /** Between winning an event and setting it. */
  datatype Stage =
    | Refreshing   // fetching a bundle
    | Storing      // got a bundle, about to store it
    | Finishing    // in finally, about to pop the event
    | Popped       // popped, about to set the event

  /** Where a coroutine is. The events named are the ones in its local variable. */
  datatype Pc =
    | Start                                     // about to look under the lock
    | Waiting(event: EventId)                   // in event.wait()
    | Holding(event: EventId, stage: Stage)     // won the event, has still to set it
    | Done

  datatype Proc = Proc(key: Key, pc: Pc)
  {
    predicate Owns(e: EventId) { pc.Holding? && pc.event == e }

    predicate At(stage: Stage) { pc.Holding? && pc.stage == stage }

    predicate Flying() { pc.Holding? && !pc.stage.Popped? }
  }

  /** valid: keys whose bundle is VALID; events: the guard's dictionary; fired: events that are
      set; made: events created so far; refreshes: refreshes started so far, by key. */
  datatype State = State(
    procs: seq<Proc>,
    valid: set<Key>,
    events: map<Key, EventId>,
    fired: set<EventId>,
    made: nat,
    refreshes: map<Key, nat>)

  function Count(s: State, k: Key): nat { if k in s.refreshes then s.refreshes[k] else 0 }

  ghost predicate Init(s: State) {
    && (forall i :: 0 <= i < |s.procs| ==> s.procs[i].pc == Start)
    && s.events == map[] && s.fired == {} && s.made == 0 && s.refreshes == map[]
  }

  // ---------------------------------------------------------------------------
  // Steps of coroutine i
  // ---------------------------------------------------------------------------

  function Move(s: State, i: nat, pc: Pc): State
    requires i < |s.procs|
  {
    s.(procs := s.procs[i := s.procs[i].(pc := pc)])
  }

  /** The lock-protected look: a valid bundle is returned, a refresh in flight is waited for,
      and otherwise this coroutine wins the right to refresh. */
  ghost predicate Look(s: State, s': State, i: nat)
    requires i < |s.procs|
  {
    var k := s.procs[i].key;
    && s.procs[i].pc == Start
    && s' == if k in s.valid then Move(s, i, Done)
             else if k in s.events then Move(s, i, Waiting(s.events[k]))
             else Move(s, i, Holding(s.made, Refreshing)).(events := s.events[k := s.made], made := s.made + 1,
                                                  refreshes := s.refreshes[k := Count(s, k) + 1])
  }

  ghost predicate Wake(s: State, s': State, i: nat)
    requires i < |s.procs|
  {
    s.procs[i].pc.Waiting? && s.procs[i].pc.event in s.fired && s' == Move(s, i, Start)
  }

  /** The refresh returns a bundle, or returns none or raises. */
  ghost predicate FetchOk(s: State, s': State, i: nat)
    requires i < |s.procs|
  {
    s.procs[i].At(Refreshing) && s' == Move(s, i, Holding(s.procs[i].pc.event, Storing))
  }

  ghost predicate FetchFails(s: State, s': State, i: nat)
    requires i < |s.procs|
  {
    s.procs[i].At(Refreshing) && s' == Move(s, i, Holding(s.procs[i].pc.event, Finishing))
  }

  ghost predicate Store(s: State, s': State, i: nat)
    requires i < |s.procs|
  {
    && s.procs[i].At(Storing)
    && s' == Move(s, i, Holding(s.procs[i].pc.event, Finishing)).(valid := s.valid + {s.procs[i].key})
  }

  /** The pop removes whatever event the key has, its own or not. */
  ghost predicate Pop(s: State, s': State, i: nat)
    requires i < |s.procs|
  {
    && s.procs[i].At(Finishing)
    && s' == Move(s, i, Holding(s.procs[i].pc.event, Popped)).(events := s.events - {s.procs[i].key})
  }

  ghost predicate SetEvent(s: State, s': State, i: nat)
    requires i < |s.procs|
  {
    s.procs[i].At(Popped) && s' == Move(s, i, Done).(fired := s.fired + {s.procs[i].pc.event})
  }

  ghost predicate ProcStep(s: State, s': State, i: nat) {
    && i < |s.procs|
    && (Look(s, s', i) || Wake(s, s', i) || FetchOk(s, s', i) || FetchFails(s, s', i)
        || Store(s, s', i) || Pop(s, s', i) || SetEvent(s, s', i))
  }

  // ---------------------------------------------------------------------------
  // Steps of the environment
  // ---------------------------------------------------------------------------

  /** Feedback or the scheduler invalidates bundles. */
  ghost predicate Invalidate(s: State, s': State) { s'.valid <= s.valid && s' == s.(valid := s'.valid) }

  /** The scheduled refresh stores a bundle without the guard. */
  ghost predicate StoreOutside(s: State, s': State) { s.valid <= s'.valid && s' == s.(valid := s'.valid) }

  /** A configuration reload keeps the keys of some affinities and invalidates every bundle. */
  ghost predicate Reload(s: State, s': State) {
    s'.events.Keys <= s.events.Keys && s' == s.(valid := {}, events := map k | k in s'.events :: s.events[k])
  }

  ghost predicate EnvStep(s: State, s': State) { Invalidate(s, s') || StoreOutside(s, s') || Reload(s, s') }

  ghost predicate Next(s: State, s': State) { (exists i: nat :: ProcStep(s, s', i)) || EnvStep(s, s') }

  ghost predicate IsRun(run: seq<State>) {
    && |run| > 0 && Init(run[0])
    && forall n :: 0 <= n < |run| - 1 ==> Next(run[n], run[n + 1])
  }

  // ---------------------------------------------------------------------------
  // Safety in every reachable state, reloads included
  // ---------------------------------------------------------------------------

  ghost predicate Owned(s: State, e: EventId) { exists i: nat :: i < |s.procs| && s.procs[i].Owns(e) }

  ghost predicate Inv(s: State) {
    && Made(s) && UnsetOwned(s) && OneOwner(s) && DictionaryFlying(s)
  }

  /** Every event in play has been made. */
  ghost predicate Made(s: State) {
    && (forall i :: 0 <= i < |s.procs| && s.procs[i].pc.Waiting? ==> s.procs[i].pc.event < s.made)
    && (forall i :: 0 <= i < |s.procs| && s.procs[i].pc.Holding? ==> s.procs[i].pc.event < s.made)
    && (forall e :: e in s.fired ==> e < s.made)
  }

  /** An event not yet set has an owner; an event that is set has none. */
  ghost predicate UnsetOwned(s: State) {
    && (forall e: EventId :: e < s.made && e !in s.fired ==> Owned(s, e))
    && (forall i :: 0 <= i < |s.procs| && s.procs[i].pc.Holding? ==> s.procs[i].pc.event !in s.fired)
  }

  ghost predicate OneOwner(s: State) {
    forall i, j :: 0 <= i < j < |s.procs| && s.procs[i].pc.Holding? && s.procs[j].pc.Holding? ==>
      s.procs[i].pc.event != s.procs[j].pc.event
  }

  /** The dictionary holds unset events, each under its owner's key and only until the pop. */
  ghost predicate DictionaryFlying(s: State) {
    && (forall k :: k in s.events ==> s.events[k] < s.made && s.events[k] !in s.fired)
    && (forall i, k ::
         0 <= i < |s.procs| && s.procs[i].pc.Holding? && k in s.events && s.events[k] == s.procs[i].pc.event ==>
          s.procs[i].key == k && s.procs[i].Flying())
  }

  lemma InitInv(s: State)
    requires Init(s)
    ensures Inv(s)
  {
  }

  lemma EnvKeepsInv(s: State, s': State)
    requires Inv(s) && EnvStep(s, s')
    ensures Inv(s')
  {
    forall e: EventId | e < s'.made && e !in s'.fired ensures Owned(s', e) {
      assert Owned(s, e);
    }
  }

  /** A step that keeps the owners, or retires one and sets its event. */
  lemma OwnersKept(s: State, s': State, i: nat)
    requires Inv(s) && i < |s.procs| && s'.made == s.made && |s'.procs| == |s.procs|
    requires forall j :: 0 <= j < |s.procs| && j != i ==> s'.procs[j] == s.procs[j]
    requires forall e: EventId :: s.procs[i].Owns(e) ==> s'.procs[i].Owns(e) || e in s'.fired
    requires s.fired <= s'.fired
    ensures forall e: EventId :: e < s'.made && e !in s'.fired ==> Owned(s', e)
  {
    forall e: EventId | e < s'.made && e !in s'.fired ensures Owned(s', e) {
      assert Owned(s, e);
      var j: nat :| j < |s.procs| && s.procs[j].Owns(e);
      assert s'.procs[j].Owns(e);
    }
  }

  /** The winner's event is new, unset and its own. */
  lemma WinKeepsOwned(s: State, s': State, i: nat)
    requires Inv(s) && i < |s.procs| && s.procs[i].pc.Start?
    requires s'.procs == s.procs[i := s.procs[i].(pc := Holding(s.made, Refreshing))]
    requires s'.made == s.made + 1 && s'.fired == s.fired
    ensures Made(s') && UnsetOwned(s') && OneOwner(s')
  {
    forall e: EventId | e < s'.made && e !in s'.fired ensures Owned(s', e) {
      if e < s.made {
        assert Owned(s, e);
        var j: nat :| j < |s.procs| && s.procs[j].Owns(e);
        assert s'.procs[j].Owns(e);
      } else {
        assert s'.procs[i].Owns(e);
      }
    }
  }

  lemma WinKeepsDictionary(s: State, s': State, i: nat)
    requires Made(s) && DictionaryFlying(s) && i < |s.procs| && s.procs[i].pc.Start?
    requires s'.procs == s.procs[i := s.procs[i].(pc := Holding(s.made, Refreshing))]
    requires s'.made == s.made + 1 && s'.fired == s.fired && s'.events == s.events[s.procs[i].key := s.made]
    ensures DictionaryFlying(s')
  {
  }

  lemma LookKeepsInv(s: State, s': State, i: nat)
    requires Inv(s) && i < |s.procs| && Look(s, s', i)
    ensures Inv(s')
  {
    if s.procs[i].key in s.valid || s.procs[i].key in s.events {
      OwnersKept(s, s', i);
    } else {
      WinKeepsOwned(s, s', i);
      WinKeepsDictionary(s, s', i);
    }
  }

  lemma WakeKeepsInv(s: State, s': State, i: nat)
    requires Inv(s) && i < |s.procs| && Wake(s, s', i)
    ensures Inv(s')
  {
    OwnersKept(s, s', i);
  }

  /** The owner of an event moves on and still holds it. */
  lemma HoldingKept(s: State, s': State, i: nat)
    requires Inv(s) && i < |s.procs| && |s'.procs| == |s.procs| && s.procs[i].pc.Holding?
    requires s'.procs[i].Owns(s.procs[i].pc.event)
    requires forall j :: 0 <= j < |s.procs| && j != i ==> s'.procs[j] == s.procs[j]
    requires s'.fired == s.fired && s'.made == s.made
    ensures Made(s') && UnsetOwned(s') && OneOwner(s')
  {
    OwnersKept(s, s', i);
  }

  /** The owner moves on to a stage before the pop. */
  lemma FlightKeepsInv(s: State, s': State, i: nat)
    requires Inv(s) && i < |s.procs| && s.procs[i].Flying() && |s'.procs| == |s.procs|
    requires s'.procs[i].Flying() && s'.procs[i].pc.event == s.procs[i].pc.event && s'.procs[i].key == s.procs[i].key
    requires forall j :: 0 <= j < |s.procs| && j != i ==> s'.procs[j] == s.procs[j]
    requires s'.events == s.events && s'.fired == s.fired && s'.made == s.made
    ensures Inv(s')
  {
    HoldingKept(s, s', i);
  }

  /** After the pop the owner's key is not listed, so its event is listed nowhere. */
  lemma PopKeepsDictionary(s: State, s': State, i: nat)
    requires DictionaryFlying(s) && i < |s.procs| && Pop(s, s', i)
    ensures DictionaryFlying(s')
  {
  }

  lemma PopKeepsInv(s: State, s': State, i: nat)
    requires Inv(s) && i < |s.procs| && Pop(s, s', i)
    ensures Inv(s')
  {
    HoldingKept(s, s', i);
    PopKeepsDictionary(s, s', i);
  }

  /** An event that is set was held by one coroutine, past its pop. */
  lemma SetKeepsOwners(s: State, s': State, i: nat)
    requires Inv(s) && i < |s.procs| && SetEvent(s, s', i)
    ensures Made(s') && UnsetOwned(s') && OneOwner(s')
  {
    OwnersKept(s, s', i);
  }

  lemma SetKeepsDictionary(s: State, s': State, i: nat)
    requires DictionaryFlying(s) && i < |s.procs| && SetEvent(s, s', i)
    ensures DictionaryFlying(s')
  {
  }

  lemma SetKeepsInv(s: State, s': State, i: nat)
    requires Inv(s) && i < |s.procs| && SetEvent(s, s', i)
    ensures Inv(s')
  {
    SetKeepsOwners(s, s', i);
    SetKeepsDictionary(s, s', i);
  }

  lemma StepKeepsInv(s: State, s': State, i: nat)
    requires Inv(s) && ProcStep(s, s', i)
    ensures Inv(s')
  {
    if Look(s, s', i) {
      LookKeepsInv(s, s', i);
    } else if Wake(s, s', i) {
      WakeKeepsInv(s, s', i);
    } else if Pop(s, s', i) {
      PopKeepsInv(s, s', i);
    } else if SetEvent(s, s', i) {
      SetKeepsInv(s, s', i);
    } else {
      FlightKeepsInv(s, s', i);
    }
  }

  lemma {:induction false} NextKeepsInv(s: State, s': State)
    requires Inv(s) && Next(s, s')
    ensures Inv(s')
  {
    if EnvStep(s, s') {
      EnvKeepsInv(s, s');
    } else {
      var i: nat :| ProcStep(s, s', i);
      StepKeepsInv(s, s', i);
    }
  }

  lemma RunStep(run: seq<State>, n: nat)
    requires IsRun(run) && n + 1 < |run|
    ensures Next(run[n], run[n + 1])
  {
  }

  lemma {:induction false} RunKeepsInv(run: seq<State>, n: nat)
    requires IsRun(run) && n < |run|
    ensures Inv(run[n])
  {
    if n == 0 {
      InitInv(run[0]);
    } else {
      RunKeepsInv(run, n - 1);
      RunStep(run, n - 1);
      NextKeepsInv(run[n - 1], run[n]);
    }
  }

  /** No stuck waiter: in every reachable state an unset event that a coroutine waits on has an
      owner that is still in its refresh or its finally clause. */
  lemma NoStuckWaiter(run: seq<State>, n: nat, i: nat)
    requires IsRun(run) && n < |run| && i < |run[n].procs|
    requires run[n].procs[i].pc.Waiting? && run[n].procs[i].pc.event !in run[n].fired
    ensures Owned(run[n], run[n].procs[i].pc.event)
  {
    RunKeepsInv(run, n);
  }

  // ---------------------------------------------------------------------------
  // Single flight
  // ---------------------------------------------------------------------------

  /** Whoever is in flight for a key is the one the dictionary names. */
  ghost predicate FlightListed(s: State, k: Key) {
    forall i :: 0 <= i < |s.procs| && s.procs[i].key == k && s.procs[i].Flying() ==>
      k in s.events && s.events[k] == s.procs[i].pc.event
  }

  ghost predicate Drops(s: State, s': State, k: Key) { EnvStep(s, s') && k in s.events && k !in s'.events }

  lemma EnvKeepsListed(s: State, s': State, k: Key)
    requires FlightListed(s, k) && EnvStep(s, s') && !Drops(s, s', k)
    ensures FlightListed(s', k)
  {
  }

  lemma LookKeepsListed(s: State, s': State, i: nat, k: Key)
    requires FlightListed(s, k) && i < |s.procs| && Look(s, s', i)
    ensures FlightListed(s', k)
  {
  }

  lemma OneInFlight(s: State, k: Key, i: nat, j: nat)
    requires OneOwner(s) && FlightListed(s, k)
    requires i < |s.procs| && s.procs[i].key == k && s.procs[i].Flying()
    requires j < |s.procs| && s.procs[j].key == k && s.procs[j].Flying()
    ensures i == j
  {
  }

  /** A winner that pops was the only one in flight for its key. */
  lemma PopKeepsListed(s: State, s': State, i: nat, k: Key)
    requires OneOwner(s) && FlightListed(s, k) && i < |s.procs| && Pop(s, s', i)
    ensures FlightListed(s', k)
  {
    forall j: nat | j < |s'.procs| && s'.procs[j].key == k && s'.procs[j].Flying()
      ensures k in s'.events && s'.events[k] == s'.procs[j].pc.event
    {
      if s.procs[i].key == k {
        OneInFlight(s, k, i, j);
      }
    }
  }

  /** A step that leaves the dictionary alone and puts nobody new in flight. */
  lemma QuietKeepsListed(s: State, s': State, i: nat, k: Key)
    requires FlightListed(s, k) && i < |s.procs| && |s'.procs| == |s.procs| && s'.events == s.events
    requires forall j :: 0 <= j < |s.procs| && j != i ==> s'.procs[j] == s.procs[j]
    requires s'.procs[i].Flying() ==> s.procs[i].Flying() && s'.procs[i].pc.event == s.procs[i].pc.event
    requires s'.procs[i].key == s.procs[i].key
    ensures FlightListed(s', k)
  {
  }

  lemma ProcKeepsListed(s: State, s': State, i: nat, k: Key)
    requires OneOwner(s) && FlightListed(s, k) && ProcStep(s, s', i)
    ensures FlightListed(s', k)
  {
    if Look(s, s', i) {
      LookKeepsListed(s, s', i, k);
    } else if Pop(s, s', i) {
      PopKeepsListed(s, s', i, k);
    } else {
      QuietKeepsListed(s, s', i, k);
    }
  }

  lemma StepKeepsListed(s: State, s': State, k: Key)
    requires OneOwner(s) && FlightListed(s, k) && Next(s, s') && !Drops(s, s', k)
    ensures FlightListed(s', k)
  {
    if EnvStep(s, s') {
      EnvKeepsListed(s, s', k);
    } else {
      var i: nat :| ProcStep(s, s', i);
      ProcKeepsListed(s, s', i, k);
    }
  }

  ghost predicate NeverDrops(run: seq<State>, n: nat, k: Key)
    requires n < |run|
  {
    forall m :: 0 <= m < n ==> !Drops(run[m], run[m + 1], k)
  }

  lemma {:induction false} RunKeepsListed(run: seq<State>, n: nat, k: Key)
    requires IsRun(run) && n < |run| && NeverDrops(run, n, k)
    ensures FlightListed(run[n], k)
  {
    if n > 0 {
      RunKeepsListed(run, n - 1, k);
      assert OneOwner(run[n - 1]) by {
        RunKeepsInv(run, n - 1);
      }
      assert Next(run[n - 1], run[n]) by {
        RunStep(run, n - 1);
      }
      StepKeepsListed(run[n - 1], run[n], k);
    }
  }

  /** Single flight: as long as no reload drops a key's event, at most one coroutine at a time is
      between winning that key's refresh and giving it up. */
  lemma SingleFlight(run: seq<State>, n: nat, k: Key, i: nat, j: nat)
    requires IsRun(run) && n < |run| && NeverDrops(run, n, k)
    requires i < |run[n].procs| && run[n].procs[i].key == k && run[n].procs[i].Flying()
    requires j < |run[n].procs| && run[n].procs[j].key == k && run[n].procs[j].Flying()
    ensures i == j
  {
    RunKeepsListed(run, n, k);
    RunKeepsInv(run, n);
    OneInFlight(run[n], k, i, j);
  }

  /** The proviso is needed: a reload that drops a live event lets a second refresh start. */
  lemma DroppedEventBreaksSingleFlight() returns (run: seq<State>)
    ensures IsRun(run) && |run| == 4
    ensures |run[3].procs| == 2 && run[3].procs[0].key == run[3].procs[1].key
    ensures run[3].procs[0].At(Refreshing) && run[3].procs[1].At(Refreshing)
  {
    var s0 := State([Proc(0, Start), Proc(0, Start)], {}, map[], {}, 0, map[]);
    var s1 := State([Proc(0, Holding(0, Refreshing)), Proc(0, Start)], {}, map[0 := 0], {}, 1, map[0 := 1]);
    var s2 := s1.(events := map[]);
    var s3 := State([Proc(0, Holding(0, Refreshing)), Proc(0, Holding(1, Refreshing))], {}, map[0 := 1], {}, 2,
        map[0 := 2]);
    assert Look(s0, s1, 0) && ProcStep(s0, s1, 0);
    assert Reload(s1, s2);
    assert Look(s2, s3, 1) && ProcStep(s2, s3, 1);
    run := [s0, s1, s2, s3];
  }
}
