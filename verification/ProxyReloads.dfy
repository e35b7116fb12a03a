// What a reload that drops a live event does to the single-flight guard.
module ProxyReloads {
  import opened ProxySingleFlight

  // ---------------------------------------------------------------------------
  // When a reload that drops a live event is harmless
  // ---------------------------------------------------------------------------

  ghost predicate InFlight(s: State, k: Key, i: nat) { i < |s.procs| && s.procs[i].key == k && s.procs[i].Flying() }

  ghost predicate AtMostOne(s: State, k: Key) {
    forall i: nat, j: nat :: InFlight(s, k, i) && InFlight(s, k, j) ==> i == j
  }

  /** No step from here on drops the event of k. */
  ghost predicate QuietRun(run: seq<State>, k: Key) {
    && |run| > 0
    && forall n :: 0 <= n < |run| - 1 ==> Next(run[n], run[n + 1]) && !Drops(run[n], run[n + 1], k)
  }

  /** The caller of k has not returned, has not won and does not wait on the event of k. */
  ghost predicate Loose(s: State, k: Key, i: nat)
    requires i < |s.procs| && k in s.events
  {
    s.procs[i].key == k && (s.procs[i].pc.Start? || (s.procs[i].pc.Waiting? && s.procs[i].pc.event != s.events[k]))
  }

  ghost predicate NoneLoose(s: State, k: Key)
    requires k in s.events
  {
    forall i: nat :: i < |s.procs| ==> !Loose(s, k, i)
  }

  /** Waiting for e, or past the flight. */
  predicate Behind(p: Proc, e: EventId) {
    p.pc == Waiting(e) || p.At(Popped) || p.pc.Done?
  }

  /** The owner o of a dropped event e is alone with it: every other caller of its key is behind. */
  ghost predicate Alone(s: State, k: Key, o: nat, e: EventId) {
    && o < |s.procs| && s.procs[o].key == k && s.procs[o].Owns(e)
    && forall i: nat :: i < |s.procs| && i != o && s.procs[i].key == k ==> Behind(s.procs[i], e)
  }

  /** Another coroutine's step leaves the owner alone. */
  lemma OtherKeepsAlone(s: State, s': State, i: nat, k: Key, o: nat, e: EventId)
    requires Alone(s, k, o, e) && e !in s.fired && ProcStep(s, s', i) && i != o
    ensures Alone(s', k, o, e)
  {
  }

  /** The owner is alone until it sets its event; then nobody is in flight. */
  lemma OwnerKeepsAlone(s: State, s': State, k: Key, o: nat, e: EventId)
    requires Alone(s, k, o, e) && ProcStep(s, s', o)
    ensures Alone(s', k, o, e) || FlightListed(s', k)
  {
    assert forall j: nat :: j < |s.procs| && j != o ==> s'.procs[j] == s.procs[j];
  }

  /** As long as the owner has not set e it is alone; afterwards whoever is in flight is listed. */
  ghost predicate AloneOrListed(s: State, k: Key, o: nat, e: EventId) {
    && e < s.made && o < |s.procs|
    && if s.procs[o].Owns(e) then Alone(s, k, o, e) else FlightListed(s, k)
  }

  lemma EnvKeepsAlone(s: State, s': State, k: Key, o: nat, e: EventId)
    requires AloneOrListed(s, k, o, e) && EnvStep(s, s') && !Drops(s, s', k)
    ensures AloneOrListed(s', k, o, e)
  {
    assert s'.procs == s.procs;
    if !s.procs[o].Owns(e) {
      EnvKeepsListed(s, s', k);
    }
  }

  /** Nobody wins an event that was made before. */
  lemma NotOwnedAgain(s: State, s': State, i: nat, o: nat, e: EventId)
    requires ProcStep(s, s', i) && e < s.made && o < |s.procs| && !s.procs[o].Owns(e)
    ensures e < s'.made && o < |s'.procs| && !s'.procs[o].Owns(e)
  {
  }

  lemma OwnerMoves(s: State, s': State, i: nat, k: Key, o: nat, e: EventId)
    requires Alone(s, k, o, e) && e < s.made && e !in s.fired && ProcStep(s, s', i)
    ensures AloneOrListed(s', k, o, e)
  {
    if i == o {
      OwnerKeepsAlone(s, s', k, o, e);
    } else {
      OtherKeepsAlone(s, s', i, k, o, e);
    }
  }

  lemma {:induction false} AloneOrListedStep(s: State, s': State, k: Key, o: nat, e: EventId)
    requires Inv(s) && AloneOrListed(s, k, o, e) && Next(s, s') && !Drops(s, s', k)
    ensures AloneOrListed(s', k, o, e)
  {
    if EnvStep(s, s') {
      EnvKeepsAlone(s, s', k, o, e);
    } else {
      var i: nat :| ProcStep(s, s', i);
      if s.procs[o].Owns(e) {
        OwnerMoves(s, s', i, k, o, e);
      } else {
        NotOwnedAgain(s, s', i, o, e);
        ProcKeepsListed(s, s', i, k);
      }
    }
  }

  lemma AloneOrListedIsOne(s: State, k: Key, o: nat, e: EventId)
    requires Inv(s) && AloneOrListed(s, k, o, e)
    ensures AtMostOne(s, k)
  {
    forall i: nat, j: nat | InFlight(s, k, i) && InFlight(s, k, j) ensures i == j {
      if !s.procs[o].Owns(e) {
        OneInFlight(s, k, i, j);
      }
    }
  }

  lemma QuietStep(run: seq<State>, k: Key, n: nat)
    requires QuietRun(run, k) && n + 1 < |run|
    ensures Next(run[n], run[n + 1]) && !Drops(run[n], run[n + 1], k)
  {
  }

  lemma {:induction false} QuietRunKeepsInv(run: seq<State>, k: Key, n: nat)
    requires QuietRun(run, k) && n < |run| && Inv(run[0])
    ensures Inv(run[n])
  {
    if n > 0 {
      QuietRunKeepsInv(run, k, n - 1);
      QuietStep(run, k, n - 1);
      NextKeepsInv(run[n - 1], run[n]);
    }
  }

  lemma {:induction false} QuietRunIsOne(run: seq<State>, k: Key, o: nat, e: EventId, n: nat)
    requires QuietRun(run, k) && n < |run| && Inv(run[0]) && AloneOrListed(run[0], k, o, e)
    ensures AloneOrListed(run[n], k, o, e)
  {
    if n > 0 {
      QuietRunIsOne(run, k, o, e, n - 1);
      QuietRunKeepsInv(run, k, n - 1);
      QuietStep(run, k, n - 1);
      AloneOrListedStep(run[n - 1], run[n], k, o, e);
    }
  }

  /** The owner of the listed event is in flight for its key. */
  lemma OwnerOf(s: State, k: Key) returns (o: nat)
    requires Inv(s) && k in s.events
    ensures o < |s.procs| && s.procs[o].key == k && s.procs[o].Owns(s.events[k]) && s.procs[o].Flying()
  {
    assert Owned(s, s.events[k]);
    o :| o < |s.procs| && s.procs[o].Owns(s.events[k]);
  }

  lemma HarmlessDrop(s: State, s': State, k: Key) returns (o: nat)
    requires Inv(s) && FlightListed(s, k) && Reload(s, s') && k in s.events && NoneLoose(s, k)
    ensures Alone(s', k, o, s.events[k])
  {
    o := OwnerOf(s, k);
    forall i: nat | i < |s.procs| && i != o && s.procs[i].key == k && s.procs[i].Flying() ensures false {
      OneInFlight(s, k, i, o);
    }
    forall i: nat | i < |s.procs| && i != o && s.procs[i].key == k ensures !Loose(s, k, i) {
    }
  }

  // ---------------------------------------------------------------------------
  // The run that breaks single flight otherwise
  // ---------------------------------------------------------------------------

  /** The owner o is in flight for k, k is neither valid nor listed, and i is as before. */
  ghost predicate Open(s: State, k: Key, o: nat, i: nat, pc: Pc) {
    && o < |s.procs| && i < |s.procs| && i != o
    && s.procs[o].key == k && s.procs[o].Flying() && s.procs[i] == Proc(k, pc)
    && k !in s.valid && k !in s.events
  }

  ghost predicate CoroutineStep(s: State, s': State) { !EnvStep(s, s') && exists j: nat :: ProcStep(s, s', j) }

  /** A run of coroutine steps only. */
  ghost predicate Driven(run: seq<State>) {
    |run| > 0 && forall n :: 0 <= n < |run| - 1 ==> CoroutineStep(run[n], run[n + 1])
  }

  lemma DrivenOneMore(run: seq<State>, s': State, j: nat)
    requires Driven(run) && ProcStep(run[|run| - 1], s', j)
    ensures Driven(run + [s'])
  {
    var s := run[|run| - 1];
    assert s'.procs[j].pc != s.procs[j].pc;
    assert CoroutineStep(s, s');
  }

  lemma DrivenIsQuiet(run: seq<State>, k: Key)
    requires Driven(run)
    ensures QuietRun(run, k)
  {
    forall n | 0 <= n < |run| - 1 ensures Next(run[n], run[n + 1]) && !Drops(run[n], run[n + 1], k) {
      assert CoroutineStep(run[n], run[n + 1]);
    }
  }

  function StagesLeft(stage: Stage): nat {
    match stage case Refreshing => 3 case Storing => 2 case Finishing => 1 case Popped => 0
  }

  /** The next state of a coroutine on its way from winning an event to setting it. */
  function Onward(s: State, j: nat): State
    requires j < |s.procs| && s.procs[j].pc.Holding?
  {
    var e, key := s.procs[j].pc.event, s.procs[j].key;
    match s.procs[j].pc.stage
    case Refreshing => Move(s, j, Holding(e, Finishing))
    case Storing => Move(s, j, Holding(e, Finishing)).(valid := s.valid + {key})
    case Finishing => Move(s, j, Holding(e, Popped)).(events := s.events - {key})
    case Popped => Move(s, j, Done).(fired := s.fired + {e})
  }

  lemma OnwardStep(s: State, j: nat, k: Key, o: nat, i: nat, pc: Pc)
    requires Open(s, k, o, i, pc) && j < |s.procs| && s.procs[j].pc.Holding? && j != o && j != i
    requires s.procs[j].key == k ==> s.procs[j].pc.stage.Popped?
    ensures ProcStep(s, Onward(s, j), j) && Open(Onward(s, j), k, o, i, pc)
  {
  }

  /** The owner of another event can set it while o stays in flight. */
  lemma {:induction false} FireOther(run: seq<State>, j: nat, k: Key, o: nat, i: nat, e: EventId)
      returns (longer: seq<State>)
    requires Driven(run) && Open(run[|run| - 1], k, o, i, Waiting(e))
    requires j < |run[|run| - 1].procs| && run[|run| - 1].procs[j].Owns(e) && j != o
    requires run[|run| - 1].procs[j].key == k ==> run[|run| - 1].procs[j].pc.stage.Popped?
    ensures Driven(longer) && longer[0] == run[0]
    ensures Open(longer[|longer| - 1], k, o, i, Waiting(e)) && e in longer[|longer| - 1].fired
    decreases StagesLeft(run[|run| - 1].procs[j].pc.stage)
  {
    var s := run[|run| - 1];
    OnwardStep(s, j, k, o, i, Waiting(e));
    DrivenOneMore(run, Onward(s, j), j);
    longer := run + [Onward(s, j)];
    if !s.procs[j].pc.stage.Popped? {
      longer := FireOther(longer, j, k, o, i, e);
    }
  }

  /** From the start a caller of an open key wins a second flight. */
  lemma SecondFlight(run: seq<State>, k: Key, o: nat, i: nat) returns (longer: seq<State>)
    requires Driven(run) && Open(run[|run| - 1], k, o, i, Start)
    ensures Driven(longer) && longer[0] == run[0] && !AtMostOne(longer[|longer| - 1], k)
  {
    var s := run[|run| - 1];
    var s' := Move(s, i, Holding(s.made, Refreshing)).(events := s.events[k := s.made], made := s.made + 1,
                                                       refreshes := s.refreshes[k := Count(s, k) + 1]);
    assert Look(s, s', i) && ProcStep(s, s', i);
    DrivenOneMore(run, s', i);
    longer := run + [s'];
    assert InFlight(s', k, o) && InFlight(s', k, i);
  }

  lemma WakeUp(run: seq<State>, k: Key, o: nat, i: nat, e: EventId) returns (longer: seq<State>)
    requires Driven(run) && Open(run[|run| - 1], k, o, i, Waiting(e)) && e in run[|run| - 1].fired
    ensures Driven(longer) && longer[0] == run[0] && Open(longer[|longer| - 1], k, o, i, Start)
  {
    var s := run[|run| - 1];
    var s' := Move(s, i, Start);
    assert Wake(s, s', i) && ProcStep(s, s', i);
    DrivenOneMore(run, s', i);
    longer := run + [s'];
  }

  lemma HarmfulDrop(s: State, s': State, k: Key, i: nat) returns (run: seq<State>)
    requires Inv(s) && FlightListed(s, k) && Reload(s, s') && k in s.events && k !in s'.events
    requires i < |s.procs| && Loose(s, k, i)
    ensures Driven(run) && run[0] == s' && !AtMostOne(run[|run| - 1], k)
  {
    var o := OwnerOf(s, k);
    run := [s'];
    if s.procs[i].pc.Waiting? {
      var e := s.procs[i].pc.event;
      if e !in s.fired {
        assert Owned(s, e);
        var j: nat :| j < |s.procs| && s.procs[j].Owns(e);
        if s.procs[j].key == k && s.procs[j].Flying() {
          OneInFlight(s, k, j, o);
        }
        run := FireOther(run, j, k, o, i, e);
      }
      run := WakeUp(run, k, o, i, e);
    }
    run := SecondFlight(run, k, o, i);
  }

  /** However a run goes on from s without dropping the event of k again, single flight holds. */
  ghost predicate SafeFrom(s: State, k: Key) {
    forall run, n: nat :: QuietRun(run, k) && run[0] == s && n < |run| ==> AtMostOne(run[n], k)
  }

  /** The exact condition: a reload that drops the live event of k leaves single flight intact if
      and only if at that moment no caller of k is about to look or waits on another event. */
  lemma DropExact(s: State, s': State, k: Key)
    requires Inv(s) && FlightListed(s, k) && Reload(s, s') && k in s.events && k !in s'.events
    ensures SafeFrom(s', k) <==> NoneLoose(s, k)
  {
    EnvKeepsInv(s, s');
    if NoneLoose(s, k) {
      var o := HarmlessDrop(s, s', k);
      forall run, n: nat | QuietRun(run, k) && run[0] == s' && n < |run| ensures AtMostOne(run[n], k) {
        QuietRunIsOne(run, k, o, s.events[k], n);
        QuietRunKeepsInv(run, k, n);
        AloneOrListedIsOne(run[n], k, o, s.events[k]);
      }
    } else {
      var i: nat :| i < |s.procs| && Loose(s, k, i);
      var run := HarmfulDrop(s, s', k, i);
      DrivenIsQuiet(run, k);
      var n: nat := |run| - 1;
      assert !AtMostOne(run[n], k);
    }
  }

  /** The same for every state that a run reaches before the first such reload. */
  lemma FirstDropExact(run: seq<State>, n: nat, s': State, k: Key)
    requires IsRun(run) && n < |run| && NeverDrops(run, n, k)
    requires Reload(run[n], s') && k in run[n].events && k !in s'.events
    ensures SafeFrom(s', k) <==> NoneLoose(run[n], k)
  {
    RunKeepsInv(run, n);
    RunKeepsListed(run, n, k);
    DropExact(run[n], s', k);
  }
}
