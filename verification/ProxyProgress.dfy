// How many refreshes the callers of the single-flight guard cause, and that they all return.
module ProxyProgress {
  import opened ProxySingleFlight

  // ---------------------------------------------------------------------------
  // How many refreshes
  // ---------------------------------------------------------------------------

  predicate Undecided(p: Proc) { p.pc.Start? || p.pc.Waiting? }

  function CountUndecided(procs: seq<Proc>, k: Key): nat {
    if procs == [] then 0
    else CountUndecided(procs[1..], k) + (if procs[0].key == k && Undecided(procs[0]) then 1 else 0)
  }

  function Callers(procs: seq<Proc>, k: Key): nat {
    if procs == [] then 0 else Callers(procs[1..], k) + (if procs[0].key == k then 1 else 0)
  }

  lemma {:induction false} MoveCounts(procs: seq<Proc>, i: nat, p: Proc, k: Key)
    requires i < |procs| && p.key == procs[i].key
    ensures Callers(procs[i := p], k) == Callers(procs, k)
    ensures CountUndecided(procs[i := p], k) == CountUndecided(procs, k)
              - (if procs[i].key == k && Undecided(procs[i]) then 1 else 0)
              + (if p.key == k && Undecided(p) then 1 else 0)
  {
    if i == 0 {
      assert procs[i := p][1..] == procs[1..];
    } else {
      assert procs[i := p][1..] == procs[1..][i - 1 := p];
      MoveCounts(procs[1..], i - 1, p, k);
    }
  }

  /** Every refresh retires its caller. */
  ghost predicate RefreshesBounded(s: State, k: Key) {
    Count(s, k) + CountUndecided(s.procs, k) <= Callers(s.procs, k)
  }

  lemma {:induction false} AllUndecided(procs: seq<Proc>, k: Key)
    requires forall i :: 0 <= i < |procs| ==> procs[i].pc == Start
    ensures CountUndecided(procs, k) == Callers(procs, k)
  {
    if procs != [] {
      AllUndecided(procs[1..], k);
    }
  }

  /** What a coroutine's step does to its own entry and to the number of refreshes. */
  lemma StepRetires(s: State, s': State, i: nat, k: Key)
    requires ProcStep(s, s', i)
    ensures |s'.procs| == |s.procs| && s'.procs == s.procs[i := s'.procs[i]] && s'.procs[i].key == s.procs[i].key
    ensures Undecided(s'.procs[i]) ==> Undecided(s.procs[i]) && Count(s', k) == Count(s, k)
    ensures Count(s', k) <= Count(s, k)
              + (if s.procs[i].key == k && Undecided(s.procs[i]) && !Undecided(s'.procs[i]) then 1 else 0)
  {
  }

  lemma ProcKeepsBound(s: State, s': State, i: nat, k: Key)
    requires RefreshesBounded(s, k) && ProcStep(s, s', i)
    ensures RefreshesBounded(s', k) && Callers(s'.procs, k) == Callers(s.procs, k)
  {
    StepRetires(s, s', i, k);
    MoveCounts(s.procs, i, s'.procs[i], k);
  }

  lemma StepKeepsBound(s: State, s': State, k: Key)
    requires RefreshesBounded(s, k) && Next(s, s')
    ensures RefreshesBounded(s', k) && Callers(s'.procs, k) == Callers(s.procs, k)
  {
    if !EnvStep(s, s') {
      var i: nat :| ProcStep(s, s', i);
      ProcKeepsBound(s, s', i, k);
    }
  }

  /** At most one refresh per caller, in every run, whatever fails, is invalidated or reloaded. */
  lemma {:induction false} AtMostOneRefreshEach(run: seq<State>, n: nat, k: Key)
    requires IsRun(run) && n < |run|
    ensures RefreshesBounded(run[n], k) && Callers(run[n].procs, k) == Callers(run[0].procs, k)
    ensures Count(run[n], k) <= Callers(run[0].procs, k)
  {
    if n == 0 {
      AllUndecided(run[0].procs, k);
    } else {
      AtMostOneRefreshEach(run, n - 1, k);
      RunStep(run, n - 1);
      StepKeepsBound(run[n - 1], run[n], k);
    }
  }

  /** Nothing goes wrong in a step: no refresh fails and the environment stays away. */
  ghost predicate Calm(s: State, s': State) { exists i: nat :: ProcStep(s, s', i) && !FetchFails(s, s', i) }

  ghost predicate BringsBundle(p: Proc, k: Key) { p.key == k && (p.At(Refreshing) || p.At(Storing)) }

  /** Before the only refresh, or after it started: then the bundle is there or on its way. */
  ghost predicate OnceOnly(s: State, k: Key) {
    if Count(s, k) == 0 then
      k !in s.valid && k !in s.events
      && forall i :: 0 <= i < |s.procs| && s.procs[i].key == k ==> Undecided(s.procs[i])
    else
      Count(s, k) == 1 && (k in s.valid || exists i :: 0 <= i < |s.procs| && BringsBundle(s.procs[i], k))
  }

  lemma LookKeepsOnce(s: State, s': State, i: nat, k: Key)
    requires FlightListed(s, k) && OnceOnly(s, k) && i < |s.procs| && Look(s, s', i)
    ensures OnceOnly(s', k)
  {
    if Count(s, k) == 1 && k !in s.valid {
      var j :| 0 <= j < |s.procs| && BringsBundle(s.procs[j], k);
      assert k in s.events;
      assert BringsBundle(s'.procs[j], k);
    } else if Count(s, k) == 0 && s.procs[i].key == k {
      assert BringsBundle(s'.procs[i], k);
    }
  }

  /** The steps after the look that lose no bundle. */
  lemma RestKeepsOnce(s: State, s': State, i: nat, k: Key)
    requires OnceOnly(s, k) && i < |s.procs| && |s'.procs| == |s.procs| && s.valid <= s'.valid
    requires forall j :: 0 <= j < |s.procs| && j != i ==> s'.procs[j] == s.procs[j]
    requires s'.procs[i].key == s.procs[i].key && Count(s', k) == Count(s, k)
    requires BringsBundle(s.procs[i], k) ==> BringsBundle(s'.procs[i], k) || k in s'.valid
    requires Undecided(s.procs[i]) ==> Undecided(s'.procs[i])
    requires k in s'.events ==> k in s.events
    requires k in s'.valid ==> k in s.valid || (s.procs[i].key == k && !Undecided(s.procs[i]))
    ensures OnceOnly(s', k)
  {
    if Count(s, k) == 1 && k !in s.valid {
      var j :| 0 <= j < |s.procs| && BringsBundle(s.procs[j], k);
      assert BringsBundle(s'.procs[j], k) || k in s'.valid;
    }
  }

  lemma ProcKeepsOnce(s: State, s': State, i: nat, k: Key)
    requires FlightListed(s, k) && OnceOnly(s, k) && ProcStep(s, s', i) && !FetchFails(s, s', i)
    ensures OnceOnly(s', k)
  {
    if Look(s, s', i) {
      LookKeepsOnce(s, s', i, k);
    } else {
      RestKeepsOnce(s, s', i, k);
    }
  }

  lemma CalmKeepsOnce(s: State, s': State, k: Key)
    requires FlightListed(s, k) && OnceOnly(s, k) && Calm(s, s')
    ensures OnceOnly(s', k)
  {
    var i: nat :| ProcStep(s, s', i) && !FetchFails(s, s', i);
    ProcKeepsOnce(s, s', i, k);
  }

  /** Exactly one: when refreshes succeed and nothing is invalidated, the callers of a key whose
      bundle is not valid at the start cause one refresh between them. */
  lemma {:induction false} ExactlyOneRefresh(run: seq<State>, n: nat, k: Key)
    requires IsRun(run) && n < |run| && k !in run[0].valid
    requires forall m :: 0 <= m < n ==> Calm(run[m], run[m + 1])
    ensures OnceOnly(run[n], k) && FlightListed(run[n], k)
    ensures (exists i :: 0 <= i < |run[n].procs| && run[n].procs[i].key == k && run[n].procs[i].pc.Done?) ==>
              Count(run[n], k) == 1
  {
    if n > 0 {
      ExactlyOneRefresh(run, n - 1, k);
      RunKeepsInv(run, n - 1);
      CalmIsNoDrop(run[n - 1], run[n], k);
      StepKeepsListed(run[n - 1], run[n], k);
      CalmKeepsOnce(run[n - 1], run[n], k);
    }
  }

  lemma CalmIsNoDrop(s: State, s': State, k: Key)
    requires Calm(s, s')
    ensures Next(s, s') && !Drops(s, s', k)
  {
    var i: nat :| ProcStep(s, s', i) && !FetchFails(s, s', i);
    assert s'.procs[i] != s.procs[i];
  }

  // ---------------------------------------------------------------------------
  // What a returned caller has seen
  // ---------------------------------------------------------------------------

  /** Caller i looks and its bundle is valid, or caller i is refreshing. */
  ghost predicate SeesOrMakes(s: State, i: nat) {
    && i < |s.procs|
    && ((s.procs[i].pc.Start? && s.procs[i].key in s.valid) || s.procs[i].At(Refreshing))
  }

  ghost predicate SawOrMade(run: seq<State>, n: nat, i: nat)
    requires n < |run|
  {
    exists m :: 0 <= m <= n && SeesOrMakes(run[m], i)
  }

  lemma OthersStay(s: State, s': State, j: nat)
    requires ProcStep(s, s', j)
    ensures |s'.procs| == |s.procs| && s'.procs[j].key == s.procs[j].key && s.valid <= s'.valid
    ensures forall i :: 0 <= i < |s.procs| && i != j ==> s'.procs[i] == s.procs[i]
  {
  }

  lemma OwnReason(s: State, s': State, i: nat)
    requires ProcStep(s, s', i) && (s'.procs[i].pc.Done? || s'.procs[i].pc.Holding?)
    ensures SeesOrMakes(s, i) || SeesOrMakes(s', i) || s.procs[i].pc.Holding?
  {
  }

  /** A caller returns or holds an event only after it saw a valid bundle or started a refresh. */
  lemma StepNeedsReason(s: State, s': State, i: nat)
    requires Next(s, s') && i < |s'.procs| && (s'.procs[i].pc.Done? || s'.procs[i].pc.Holding?)
    ensures SeesOrMakes(s, i) || SeesOrMakes(s', i)
            || (i < |s.procs| && (s.procs[i].pc.Done? || s.procs[i].pc.Holding?))
  {
    if !EnvStep(s, s') {
      var j: nat :| ProcStep(s, s', j);
      OthersStay(s, s', j);
      if i == j {
        OwnReason(s, s', i);
      }
    }
  }

  /** No caller comes back empty-handed without having tried: in every run, reloads included, a
      caller that has returned saw a valid bundle of its key or ran a refresh of its own. */
  lemma {:induction false} ReturnedForAReason(run: seq<State>, n: nat, i: nat)
    requires IsRun(run) && n < |run| && i < |run[n].procs|
    requires run[n].procs[i].pc.Done? || run[n].procs[i].pc.Holding?
    ensures SawOrMade(run, n, i)
  {
    if n > 0 {
      RunStep(run, n - 1);
      StepNeedsReason(run[n - 1], run[n], i);
      if !SeesOrMakes(run[n - 1], i) && !SeesOrMakes(run[n], i) {
        ReturnedForAReason(run, n - 1, i);
        var m :| 0 <= m <= n - 1 && SeesOrMakes(run[m], i);
      }
    }
  }

  /** The bundle is stored before its event is popped. */
  ghost predicate StoredFirst(s: State) {
    forall i :: 0 <= i < |s.procs| && (s.procs[i].At(Finishing) || s.procs[i].At(Popped) || s.procs[i].pc.Done?) ==>
      s.procs[i].key in s.valid
  }

  lemma OwnStored(s: State, s': State, i: nat)
    requires StoredFirst(s) && ProcStep(s, s', i) && !FetchFails(s, s', i)
    ensures s'.procs[i].At(Finishing) || s'.procs[i].At(Popped) || s'.procs[i].pc.Done? ==>
              s'.procs[i].key in s'.valid
  {
  }

  lemma CalmKeepsStored(s: State, s': State)
    requires StoredFirst(s) && Calm(s, s')
    ensures StoredFirst(s')
  {
    var i: nat :| ProcStep(s, s', i) && !FetchFails(s, s', i);
    OthersStay(s, s', i);
    OwnStored(s, s', i);
  }

  /** When refreshes succeed and nothing is invalidated, every caller that has returned has a valid bundle. */
  lemma {:induction false} ReturnedWithBundle(run: seq<State>, n: nat, i: nat)
    requires IsRun(run) && n < |run| && forall m :: 0 <= m < n ==> Calm(run[m], run[m + 1])
    ensures StoredFirst(run[n])
    ensures i < |run[n].procs| && run[n].procs[i].pc.Done? ==> run[n].procs[i].key in run[n].valid
  {
    if n > 0 {
      ReturnedWithBundle(run, n - 1, i);
      CalmKeepsStored(run[n - 1], run[n]);
    }
  }

  // ---------------------------------------------------------------------------
  // Progress
  // ---------------------------------------------------------------------------

  /** Until every caller has returned, some coroutine can take a step. */
  lemma NoDeadlock(run: seq<State>, n: nat)
    requires IsRun(run) && n < |run|
    requires exists i :: 0 <= i < |run[n].procs| && !run[n].procs[i].pc.Done?
    ensures exists i: nat, s' :: ProcStep(run[n], s', i)
  {
    RunKeepsInv(run, n);
    var s := run[n];
    var i :| 0 <= i < |s.procs| && !s.procs[i].pc.Done?;
    if s.procs[i].pc.Waiting? && s.procs[i].pc.event !in s.fired {
      assert Owned(s, s.procs[i].pc.event);
      var j: nat :| j < |s.procs| && s.procs[j].Owns(s.procs[i].pc.event);
      CanMove(s, j);
    } else {
      CanMove(s, i);
    }
  }

  lemma CanMove(s: State, i: nat)
    requires i < |s.procs| && !s.procs[i].pc.Done?
    requires s.procs[i].pc.Waiting? ==> s.procs[i].pc.event in s.fired
    ensures exists s' :: ProcStep(s, s', i)
  {
    var k := s.procs[i].key;
    var s' :=
      match s.procs[i].pc
      case Start =>
        if k in s.valid then Move(s, i, Done)
        else if k in s.events then Move(s, i, Waiting(s.events[k]))
        else Move(s, i, Holding(s.made, Refreshing)).(events := s.events[k := s.made], made := s.made + 1,
                                                      refreshes := s.refreshes[k := Count(s, k) + 1])
      case Waiting(_) => Move(s, i, Start)
      case Holding(e, Refreshing) => Move(s, i, Holding(e, Storing))
      case Holding(e, Storing) => Move(s, i, Holding(e, Finishing)).(valid := s.valid + {k})
      case Holding(e, Finishing) => Move(s, i, Holding(e, Popped)).(events := s.events - {k})
      case Holding(e, Popped) => Move(s, i, Done).(fired := s.fired + {e})
      case Done => s;
    assert ProcStep(s, s', i);
  }

  /** What is left of a coroutine's way, when setting an event may send others round again. */
  function Rank(p: Proc, fired: set<EventId>, w: nat): nat {
    match p.pc
    case Start => 4 * w + 3
    case Waiting(e) => 4 * w + (if e in fired then 4 else 2)
    case Holding(_, Refreshing) => 4 * w
    case Holding(_, Storing) => 3 * w
    case Holding(_, Finishing) => 2 * w
    case Holding(_, Popped) => w
    case Done => 0
  }

  function Work(procs: seq<Proc>, fired: set<EventId>, w: nat): nat {
    if procs == [] then 0 else Rank(procs[0], fired, w) + Work(procs[1..], fired, w)
  }

  lemma {:induction false} MoveWork(procs: seq<Proc>, i: nat, p: Proc, fired: set<EventId>, w: nat)
    requires i < |procs|
    ensures Work(procs[i := p], fired, w) + Rank(procs[i], fired, w) == Work(procs, fired, w) + Rank(p, fired, w)
  {
    if i == 0 {
      assert procs[i := p][1..] == procs[1..];
    } else {
      assert procs[i := p][1..] == procs[1..][i - 1 := p];
      MoveWork(procs[1..], i - 1, p, fired, w);
    }
  }

  /** Setting an event costs at most one more round for each coroutine. */
  lemma {:induction false} FiringWork(procs: seq<Proc>, fired: set<EventId>, e: EventId, w: nat)
    ensures Work(procs, fired + {e}, w) <= Work(procs, fired, w) + 2 * |procs|
  {
    if procs != [] {
      FiringWork(procs[1..], fired, e, w);
    }
  }

  lemma {:induction false} StartWork(procs: seq<Proc>, fired: set<EventId>, w: nat)
    requires forall i :: 0 <= i < |procs| ==> procs[i].pc == Start
    ensures Work(procs, fired, w) == |procs| * (4 * w + 3)
  {
    if procs != [] {
      StartWork(procs[1..], fired, w);
      assert |procs| * (4 * w + 3) == (|procs| - 1) * (4 * w + 3) + (4 * w + 3);
    }
  }

  function Left(s: State): nat { Work(s.procs, s.fired, 2 * |s.procs| + 1) }

  /** Every step of a coroutine other than setting its event brings that coroutine nearer its end. */
  lemma StepRanks(s: State, s': State, i: nat, w: nat)
    requires DictionaryFlying(s) && ProcStep(s, s', i) && w > 0
    ensures s'.procs == s.procs[i := s'.procs[i]] && s'.procs != s.procs
    ensures SetEvent(s, s', i) ==>
              s'.procs[i].pc.Done? && Rank(s.procs[i], s.fired, w) == w && s'.fired == s.fired + {s.procs[i].pc.event}
    ensures !SetEvent(s, s', i) ==> s'.fired == s.fired && Rank(s'.procs[i], s.fired, w) < Rank(s.procs[i], s.fired, w)
  {
    assert s'.procs[i].pc != s.procs[i].pc;
  }

  lemma StepWorks(s: State, s': State, i: nat)
    requires DictionaryFlying(s) && ProcStep(s, s', i)
    ensures |s'.procs| == |s.procs| && s'.procs != s.procs && Left(s') < Left(s)
  {
    var w := 2 * |s.procs| + 1;
    StepRanks(s, s', i, w);
    MoveWork(s.procs, i, s'.procs[i], s.fired, w);
    if SetEvent(s, s', i) {
      FiringWork(s'.procs, s.fired, s.procs[i].pc.event, w);
    }
  }

  /** The coroutines' steps among the first n of a run. */
  function Moves(run: seq<State>, n: nat): nat
    requires n < |run|
  {
    if n == 0 then 0 else Moves(run, n - 1) + (if run[n].procs != run[n - 1].procs then 1 else 0)
  }

  /** No livelock: in every run, whatever the environment does in between, the N callers take at
      most N * (8 * N + 7) steps altogether. */
  lemma {:induction false} RunsAreShort(run: seq<State>, n: nat)
    requires IsRun(run) && n < |run|
    ensures |run[n].procs| == |run[0].procs|
    ensures Moves(run, n) + Left(run[n]) <= |run[0].procs| * (8 * |run[0].procs| + 7)
  {
    if n == 0 {
      StartWork(run[0].procs, run[0].fired, 2 * |run[0].procs| + 1);
    } else {
      RunsAreShort(run, n - 1);
      RunKeepsInv(run, n - 1);
      RunStep(run, n - 1);
      NextWorks(run[n - 1], run[n]);
    }
  }

  /** A step of the environment leaves the work, and a step of a coroutine reduces it. */
  lemma NextWorks(s: State, s': State)
    requires Inv(s) && Next(s, s')
    ensures |s'.procs| == |s.procs| && Left(s') + (if s'.procs != s.procs then 1 else 0) <= Left(s)
  {
    if !EnvStep(s, s') {
      var i: nat :| ProcStep(s, s', i);
      StepWorks(s, s', i);
    }
  }
}
