// The local media cache of one media type: files on a disk, an index of them, and eviction from the
// high watermark down to the low one.
module MediaCache {
  import opened AccountModels
  import opened Sequences

  type Name = string

  datatype Row = Row(size: nat, created: int, updated: int)

  datatype File = File(size: nat, modified: int)

  type Index = map<Name, Row>
  type Disk = map<Name, File>

  // ---------------------------------------------------------------------------
  // The order of eviction
  // ---------------------------------------------------------------------------

  predicate Less(a: Name, b: Name) {
    if a == "" || b == "" then a == "" && b != ""
    else if a[0] != b[0] then a[0] < b[0]
    else Less(a[1..], b[1..])
  }

  /** The order of names: the first difference decides, and a name comes before its continuations. */
  lemma {:induction false} LessExact(a: Name, b: Name)
    ensures Less(a, b) <==> exists k :: DiffersAt(a, b, k) && (k == |a| || (k < |b| && a[k] < b[k]))
  {
    if a == "" || b == "" {
      if b != "" {
        assert DiffersAt(a, b, 0);
      }
    } else if a[0] != b[0] {
      if a[0] < b[0] {
        assert DiffersAt(a, b, 0);
      }
    } else {
      LessExact(a[1..], b[1..]);
      if k: nat :| DiffersAt(a[1..], b[1..], k) && (k == |a| - 1 || (k < |b| - 1 && a[1..][k] < b[1..][k])) {
        assert forall i :: 0 < i <= k ==> a[i] == a[1..][i - 1] && b[i] == b[1..][i - 1];
        assert DiffersAt(a, b, k + 1);
      }
      if k: nat :| DiffersAt(a, b, k) && (k == |a| || (k < |b| && a[k] < b[k])) {
        assert k > 0;
        assert DiffersAt(a[1..], b[1..], k - 1);
      }
    }
  }

  /** The names agree up to place k, and there one of them ends or they differ. */
  ghost predicate DiffersAt(a: Name, b: Name, k: int) {
    && 0 <= k <= |a| && k <= |b| && (forall i :: 0 <= i < k ==> a[i] == b[i])
    && (k < |a| || k < |b|) && (k < |a| && k < |b| ==> a[k] != b[k])
  }

  lemma {:induction false} LessIsTotal(a: Name, b: Name)
    ensures a != b ==> Less(a, b) || Less(b, a)
    ensures !(Less(a, b) && Less(b, a))
  {
    if a != "" && b != "" && a[0] == b[0] {
      LessIsTotal(a[1..], b[1..]);
      assert a == [a[0]] + a[1..] && b == [b[0]] + b[1..];
    }
  }

  lemma {:induction false} LessIsTransitive(a: Name, b: Name, c: Name)
    requires Less(a, b) && Less(b, c)
    ensures Less(a, c)
  {
    if a != "" && c != "" && a[0] == b[0] == c[0] {
      LessIsTransitive(a[1..], b[1..], c[1..]);
    }
  }

  /** Older, or as old and of a smaller name. */
  predicate Before(ix: Index, a: Name, b: Name)
    requires a in ix && b in ix
  {
    ix[a].created < ix[b].created || (ix[a].created == ix[b].created && Less(a, b))
  }

  lemma BeforeIsTotal(ix: Index, a: Name, b: Name)
    requires a in ix && b in ix
    ensures a != b ==> Before(ix, a, b) || Before(ix, b, a)
    ensures !(Before(ix, a, b) && Before(ix, b, a))
  {
    LessIsTotal(a, b);
  }

  lemma BeforeIsTransitive(ix: Index, a: Name, b: Name, c: Name)
    requires a in ix && b in ix && c in ix && Before(ix, a, b) && Before(ix, b, c)
    ensures Before(ix, a, c)
  {
    if ix[a].created == ix[b].created == ix[c].created {
      LessIsTransitive(a, b, c);
    }
  }

  /** The rows in the order of eviction. */
  ghost predicate IsListing(rows: seq<Name>, ix: Index) {
    && (forall n :: n in rows <==> n in ix)
    && (forall i, j :: 0 <= i < j < |rows| ==> rows[i] in ix && rows[j] in ix && Before(ix, rows[i], rows[j]))
  }

  lemma ListingHasNoRepeats(rows: seq<Name>, ix: Index, i: nat, j: nat)
    requires IsListing(rows, ix) && i < j < |rows|
    ensures rows[i] != rows[j]
  {
    BeforeIsTotal(ix, rows[i], rows[j]);
  }

  /** The first of some rows in the order of eviction. */
  method First(ix: Index, todo: set<Name>) returns (n: Name)
    requires todo != {} && todo <= ix.Keys
    ensures n in todo && forall m :: m in todo && m != n ==> Before(ix, n, m)
  {
    n :| n in todo;
    var rest := todo - {n};
    while rest != {}
      invariant rest <= todo && n in todo && n !in rest
      invariant forall m :: m in todo - rest && m != n ==> Before(ix, n, m)
      decreases rest
    {
      var m :| m in rest;
      BeforeIsTotal(ix, n, m);
      if Before(ix, m, n) {
        forall k | k in todo - rest && k != n ensures Before(ix, m, k) {
          BeforeIsTransitive(ix, m, n, k);
        }
        n := m;
      }
      rest := rest - {m};
    }
  }

  /** The query for the rows in order. */
  method Listing(ix: Index) returns (rows: seq<Name>)
    ensures IsListing(rows, ix)
  {
    rows := [];
    var todo := ix.Keys;
    while todo != {}
      invariant todo <= ix.Keys && (forall n :: n in rows <==> n in ix.Keys - todo)
      invariant forall i, j :: 0 <= i < j < |rows| ==> rows[i] in ix && rows[j] in ix && Before(ix, rows[i], rows[j])
      invariant forall m, n :: m in rows && n in todo ==> m in ix && n in ix && Before(ix, m, n)
      decreases todo
    {
      var n := First(ix, todo);
      rows := rows + [n];
      todo := todo - {n};
    }
  }

  // ---------------------------------------------------------------------------
  // Usage
  // ---------------------------------------------------------------------------

  /** Sum of the sizes of all rows. */
  ghost function Usage(ix: Index): nat {
    if ix == map[] then 0
    else
      var n :| n in ix;
      ix[n].size + Usage(ix - {n})
  }

  lemma {:induction false} UsageWithout(ix: Index, n: Name)
    requires n in ix
    ensures Usage(ix) == ix[n].size + Usage(ix - {n})
  {
    var m :| m in ix && Usage(ix) == ix[m].size + Usage(ix - {m});
    if m != n {
      UsageWithout(ix - {m}, n);
      UsageWithout(ix - {n}, m);
      assert ix - {m} - {n} == ix - {n} - {m};
    }
  }

  /** The database's sum. */
  method SumSizes(ix: Index) returns (total: nat)
    ensures total == Usage(ix)
  {
    total := 0;
    var rest := ix;
    while rest != map[]
      invariant total + Usage(rest) == Usage(ix)
      decreases |rest|
    {
      var n :| n in rest;
      UsageWithout(rest, n);
      total := total + rest[n].size;
      rest := rest - {n};
    }
  }

  function SizeOf(names: seq<Name>, ix: Index): nat
    requires forall n :: n in names ==> n in ix
  {
    if names == [] then 0 else SizeOf(names[..|names| - 1], ix) + ix[names[|names| - 1]].size
  }

  // ---------------------------------------------------------------------------
  // Eviction
  // ---------------------------------------------------------------------------

  function Kept(n: Name, keep: set<Name>): seq<Name> { if n in keep then [] else [n] }

  /** The rows that may go, in order. */
  function Candidates(rows: seq<Name>, keep: set<Name>): seq<Name> { Collect((n: Name) => Kept(n, keep), rows) }

  lemma CandidatesOneMore(rows: seq<Name>, k: nat, keep: set<Name>)
    requires k < |rows|
    ensures Candidates(rows[..k + 1], keep) == Candidates(rows[..k], keep) + Kept(rows[k], keep)
    ensures Candidates(rows[..k], keep) <= Candidates(rows, keep)
  {
    var f := (n: Name) => Kept(n, keep);
    assert rows[..k + 1] == rows[..k] + [rows[k]];
    CollectOneMore(f, rows[..k], rows[k]);
    assert rows == rows[..k] + rows[k..];
    CollectBoth(f, rows[..k], rows[k..]);
  }

  lemma {:induction false} CandidatesAmong(rows: seq<Name>, keep: set<Name>, n: Name)
    ensures n in Candidates(rows, keep) <==> n in rows && n !in keep
  {
    if rows != [] {
      var front, last := rows[..|rows| - 1], rows[|rows| - 1];
      CandidatesAmong(front, keep, n);
      assert rows == front + [last];
    }
  }

  /** Nothing was removed once the target was reached. */
  ghost predicate Needed(removed: seq<Name>, ix: Index, target: nat)
    requires forall n :: n in removed ==> n in ix
  {
    forall j :: 0 <= j < |removed| ==> Usage(ix) > target + SizeOf(removed[..j], ix)
  }

  /** The removed names have left index and disk, and the usage is what remains. */
  ghost predicate Gone(removed: seq<Name>, ix0: Index, disk0: Disk, ix: Index, disk: Disk) {
    && (forall n :: n in removed ==> n in ix0)
    && ix == ix0 - Elements(removed) && disk == disk0 - Elements(removed)
    && Usage(ix) + SizeOf(removed, ix0) == Usage(ix0)
  }

  lemma GoneOneMore(removed: seq<Name>, n: Name, ix0: Index, disk0: Disk, ix: Index, disk: Disk)
    requires Gone(removed, ix0, disk0, ix, disk) && n in ix
    ensures Gone(removed + [n], ix0, disk0, ix - {n}, disk - {n})
    ensures Usage(ix - {n}) + ix0[n].size == Usage(ix)
  {
    var more := removed + [n];
    assert Elements(more) == Elements(removed) + {n};
    assert more[..|more| - 1] == removed;
    UsageWithout(ix, n);
    assert ix0 - Elements(more) == ix - {n} && disk0 - Elements(more) == disk - {n};
  }

  lemma NeededOneMore(removed: seq<Name>, n: Name, ix0: Index, disk0: Disk, ix: Index, disk: Disk, target: nat)
    requires Gone(removed, ix0, disk0, ix, disk) && n in ix && Needed(removed, ix0, target) && Usage(ix) > target
    ensures Needed(removed + [n], ix0, target)
  {
    var more := removed + [n];
    forall j | 0 <= j < |more| ensures Usage(ix0) > target + SizeOf(more[..j], ix0) {
      if j < |removed| {
        assert more[..j] == removed[..j];
      } else {
        assert more[..j] == removed;
      }
    }
  }

  /** A trim: the shortest prefix of the rows that may go which reaches the target, or all of them. */
  ghost predicate Trimmed(rows: seq<Name>, keep: set<Name>, target: nat, removed: seq<Name>, ix0: Index, disk0: Disk,
                          ix: Index, disk: Disk) {
    && removed <= Candidates(rows, keep)
    && (Usage(ix) <= target || removed == Candidates(rows, keep))
    && Gone(removed, ix0, disk0, ix, disk) && Needed(removed, ix0, target)
  }

  /** Names that must be kept are kept. */
  lemma TrimKeeps(rows: seq<Name>, keep: set<Name>, target: nat, removed: seq<Name>, ix0: Index, disk0: Disk,
                  ix: Index, disk: Disk, n: Name)
    requires Trimmed(rows, keep, target, removed, ix0, disk0, ix, disk) && n in keep
    ensures n in ix0 ==> n in ix && ix[n] == ix0[n]
    ensures n in disk0 ==> n in disk && disk[n] == disk0[n]
  {
    CandidatesAmong(rows, keep, n);
    assert n !in removed;
  }

  /** If the target is missed, only names that must be kept are left. */
  lemma TrimIsThorough(rows: seq<Name>, keep: set<Name>, target: nat, removed: seq<Name>, ix0: Index, disk0: Disk,
                       ix: Index, disk: Disk, n: Name)
    requires IsListing(rows, ix0) && Trimmed(rows, keep, target, removed, ix0, disk0, ix, disk)
    requires Usage(ix) > target && n in ix
    ensures n in keep
  {
    CandidatesAmong(rows, keep, n);
  }

  /** Whatever goes is older than whatever could have gone and stays. */
  lemma TrimIsInOrder(rows: seq<Name>, keep: set<Name>, target: nat, removed: seq<Name>, ix0: Index, disk0: Disk,
                      ix: Index, disk: Disk, gone: Name, left: Name)
    requires IsListing(rows, ix0) && Trimmed(rows, keep, target, removed, ix0, disk0, ix, disk)
    requires gone in removed && left in ix && left !in keep
    ensures gone in ix0 && left in ix0
    ensures ix0[gone].created < ix0[left].created || (ix0[gone].created == ix0[left].created && Less(gone, left))
  {
    var all := Candidates(rows, keep);
    CandidatesAmong(rows, keep, left);
    var i :| 0 <= i < |removed| && removed[i] == gone;
    var j :| 0 <= j < |all| && all[j] == left;
    CandidatesSorted(rows, ix0, keep, i, j);
  }

  lemma {:induction false} CandidatesSorted(rows: seq<Name>, ix: Index, keep: set<Name>, i: nat, j: nat)
    requires forall a, b :: 0 <= a < b < |rows| ==> rows[a] in ix && rows[b] in ix && Before(ix, rows[a], rows[b])
    requires forall n :: n in rows ==> n in ix
    requires i < j < |Candidates(rows, keep)|
    ensures Candidates(rows, keep)[i] in ix && Candidates(rows, keep)[j] in ix
    ensures Before(ix, Candidates(rows, keep)[i], Candidates(rows, keep)[j])
  {
    var front, last := rows[..|rows| - 1], rows[|rows| - 1];
    assert rows == front + [last];
    var before := Candidates(front, keep);
    assert Candidates(rows, keep) == before + Kept(last, keep);
    if j < |before| {
      CandidatesSorted(front, ix, keep, i, j);
    } else {
      CandidatesAmong(front, keep, before[i]);
      var a :| 0 <= a < |front| && front[a] == before[i];
      assert rows[a] == before[i];
    }
  }

  /** A row the loop has not reached is as it was. */
  lemma Untouched(rows: seq<Name>, k: nat, keep: set<Name>, removed: seq<Name>, ix0: Index, disk0: Disk, ix: Index,
                  disk: Disk)
    requires IsListing(rows, ix0) && k < |rows| && removed == Candidates(rows[..k], keep)
    requires Gone(removed, ix0, disk0, ix, disk)
    ensures rows[k] in ix && ix[rows[k]] == ix0[rows[k]] && (rows[k] in disk <==> rows[k] in disk0)
  {
    assert rows[k] in rows;
    CandidatesAmong(rows[..k], keep, rows[k]);
    forall i: nat | i < k ensures rows[i] != rows[k] {
      ListingHasNoRepeats(rows, ix0, i, k);
    }
  }

  lemma EvictOneMore(removed: seq<Name>, n: Name, ix0: Index, disk0: Disk, ix: Index, disk: Disk, target: nat)
    requires Gone(removed, ix0, disk0, ix, disk) && n in ix && Needed(removed, ix0, target) && Usage(ix) > target
    ensures Gone(removed + [n], ix0, disk0, ix - {n}, disk - {n}) && Needed(removed + [n], ix0, target)
    ensures Usage(ix - {n}) + ix[n].size == Usage(ix)
  {
    GoneOneMore(removed, n, ix0, disk0, ix, disk);
    NeededOneMore(removed, n, ix0, disk0, ix, disk, target);
  }

  /** The loop after k rows. */
  ghost predicate EvictedSoFar(rows: seq<Name>, k: nat, keep: set<Name>, target: nat, removed: seq<Name>, ix0: Index,
                               disk0: Disk, ix: Index, disk: Disk)
    requires k <= |rows|
  {
    && IsListing(rows, ix0) && removed == Candidates(rows[..k], keep)
    && Gone(removed, ix0, disk0, ix, disk) && Needed(removed, ix0, target)
  }

  lemma NothingEvicted(rows: seq<Name>, keep: set<Name>, target: nat, ix: Index, disk: Disk)
    requires IsListing(rows, ix)
    ensures EvictedSoFar(rows, 0, keep, target, [], ix, disk, ix, disk)
  {
    assert ix - Elements([]) == ix && disk - Elements([]) == disk;
  }

  lemma EvictSkip(rows: seq<Name>, k: nat, keep: set<Name>, target: nat, removed: seq<Name>, ix0: Index, disk0: Disk,
                  ix: Index, disk: Disk)
    requires k < |rows| && EvictedSoFar(rows, k, keep, target, removed, ix0, disk0, ix, disk) && rows[k] in keep
    ensures EvictedSoFar(rows, k + 1, keep, target, removed, ix0, disk0, ix, disk)
  {
    CandidatesOneMore(rows, k, keep);
  }

  lemma EvictTake(rows: seq<Name>, k: nat, keep: set<Name>, target: nat, removed: seq<Name>, ix0: Index, disk0: Disk,
                  ix: Index, disk: Disk)
    requires k < |rows| && EvictedSoFar(rows, k, keep, target, removed, ix0, disk0, ix, disk)
    requires rows[k] !in keep && Usage(ix) > target
    ensures rows[k] in ix && Usage(ix - {rows[k]}) + ix[rows[k]].size == Usage(ix)
    ensures EvictedSoFar(rows, k + 1, keep, target, removed + [rows[k]], ix0, disk0, ix - {rows[k]}, disk - {rows[k]})
  {
    Untouched(rows, k, keep, removed, ix0, disk0, ix, disk);
    CandidatesOneMore(rows, k, keep);
    EvictOneMore(removed, rows[k], ix0, disk0, ix, disk, target);
  }

  lemma KeptOrNot(n: Name, spared: set<Name>, stuck: set<Name>, disk0: Disk, disk: Disk)
    requires n in disk <==> n in disk0
    ensures n in spared + stuck * disk0.Keys <==> n in spared || (n in disk && n in stuck)
  {
  }

  lemma EvictDone(rows: seq<Name>, k: nat, keep: set<Name>, target: nat, removed: seq<Name>, ix0: Index, disk0: Disk,
                  ix: Index, disk: Disk)
    requires k <= |rows| && EvictedSoFar(rows, k, keep, target, removed, ix0, disk0, ix, disk)
    requires k == |rows| || Usage(ix) <= target
    ensures Trimmed(rows, keep, target, removed, ix0, disk0, ix, disk)
  {
    assert rows[..|rows|] == rows;
    if k < |rows| {
      CandidatesOneMore(rows, k, keep);
    }
  }

  /** What the eviction loop works on. */
  datatype Sweep = Sweep(ix: Index, disk: Disk, usage: nat, removed: seq<Name>)

  /** One row: passed over, or removed. The sizes are those of the listing. */
  function SweepOne(n: Name, spared: set<Name>, stuck: set<Name>, sizes: Index, s: Sweep): Sweep
    requires n in sizes
  {
    if n in spared || (n in s.disk && n in stuck) then s
    else
      var usage := if s.usage < sizes[n].size then 0 else s.usage - sizes[n].size;
      Sweep(s.ix - {n}, s.disk - {n}, usage, s.removed + [n])
  }

  /** The loop from row k on. */
  function Swept(rows: seq<Name>, k: nat, spared: set<Name>, stuck: set<Name>, target: nat, sizes: Index,
                 s: Sweep): Sweep
    requires k <= |rows| && forall n :: n in rows ==> n in sizes
    decreases |rows| - k
  {
    if k == |rows| || s.usage <= target then s
    else Swept(rows, k + 1, spared, stuck, target, sizes, SweepOne(rows[k], spared, stuck, sizes, s))
  }

  lemma SweepOneKeeps(rows: seq<Name>, k: nat, spared: set<Name>, stuck: set<Name>, keep: set<Name>, target: nat,
                      ix0: Index, disk0: Disk, s: Sweep)
    requires k < |rows| && s.usage == Usage(s.ix) && s.usage > target && keep == spared + stuck * disk0.Keys
    requires EvictedSoFar(rows, k, keep, target, s.removed, ix0, disk0, s.ix, s.disk)
    ensures rows[k] in ix0
    ensures var s' := SweepOne(rows[k], spared, stuck, ix0, s);
            EvictedSoFar(rows, k + 1, keep, target, s'.removed, ix0, disk0, s'.ix, s'.disk) && s'.usage == Usage(s'.ix)
  {
    var n := rows[k];
    Untouched(rows, k, keep, s.removed, ix0, disk0, s.ix, s.disk);
    KeptOrNot(n, spared, stuck, disk0, s.disk);
    if n in keep {
      EvictSkip(rows, k, keep, target, s.removed, ix0, disk0, s.ix, s.disk);
    } else {
      EvictTake(rows, k, keep, target, s.removed, ix0, disk0, s.ix, s.disk);
    }
  }

  lemma {:induction false} SweptTrims(rows: seq<Name>, k: nat, spared: set<Name>, stuck: set<Name>, keep: set<Name>,
                                      target: nat, ix0: Index, disk0: Disk, s: Sweep)
    requires k <= |rows| && s.usage == Usage(s.ix) && keep == spared + stuck * disk0.Keys
    requires EvictedSoFar(rows, k, keep, target, s.removed, ix0, disk0, s.ix, s.disk)
    ensures var r := Swept(rows, k, spared, stuck, target, ix0, s);
            Trimmed(rows, keep, target, r.removed, ix0, disk0, r.ix, r.disk) && r.usage == Usage(r.ix)
    decreases |rows| - k
  {
    if k == |rows| || s.usage <= target {
      EvictDone(rows, k, keep, target, s.removed, ix0, disk0, s.ix, s.disk);
    } else {
      SweepOneKeeps(rows, k, spared, stuck, keep, target, ix0, disk0, s);
      SweptTrims(rows, k + 1, spared, stuck, keep, target, ix0, disk0, SweepOne(rows[k], spared, stuck, ix0, s));
    }
  }

  // ---------------------------------------------------------------------------
  // The cache
  // ---------------------------------------------------------------------------

  /** Index and disk hold the same names with the same sizes. */
  ghost predicate Agrees(ix: Index, disk: Disk) {
    ix.Keys == disk.Keys && forall n :: n in ix ==> ix[n].size == disk[n].size
  }

  lemma GoneAgrees(removed: seq<Name>, ix0: Index, disk0: Disk, ix: Index, disk: Disk)
    requires Agrees(ix0, disk0) && Gone(removed, ix0, disk0, ix, disk)
    ensures Agrees(ix, disk)
  {
  }

  /** The low watermark. */
  function Target(max: nat): nat { max * 3 / 5 }

  /** What enforcing a limit does to index and disk: nothing up to the limit, and beyond it a trim
      that spares the protected names, the newest one and files that cannot be deleted. */
  ghost predicate Enforced(max: nat, spared: set<Name>, stuck: set<Name>, rows: seq<Name>, removed: seq<Name>,
                           ix0: Index, disk0: Disk, ix: Index, disk: Disk) {
    if max == 0 || Usage(ix0) <= max then removed == [] && ix == ix0 && disk == disk0
    else
      && IsListing(rows, ix0) && rows != []
      && Trimmed(rows, spared + {rows[|rows| - 1]} + stuck * disk0.Keys, Target(max), removed, ix0, disk0, ix, disk)
  }

  /** The newest row is the last in the order of eviction. */
  lemma NewestSpared(max: nat, spared: set<Name>, stuck: set<Name>, rows: seq<Name>, removed: seq<Name>,
                     ix0: Index, disk0: Disk, ix: Index, disk: Disk, newest: Name)
    requires Enforced(max, spared, stuck, rows, removed, ix0, disk0, ix, disk)
    requires newest in ix0 && forall n :: n in ix0 && n != newest ==>
               ix0[n].created < ix0[newest].created || (ix0[n].created == ix0[newest].created && Less(n, newest))
    ensures newest in ix && ix[newest] == ix0[newest]
  {
    if max > 0 && Usage(ix0) > max {
      var last := rows[|rows| - 1];
      assert last in rows && newest in rows;
      if newest != last {
        var i :| 0 <= i < |rows| && rows[i] == newest;
        BeforeIsTotal(ix0, newest, last);
      }
      TrimKeeps(rows, spared + {last} + stuck * disk0.Keys, Target(max), removed, ix0, disk0, ix, disk, newest);
    }
  }

  /** Afterwards the cache is within its limit, or only spared, undeletable and newest rows are left. */
  lemma LimitHolds(max: nat, spared: set<Name>, stuck: set<Name>, rows: seq<Name>, removed: seq<Name>,
                   ix0: Index, disk0: Disk, ix: Index, disk: Disk)
    requires Enforced(max, spared, stuck, rows, removed, ix0, disk0, ix, disk) && max > 0
    ensures Usage(ix) <= max || forall n :: n in ix ==> n in spared || n in stuck || n == rows[|rows| - 1]
  {
    if Usage(ix) > max {
      var keep := spared + {rows[|rows| - 1]} + stuck * disk0.Keys;
      forall n | n in ix ensures n in keep {
        TrimIsThorough(rows, keep, Target(max), removed, ix0, disk0, ix, disk, n);
      }
    }
  }

  /** Beyond the limit the cache is trimmed to three fifths of it, unless only names that must be kept
      are left, and no further: with the last removed file it would still be above. */
  lemma LowWatermark(max: nat, spared: set<Name>, stuck: set<Name>, rows: seq<Name>, removed: seq<Name>,
                     ix0: Index, disk0: Disk, ix: Index, disk: Disk)
    requires Enforced(max, spared, stuck, rows, removed, ix0, disk0, ix, disk) && 0 < max < Usage(ix0)
    ensures 5 * Usage(ix) <= 3 * max || forall n :: n in ix ==> n in spared || n in stuck || n == rows[|rows| - 1]
    ensures removed != [] ==>
              removed[|removed| - 1] in ix0 && 5 * (Usage(ix) + ix0[removed[|removed| - 1]].size) > 3 * max
  {
    var keep := spared + {rows[|rows| - 1]} + stuck * disk0.Keys;
    if 5 * Usage(ix) > 3 * max {
      forall n | n in ix ensures n in keep {
        TrimIsThorough(rows, keep, Target(max), removed, ix0, disk0, ix, disk, n);
      }
    }
    if removed != [] {
      assert Usage(ix0) > Target(max) + SizeOf(removed[..|removed| - 1], ix0);
    }
  }

  lemma EnforcedAgrees(max: nat, spared: set<Name>, stuck: set<Name>, rows: seq<Name>, removed: seq<Name>,
                       ix0: Index, disk0: Disk, ix: Index, disk: Disk)
    requires Enforced(max, spared, stuck, rows, removed, ix0, disk0, ix, disk) && Agrees(ix0, disk0)
    ensures Agrees(ix, disk)
  {
    if max > 0 && Usage(ix0) > max {
      GoneAgrees(removed, ix0, disk0, ix, disk);
    }
  }

  /** The index row of a saved file: a row that exists keeps its age. */
  function SavedRow(ix: Index, disk: Disk, name: Name, size: nat, now: int): Row {
    if name !in disk then Row(size, now, now)
    else
      var f := disk[name];
      Row(f.size, if name in ix then ix[name].created else f.modified, f.modified)
  }

  function SavedDisk(disk: Disk, name: Name, size: nat, modified: int): Disk {
    if name in disk then disk else disk[name := File(size, modified)]
  }

  predicate DatedAs(f: File, row: Row) { row.size == f.size && row.created == row.updated == f.modified }

  /** A new file is dated now. A file that was there keeps the age of its row, or, without one, takes
      that of the file. */
  ghost predicate IndexedAs(ix: Index, disk: Disk, name: Name, size: nat, now: int, row: Row) {
    if name in disk then
      && row.size == disk[name].size && row.updated == disk[name].modified
      && row.created == if name in ix then ix[name].created else disk[name].modified
    else row.size == size && row.created == now && row.updated == now
  }

  class LocalMediaCache {
    const max: nat        // bytes; 0 for no limit
    var index: Index
    var disk: Disk

    constructor (max: nat, disk: Disk)
      ensures this.max == max && this.disk == disk && index == map[]
    {
      this.max, this.disk, this.index := max, disk, map[];
    }

    /** Delete the oldest files until the low watermark. */
    method EnforceLimit(spared: set<Name>, stuck: set<Name>) returns (ghost rows: seq<Name>, removed: seq<Name>)
      modifies this`index, this`disk
      ensures Enforced(max, spared, stuck, rows, removed, old(index), old(disk), index, disk)
    {
      rows, removed := [], [];
      var usage := SumSizes(index);
      if max == 0 || usage <= max {
        return;
      }
      var listing := Listing(index);
      assert index != map[];
      ghost var n :| n in index;
      assert n in listing;
      rows := listing;
      removed := Evict(listing, spared + {listing[|listing| - 1]}, stuck, usage);
    }

    /** The eviction loop. A file that cannot be deleted is passed over and keeps its row. */
    method Evict(rows: seq<Name>, spared: set<Name>, stuck: set<Name>, total: nat) returns (removed: seq<Name>)
      requires IsListing(rows, index) && total == Usage(index)
      modifies this`index, this`disk
      ensures Trimmed(rows, spared + stuck * old(disk).Keys, Target(max), removed, old(index), old(disk), index, disk)
    {
      ghost var ix0, disk0 := index, disk;
      NothingEvicted(rows, spared + stuck * disk.Keys, Target(max), index, disk);
      SweptTrims(rows, 0, spared, stuck, spared + stuck * disk.Keys, Target(max), ix0, disk0,
        Sweep(index, disk, total, []));
      removed := SweepRows(rows, spared, stuck, total);
    }

    method SweepRows(rows: seq<Name>, spared: set<Name>, stuck: set<Name>, total: nat) returns (removed: seq<Name>)
      requires forall n :: n in rows ==> n in index
      modifies this`index, this`disk
      ensures Sweep(index, disk, 0, removed)
              == Swept(rows, 0, spared, stuck, Target(max), old(index),
                 Sweep(old(index), old(disk), total, [])).(usage := 0)
    {
      var sizes := index;
      var usage: nat := total;
      var k := 0;
      removed := [];
      while k < |rows| && usage > Target(max)
        invariant 0 <= k <= |rows|
        invariant Swept(rows, k, spared, stuck, Target(max), sizes, Sweep(index, disk, usage, removed))
                  == Swept(rows, 0, spared, stuck, Target(max), sizes, Sweep(old(index), old(disk), total, []))
      {
        var n := rows[k];
        if n !in spared && !(n in disk && n in stuck) {
          usage := if usage < sizes[n].size then 0 else usage - sizes[n].size;
          index, disk := index - {n}, disk - {n};
          removed := removed + [n];
        }
        k := k + 1;
      }
    }

    /** Save a file unless it is there, and index it when there is a limit. */
    method Save(name: Name, size: nat, now: int, modified: int, stuck: set<Name>)
        returns (ghost rows: seq<Name>, removed: seq<Name>)
      modifies this`index, this`disk
      ensures name in disk && disk[name] == (if name in old(disk) then old(disk)[name] else File(size, modified))
      ensures max > 0 ==> name in index && IndexedAs(old(index), old(disk), name, size, now, index[name])
      ensures max == 0 ==> index == old(index) && disk == SavedDisk(old(disk), name, size, modified)
      ensures max > 0 ==> Enforced(max, {name}, stuck, rows, removed,
                                   old(index)[name := SavedRow(old(index), old(disk), name, size, now)],
                                     SavedDisk(old(disk), name, size, modified),
                                   index, disk)
      ensures max > 0 && old(Agrees(index, disk)) ==> Agrees(index, disk)
      ensures max > 0 ==> Usage(index) <= max || forall n :: n in index ==>
                n == name || n in stuck || n == rows[|rows| - 1]
    {
      rows, removed := [], [];
      if max == 0 {
        disk := SavedDisk(disk, name, size, modified);
        return;
      }
      index := index[name := SavedRow(index, disk, name, size, now)];
      disk := SavedDisk(disk, name, size, modified);
      rows, removed := EnforceLimit({name}, stuck);
      SaveOutcome(max, name, size, now, modified, stuck, rows, removed, old(index), old(disk), index, disk);
    }

    /** Delete one file and its row. When the file cannot be deleted the error leaves both. */
    method Delete(name: Name, stuck: set<Name>) returns (existed: Option<bool>)
      modifies this`index, this`disk
      ensures existed == if name in old(disk) && name in stuck then None else Some(name in old(disk))
      ensures existed.None? ==> index == old(index) && disk == old(disk)
      ensures existed.Some? ==> index == old(index) - {name} && disk == old(disk) - {name}
      ensures old(Agrees(index, disk)) ==> Agrees(index, disk)
    {
      if name in disk && name in stuck {
        return None;
      }
      existed := Some(name in disk);
      disk := disk - {name};
      index := index - {name};
    }

    /** Delete files up to the first that cannot be deleted. */
    method Unlink(order: seq<Name>, stuck: set<Name>) returns (k: nat)
      modifies this`disk
      ensures k <= |order| && disk == old(disk) - Elements(order[..k])
      ensures if k < |order| then FirstStuck(order, stuck, k) else Elements(order) !! stuck
    {
      k := 0;
      assert disk - Elements(order[..0]) == disk;
      while k < |order| && order[k] !in stuck
        invariant 0 <= k <= |order| && disk == old(disk) - Elements(order[..k])
        invariant forall i :: 0 <= i < k ==> order[i] !in stuck
      {
        disk := disk - {order[k]};
        assert order[..k + 1] == order[..k] + [order[k]];
        k := k + 1;
      }
    }

    /** Delete all files in the order given, and then all rows. An error on the way leaves the rows:
        then index and disk still agree exactly if the error struck at the first file. */
    method Clear(order: seq<Name>, stuck: set<Name>) returns (removed: Option<nat>, ghost k: nat)
      requires forall i, j :: 0 <= i < j < |order| ==> order[i] != order[j]
      requires Elements(order) == disk.Keys
      modifies this`index, this`disk
      ensures removed.Some? <==> old(disk).Keys !! stuck
      ensures removed.Some? ==> removed.value == |old(disk)| && index == map[] && disk == map[]
      ensures removed.None? ==>
                index == old(index) && k < |order| && FirstStuck(order, stuck, k)
                && disk == old(disk) - Elements(order[..k])
      ensures old(Agrees(index, disk)) ==> (Agrees(index, disk) <==> removed.Some? || k == 0)
    {
      var n := Unlink(order, stuck);
      k := n;
      if n < |order| {
        removed := None;
        assert order[n] in Elements(order);
        PartlyCleared(order, n, index, old(disk));
      } else {
        assert order[..n] == order;
        NoRepeatsSize(order);
        index := map[];
        removed := Some(n);
      }
    }

    /** Rebuild the index from the disk, whatever it was. */
    method Reconcile(stuck: set<Name>) returns (ghost rows: seq<Name>, removed: seq<Name>)
      modifies this`index, this`disk
      ensures max == 0 ==> index == old(index) && disk == old(disk)
      ensures max > 0 ==> Agrees(index, disk)
      ensures max > 0 ==> forall n :: n in index ==> n in old(disk) && DatedAs(old(disk)[n], index[n])
      ensures max > 0 ==> Enforced(max, {}, stuck, rows, removed, Rebuilt(old(disk)), old(disk), index, disk)
    {
      rows, removed := [], [];
      if max == 0 {
        return;
      }
      index := Rebuilt(disk);
      ghost var disk0 := disk;
      rows, removed := EnforceLimit({}, stuck);
      EnforcedAgrees(max, {}, stuck, rows, removed, Rebuilt(disk0), disk0, index, disk);
    }
  }

  function Rebuilt(disk: Disk): Index { map n | n in disk :: Row(disk[n].size, disk[n].modified, disk[n].modified) }

  ghost predicate FirstStuck(order: seq<Name>, stuck: set<Name>, k: int)
    requires k < |order|
  {
    0 <= k && order[k] in stuck && forall i :: 0 <= i < k ==> order[i] !in stuck
  }

  lemma PartlyCleared(order: seq<Name>, k: nat, ix: Index, disk: Disk)
    requires k < |order| && Elements(order) == disk.Keys
    ensures Agrees(ix, disk) ==> (Agrees(ix, disk - Elements(order[..k])) <==> k == 0)
  {
    if k == 0 {
      assert disk - Elements(order[..0]) == disk;
    } else {
      assert order[0] in order[..k] && order[0] in Elements(order);
    }
  }

  lemma {:induction false} NoRepeatsSize(order: seq<Name>)
    requires forall i, j :: 0 <= i < j < |order| ==> order[i] != order[j]
    ensures |Elements(order)| == |order|
  {
    if order != [] {
      var front, last := order[..|order| - 1], order[|order| - 1];
      NoRepeatsSize(front);
      assert Elements(order) == Elements(front) + {last};
    }
  }

  lemma SavedAgreesIf(ix: Index, disk: Disk, name: Name, size: nat, now: int, modified: int)
    ensures Agrees(ix, disk) ==>
              Agrees(ix[name := SavedRow(ix, disk, name, size, now)], SavedDisk(disk, name, size, modified))
  {
  }

  /** What a save leaves behind, when there is a limit. */
  lemma {:induction false} SaveOutcome(max: nat, name: Name, size: nat, now: int, modified: int, stuck: set<Name>,
                                       rows: seq<Name>, removed: seq<Name>, ix0: Index, disk0: Disk, ix: Index,
                                         disk: Disk)
    requires max > 0
    requires Enforced(max, {name}, stuck, rows, removed, ix0[name := SavedRow(ix0, disk0, name, size, now)],
               SavedDisk(disk0, name, size, modified), ix, disk)
    ensures name in disk && disk[name] == (if name in disk0 then disk0[name] else File(size, modified))
    ensures name in ix && IndexedAs(ix0, disk0, name, size, now, ix[name])
    ensures Agrees(ix0, disk0) ==> Agrees(ix, disk)
    ensures Usage(ix) <= max || forall n :: n in ix ==> n == name || n in stuck || n == rows[|rows| - 1]
  {
    SavedAgreesIf(ix0, disk0, name, size, now, modified);
    AfterSave(max, name, stuck, rows, removed, ix0[name := SavedRow(ix0, disk0, name, size, now)],
      SavedDisk(disk0, name, size, modified), ix, disk);
  }

  lemma AfterSave(max: nat, name: Name, stuck: set<Name>, rows: seq<Name>, removed: seq<Name>, ix0: Index, disk0: Disk,
                  ix: Index, disk: Disk)
    requires Enforced(max, {name}, stuck, rows, removed, ix0, disk0, ix, disk) && max > 0 && name in disk0
    ensures name in disk && disk[name] == disk0[name] && (name in ix0 ==> name in ix && ix[name] == ix0[name])
    ensures Agrees(ix0, disk0) ==> Agrees(ix, disk)
    ensures Usage(ix) <= max || forall n :: n in ix ==> n == name || n in stuck || n == rows[|rows| - 1]
  {
    LimitHolds(max, {name}, stuck, rows, removed, ix0, disk0, ix, disk);
    if Usage(ix0) > max {
      TrimKeeps(rows, {name} + {rows[|rows| - 1]} + stuck * disk0.Keys, Target(max), removed, ix0, disk0, ix, disk,
        name);
    }
    if Agrees(ix0, disk0) {
      EnforcedAgrees(max, {name}, stuck, rows, removed, ix0, disk0, ix, disk);
    }
  }
}
