// The columnar runtime table. Slot i is the i-th entry of every column; the buckets of
// modeAvailable and tagIdx are derived indexes that every method must keep in step.
module AccountTable {
  import opened AccountModels

  /** One row of the table read across its columns, with the tags the tag index gives it. */
  datatype Slot = Slot(
    token: string,
    pool: Pool,
    status: StatusId,
    quota: PerMode,
    total: PerMode,
    window: PerMode,
    reset: PerMode,
    inflight: nat,
    failCount: nat,
    health: real,
    lastUse: nat,
    lastFail: nat,
    cooling: nat,
    tags: set<string>)

  const INT16_MAX := 32_767
  const UINT16_MAX := 65_535

  /** The row a fresh slot starts from. */
  function NewSlot(token: string, a: SlotArgs): Slot {
    Slot(token, a.pool, a.status, a.quota.Clamp(-1, INT16_MAX), a.total.Clamp(0, INT16_MAX), a.window.AtLeastZero(),
      a.reset,
         0, Min(a.failCount, UINT16_MAX), a.health, a.lastUse, a.lastFail, 0, a.tags)
  }

  /** The row an update leaves: health, inflight and cooling belong to the runtime and survive. */
  function UpdatedSlot(s: Slot, a: SlotArgs): Slot {
    NewSlot(s.token, a).(inflight := s.inflight, cooling := s.cooling, health := s.health)
  }

  /** Whether a slot belongs in the bucket of a pool and mode. */
  predicate InBucket(s: Slot, pool: Pool, mode: ModeId) {
    s.status == ACTIVE && s.pool == pool && s.window.Get(mode) > 0
  }

  // ---------------------------------------------------------------------------
  // Columns
  // ---------------------------------------------------------------------------

  /** The typed arrays of the table. The five columns of a per-mode family travel together. */
  datatype Columns = Columns(
    token: seq<string>,
    pool: seq<Pool>,
    status: seq<StatusId>,
    quota: seq<PerMode>,
    total: seq<PerMode>,
    window: seq<PerMode>,
    reset: seq<PerMode>,
    inflight: seq<nat>,
    failCount: seq<nat>,
    health: seq<real>,
    lastUse: seq<nat>,
    lastFail: seq<nat>,
    cooling: seq<nat>)
  {
    predicate Aligned() {
      var n := |token|;
      && |pool| == n && |status| == n
      && |quota| == n && |total| == n && |window| == n && |reset| == n
      && |inflight| == n && |failCount| == n && |health| == n
      && |lastUse| == n && |lastFail| == n && |cooling| == n
    }

    /** Slot i read across the columns. */
    function Row(i: nat): Slot
      requires Aligned() && i < |token|
    {
      Slot(token[i], pool[i], status[i], quota[i], total[i], window[i], reset[i],
           inflight[i], failCount[i], health[i], lastUse[i], lastFail[i], cooling[i], {})
    }

    function Push(t: string, a: SlotArgs): Columns {
      Columns(
        token + [t], pool + [a.pool], status + [a.status],
        quota + [a.quota.Clamp(-1, INT16_MAX)],
        total + [a.total.Clamp(0, INT16_MAX)],
        window + [a.window.AtLeastZero()],
        reset + [a.reset],
        inflight + [0],
        failCount + [Min(a.failCount, UINT16_MAX)],
        health + [a.health],
        lastUse + [a.lastUse],
        lastFail + [a.lastFail],
        cooling + [0])
    }

    function Put(i: nat, a: SlotArgs): Columns
      requires Aligned() && i < |token|
    {
      this.(
        pool := pool[i := a.pool],
        status := status[i := a.status],
        quota := quota[i := a.quota.Clamp(-1, INT16_MAX)],
        total := total[i := a.total.Clamp(0, INT16_MAX)],
        window := window[i := a.window.AtLeastZero()],
        reset := reset[i := a.reset],
        failCount := failCount[i := Min(a.failCount, UINT16_MAX)],
        lastUse := lastUse[i := a.lastUse],
        lastFail := lastFail[i := a.lastFail])
    }

    lemma PushAddsOneRow(t: string, a: SlotArgs)
      requires Aligned()
      ensures Push(t, a).Aligned()
      ensures Push(t, a).Row(|token|) == NewSlot(t, a).(tags := {})
      ensures forall i: nat :: i < |token| ==> Push(t, a).Row(i) == Row(i)
    {
    }

    lemma PutChangesOneRow(i: nat, a: SlotArgs)
      requires Aligned() && i < |token|
      ensures Put(i, a).Aligned()
      ensures Put(i, a).Row(i) == UpdatedSlot(Row(i), a).(tags := {})
      ensures forall j: nat :: j < |token| && j != i ==> Put(i, a).Row(j) == Row(j)
    {
    }
  }

  const NO_COLUMNS := Columns([], [], [], [], [], [], [], [], [], [], [], [], [])

  // ---------------------------------------------------------------------------
  // Derived indexes
  // ---------------------------------------------------------------------------

  type ModeIndex = map<(Pool, ModeId), set<nat>>

  type TagIndex = map<string, set<nat>>

  function Bucket(index: ModeIndex, pool: Pool, mode: ModeId): set<nat> {
    if (pool, mode) in index then index[(pool, mode)] else {}
  }

  function TagBucket(index: TagIndex, tag: string): set<nat> {
    if tag in index then index[tag] else {}
  }

  function TagsOf(index: TagIndex, i: nat): set<string> {
    set tag | tag in index && i in index[tag]
  }

  /** Slot i with the tags the tag index gives it. */
  function RowOf(cols: Columns, tags: TagIndex, i: nat): Slot
    requires cols.Aligned() && i < |cols.token|
  {
    cols.Row(i).(tags := TagsOf(tags, i))
  }

  ghost function RowsOf(cols: Columns, tags: TagIndex): (rows: seq<Slot>)
    requires cols.Aligned()
    ensures |rows| == |cols.token| && forall i :: 0 <= i < |rows| ==> rows[i] == RowOf(cols, tags, i)
  {
    seq(|cols.token|, i requires 0 <= i < |cols.token| => RowOf(cols, tags, i))
  }

  ghost predicate TokensIndexed(tokens: seq<string>, idxByToken: map<string, nat>) {
    && (forall i :: 0 <= i < |tokens| ==> tokens[i] in idxByToken && idxByToken[tokens[i]] == i)
    && (forall t :: t in idxByToken ==> idxByToken[t] < |tokens| && tokens[idxByToken[t]] == t)
  }

  /** Bucket (p, m) holds exactly the active slots of pool p with a positive window for m. */
  ghost predicate BucketsAgree(cols: Columns, index: ModeIndex)
    requires cols.Aligned()
  {
    forall p: Pool, m: ModeId, i: nat {:trigger i in Bucket(index, p, m)} ::
      i in Bucket(index, p, m) <==> i < |cols.token| && InBucket(cols.Row(i), p, m)
  }

  ghost predicate TagsInRange(index: TagIndex, n: nat) {
    forall tag, i :: i in TagBucket(index, tag) ==> i < n
  }

  lemma TagsFromBuckets(index: TagIndex, i: nat, tags: set<string>)
    requires forall tag :: i in TagBucket(index, tag) <==> tag in tags
    ensures TagsOf(index, i) == tags
  {
    forall tag ensures tag in TagsOf(index, i) <==> tag in tags {
      assert i in TagBucket(index, tag) <==> tag in tags;
    }
  }

  lemma IndexNewToken(tokens: seq<string>, idxByToken: map<string, nat>, token: string)
    requires TokensIndexed(tokens, idxByToken) && token !in idxByToken
    ensures TokensIndexed(tokens + [token], idxByToken[token := |tokens|])
  {
  }

  /** Re-tagging one slot moves no other slot's tags. */
  lemma RetagOneSlot(before: TagIndex, after: TagIndex, i: nat, old_: set<string>, new_: set<string>)
    requires old_ == TagsOf(before, i)
    requires forall tag :: TagBucket(after, tag) ==
               TagBucket(before, tag) - (if tag in old_ then {i} else {}) + (if tag in new_ then {i} else {})
    ensures TagsOf(after, i) == new_
    ensures forall j: nat :: j != i ==> TagsOf(after, j) == TagsOf(before, j)
  {
    forall tag ensures i in TagBucket(after, tag) <==> tag in new_ {
      assert i in TagBucket(before, tag) <==> tag in old_;
    }
    TagsFromBuckets(after, i, new_);
    forall j: nat | j != i ensures TagsOf(after, j) == TagsOf(before, j) {
      forall tag ensures j in TagBucket(after, tag) <==> tag in TagsOf(before, j) {
        assert j in TagBucket(before, tag) <==> tag in TagsOf(before, j);
      }
      TagsFromBuckets(after, j, TagsOf(before, j));
    }
  }

  /** Rewriting one slot and moving it between buckets keeps the buckets in agreement. */
  lemma RebucketOneSlot(before: Columns, after: Columns, index: ModeIndex, index': ModeIndex, i: nat)
    requires before.Aligned() && after.Aligned()
    requires BucketsAgree(before, index)
    requires i < |after.token| && (|after.token| == |before.token| || (i == |before.token| && |after.token| == i + 1))
    requires forall j: nat :: j < |before.token| && j != i ==> after.Row(j) == before.Row(j)
    requires forall p: Pool, m: ModeId ::
               Bucket(index', p, m) == Bucket(index, p, m)
                 - (if i < |before.token| && before.pool[i] == p then {i} else {})
                 + (if InBucket(after.Row(i), p, m) then {i} else {})
    ensures BucketsAgree(after, index')
  {
    forall p: Pool, m: ModeId, j: nat
      ensures j in Bucket(index', p, m) <==> j < |after.token| && InBucket(after.Row(j), p, m)
    {
      assert j in Bucket(index, p, m) <==> j < |before.token| && InBucket(before.Row(j), p, m);
      if j != i && j < |before.token| {
        assert after.Row(j) == before.Row(j);
      }
    }
  }

  lemma BucketRows(cols: Columns, index: ModeIndex, tags: TagIndex, p: Pool, m: ModeId, i: nat)
    requires cols.Aligned() && BucketsAgree(cols, index)
    ensures i in Bucket(index, p, m) <==> i < |cols.token| && InBucket(RowsOf(cols, tags)[i], p, m)
  {
    var bucket := Bucket(index, p, m);
    if i in bucket {
      assert i in Bucket(index, p, m);
    }
    if i < |cols.token| {
      assert RowsOf(cols, tags)[i] == RowOf(cols, tags, i);
      assert InBucket(RowOf(cols, tags, i), p, m) == InBucket(cols.Row(i), p, m);
    }
  }

  /** A write to the runtime columns of one slot: no other row moves and no bucket changes. */
  lemma OneSlotWritten(before: Columns, after: Columns, index: ModeIndex, tags: TagIndex, i: nat)
    requires before.Aligned() && after.Aligned() && i < |before.token|
    requires after.token == before.token && after.pool == before.pool
    requires after.status == before.status && after.window == before.window
    requires forall j: nat :: j < |before.token| && j != i ==> after.Row(j) == before.Row(j)
    requires BucketsAgree(before, index)
    ensures BucketsAgree(after, index)
    ensures RowsOf(after, tags) == RowsOf(before, tags)[i := RowOf(after, tags, i)]
  {
    forall p: Pool, m: ModeId, j: nat
      ensures j in Bucket(index, p, m) <==> j < |after.token| && InBucket(after.Row(j), p, m)
    {
      assert j in Bucket(index, p, m) <==> j < |before.token| && InBucket(before.Row(j), p, m);
    }
  }

  lemma AppendedRow(cols: Columns, tags: TagIndex, tags': TagIndex, token: string, a: SlotArgs)
    requires cols.Aligned() && TagsInRange(tags, |cols.token|)
    requires forall tag :: TagBucket(tags', tag) ==
               TagBucket(tags, tag) + (if tag in a.tags then {|cols.token|} else {})
    ensures cols.Push(token, a).Aligned() && TagsInRange(tags', |cols.token| + 1)
    ensures RowsOf(cols.Push(token, a), tags') == RowsOf(cols, tags) + [NewSlot(token, a)]
  {
    cols.PushAddsOneRow(token, a);
    TagsFromBuckets(tags, |cols.token|, {});
    RetagOneSlot(tags, tags', |cols.token|, {}, a.tags);
  }

  // ---------------------------------------------------------------------------
  // The table
  // ---------------------------------------------------------------------------

  class AccountRuntimeTable {
    var cols: Columns
    var idxByToken: map<string, nat>
    var modeAvailable: ModeIndex
    var tagIdx: TagIndex
    var revision: nat
    var size: int

    ghost predicate Valid()
      reads this
    {
      && cols.Aligned()
      && TokensIndexed(cols.token, idxByToken)
      && BucketsAgree(cols, modeAvailable)
      && TagsInRange(tagIdx, |cols.token|)
    }

    ghost function Rows(): seq<Slot>
      requires cols.Aligned()
      reads this`cols, this`tagIdx
    {
      RowsOf(cols, tagIdx)
    }

    constructor ()
      ensures Valid() && Rows() == [] && revision == 0 && size == 0
    {
      cols := NO_COLUMNS;
      idxByToken, modeAvailable, tagIdx := map[], map[], map[];
      revision, size := 0, 0;
      new;
      assert forall p: Pool, m: ModeId :: Bucket(modeAvailable, p, m) == {};
      assert BucketsAgree(cols, modeAvailable);
    }

    // -------------------------------------------------------------------------
    // Index maintenance
    // -------------------------------------------------------------------------

    method AddToIndexes(idx: nat)
      requires cols.Aligned() && idx < |cols.token|
      modifies this`modeAvailable
      ensures forall p: Pool, m: ModeId ::
                Bucket(modeAvailable, p, m) ==
                  Bucket(old(modeAvailable), p, m) + (if InBucket(cols.Row(idx), p, m) then {idx} else {})
    {
      if cols.status[idx] != ACTIVE {
        return;
      }
      var pool := cols.pool[idx];
      for mode := 0 to 5
        invariant forall p: Pool, m: ModeId ::
                    Bucket(modeAvailable, p, m) == Bucket(old(modeAvailable), p, m)
                      + (if m < mode && InBucket(cols.Row(idx), p, m) then {idx} else {})
      {
        if cols.window[idx].Get(mode) > 0 {
          modeAvailable := modeAvailable[(pool, mode) := Bucket(modeAvailable, pool, mode) + {idx}];
        }
      }
    }

    method RemoveFromIndexes(idx: nat)
      requires cols.Aligned() && idx < |cols.token|
      modifies this`modeAvailable
      ensures forall p: Pool, m: ModeId ::
                Bucket(modeAvailable, p, m) ==
                  Bucket(old(modeAvailable), p, m) - (if cols.pool[idx] == p then {idx} else {})
    {
      var pool := cols.pool[idx];
      for mode := 0 to 5
        invariant forall p: Pool, m: ModeId ::
                    Bucket(modeAvailable, p, m) ==
                      Bucket(old(modeAvailable), p, m) - (if m < mode && pool == p then {idx} else {})
      {
        if Bucket(modeAvailable, pool, mode) != {} {
          modeAvailable := modeAvailable[(pool, mode) := modeAvailable[(pool, mode)] - {idx}];
        }
      }
    }

    method RemoveFromTagIdx(idx: nat, tags: set<string>)
      modifies this`tagIdx
      ensures forall tag ::
                TagBucket(tagIdx, tag) == TagBucket(old(tagIdx), tag) - (if tag in tags then {idx} else {})
    {
      var todo := tags;
      while todo != {}
        invariant todo <= tags
        invariant forall tag :: TagBucket(tagIdx, tag) ==
                    TagBucket(old(tagIdx), tag) - (if tag in tags - todo then {idx} else {})
        decreases todo
      {
        var tag :| tag in todo;
        if TagBucket(tagIdx, tag) != {} {
          tagIdx := tagIdx[tag := tagIdx[tag] - {idx}];
        }
        todo := todo - {tag};
      }
    }

    method AddToTagIdx(idx: nat, tags: set<string>)
      modifies this`tagIdx
      ensures forall tag ::
                TagBucket(tagIdx, tag) == TagBucket(old(tagIdx), tag) + (if tag in tags then {idx} else {})
    {
      var todo := tags;
      while todo != {}
        invariant todo <= tags
        invariant forall tag :: TagBucket(tagIdx, tag) ==
                    TagBucket(old(tagIdx), tag) + (if tag in tags - todo then {idx} else {})
        decreases todo
      {
        var tag :| tag in todo;
        tagIdx := tagIdx[tag := TagBucket(tagIdx, tag) + {idx}];
        todo := todo - {tag};
      }
    }

    // -------------------------------------------------------------------------
    // Slots
    // -------------------------------------------------------------------------

    method AppendSlot(token: string, a: SlotArgs) returns (idx: nat)
      requires Valid() && token !in idxByToken
      modifies this
      ensures Valid() && idx == |old(Rows())|
      ensures Rows() == old(Rows()) + [NewSlot(token, a)]
      ensures idxByToken == old(idxByToken)[token := idx]
      ensures revision == old(revision) && size == old(size) + 1
    {
      idx := |cols.token|;
      IndexNewToken(cols.token, idxByToken, token);
      cols.PushAddsOneRow(token, a);
      cols := cols.Push(token, a);
      idxByToken := idxByToken[token := idx];
      size := size + 1;
      AddToIndexes(idx);
      AddToTagIdx(idx, a.tags);
      RebucketOneSlot(old(cols), cols, old(modeAvailable), modeAvailable, idx);
      AppendedRow(old(cols), old(tagIdx), tagIdx, token, a);
    }

    method UpdateSlot(idx: nat, a: SlotArgs, oldTags: set<string>)
      requires Valid() && idx < |cols.token|
      requires oldTags == TagsOf(tagIdx, idx)
      modifies this
      ensures Valid()
      ensures Rows() == old(Rows())[idx := UpdatedSlot(old(Rows())[idx], a)]
      ensures idxByToken == old(idxByToken)
      ensures revision == old(revision) && size == old(size)
    {
      RemoveFromIndexes(idx);
      RemoveFromTagIdx(idx, oldTags);
      cols.PutChangesOneRow(idx, a);
      cols := cols.Put(idx, a);
      AddToIndexes(idx);
      AddToTagIdx(idx, a.tags);
      RebucketOneSlot(old(cols), cols, old(modeAvailable), modeAvailable, idx);
      RetagOneSlot(old(tagIdx), tagIdx, idx, oldTags, a.tags);
    }

    /** What both deletion paths of the sync do to a slot; its tag entries stay behind. */
    method MarkDeleted(idx: nat)
      requires Valid() && idx < |cols.token|
      modifies this
      ensures Valid()
      ensures Rows() == old(Rows())[idx := old(Rows())[idx].(status := DELETED)]
      ensures idxByToken == old(idxByToken)
      ensures revision == old(revision) && size == Max(0, old(size) - 1)
    {
      RemoveFromIndexes(idx);
      cols := cols.(status := cols.status[idx := DELETED]);
      size := Max(0, size - 1);
      RebucketOneSlot(old(cols), cols, old(modeAvailable), modeAvailable, idx);
    }
  }
}
