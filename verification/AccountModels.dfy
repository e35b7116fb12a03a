// The persistent account record, its quota policy and its lifecycle status, and the
// projection of one record onto the columns of the runtime table.
module AccountModels {

  datatype Option<+T> = None | Some(value: T)

  function Max(a: int, b: int): int { if a >= b then a else b }

  function Min(a: int, b: int): int { if a <= b then a else b }

  // ---------------------------------------------------------------------------
  // Enumerations
  // ---------------------------------------------------------------------------

  datatype Pool = Basic | Super | Heavy

  datatype AccountStatus = Active | Cooling | Expired | Disabled

  /** The status column: the four record statuses and DELETED, which only the table knows. */
  datatype StatusId = ACTIVE | COOLING | EXPIRED | DISABLED | DELETED

  function StatusColumn(s: AccountStatus): StatusId {
    match s
    case Active => ACTIVE
    case Cooling => COOLING
    case Expired => EXPIRED
    case Disabled => DISABLED
  }

  /** 0 auto, 1 fast, 2 expert, 3 heavy, 4 grok_4_3. */
  type ModeId = m: int | 0 <= m < 5

  /** One value per mode: the five parallel columns of a family at one slot. */
  datatype PerMode = PerMode(auto: int, fast: int, expert: int, heavy: int, grok43: int)
  {
    function Get(mode: ModeId): int {
      if mode == 0 then auto
      else if mode == 1 then fast
      else if mode == 2 then expert
      else if mode == 3 then heavy
      else grok43
    }

    function Set(mode: ModeId, v: int): PerMode {
      if mode == 0 then this.(auto := v)
      else if mode == 1 then this.(fast := v)
      else if mode == 2 then this.(expert := v)
      else if mode == 3 then this.(heavy := v)
      else this.(grok43 := v)
    }

    /** Every value cut to [lo, hi], as the typed columns store it. */
    function Clamp(lo: int, hi: int): PerMode
      requires lo <= hi
    {
      PerMode(Max(lo, Min(auto, hi)), Max(lo, Min(fast, hi)), Max(lo, Min(expert, hi)),
              Max(lo, Min(heavy, hi)), Max(lo, Min(grok43, hi)))
    }

    function AtLeastZero(): PerMode {
      PerMode(Max(0, auto), Max(0, fast), Max(0, expert), Max(0, heavy), Max(0, grok43))
    }
  }

  // ---------------------------------------------------------------------------
  // Records
  // ---------------------------------------------------------------------------

  datatype QuotaWindow = QuotaWindow(remaining: int, total: int, windowSeconds: int, resetAt: Option<nat>)
  {
    predicate IsExhausted() { remaining <= 0 }
  }

  datatype AccountQuotaSet = AccountQuotaSet(
    auto: QuotaWindow,
    fast: QuotaWindow,
    expert: QuotaWindow,
    heavy: Option<QuotaWindow>,
    grok43: Option<QuotaWindow>)
  {
    function Get(mode: ModeId): Option<QuotaWindow> {
      if mode == 0 then Some(auto)
      else if mode == 1 then Some(fast)
      else if mode == 2 then Some(expert)
      else if mode == 3 then heavy
      else grok43
    }
  }

  datatype AccountRecord = AccountRecord(
    token: string,
    pool: Pool,
    status: AccountStatus,
    tags: set<string>,
    quota: AccountQuotaSet,
    failCount: nat,
    lastUseAt: Option<nat>,
    lastFailAt: Option<nat>,
    cooldownUntil: Option<int>,
    deletedAt: Option<nat>,
    revision: nat)
  {
    predicate IsDeleted() { deletedAt.Some? }
  }

  /** The effective status: a cooldown that has run out counts as active. */
  function DeriveStatus(r: AccountRecord, now: int): AccountStatus {
    if r.status != Cooling then r.status
    else if r.cooldownUntil.None? then Cooling
    else if now >= r.cooldownUntil.value then Active
    else Cooling
  }

  /** The simple, record-level test that the runtime table speeds up. */
  predicate IsSelectable(r: AccountRecord, mode: ModeId, now: int) {
    && !r.IsDeleted()
    && DeriveStatus(r, now) == Active
    && r.quota.Get(mode).Some?
    && !r.quota.Get(mode).value.IsExhausted()
  }

  // ---------------------------------------------------------------------------
  // Quota policy
  // ---------------------------------------------------------------------------

  const BASIC_FAST_LIMIT := 30
  const BASIC_FAST_WINDOW_SECONDS := 86_400

  function Window(limit: int, seconds: int): QuotaWindow { QuotaWindow(limit, limit, seconds, None) }

  function DefaultQuotaSet(pool: Pool): AccountQuotaSet {
    match pool
    case Basic => AccountQuotaSet(Window(0, 0), Window(BASIC_FAST_LIMIT, BASIC_FAST_WINDOW_SECONDS), Window(0, 0),
      None, None)
    case Super => AccountQuotaSet(Window(50, 7_200), Window(140, 7_200), Window(50, 7_200), None,
      Some(Window(50, 7_200)))
    case Heavy => AccountQuotaSet(Window(150, 7_200), Window(400, 7_200), Window(150, 7_200),
                                  Some(Window(20, 7_200)), Some(Window(150, 7_200)))
  }

  predicate SupportsMode(pool: Pool, mode: ModeId) {
    match pool
    case Basic => mode == 1
    case Super => mode in {0, 1, 2, 4}
    case Heavy => true
  }

  function NormalizeQuotaWindow(pool: Pool, mode: ModeId, w: Option<QuotaWindow>): Option<QuotaWindow> {
    if w.None? || !SupportsMode(pool, mode) then None
    else if pool == Basic && mode == 1 then
      Some(QuotaWindow(Max(0, Min(w.value.remaining, BASIC_FAST_LIMIT)), BASIC_FAST_LIMIT,
                       BASIC_FAST_WINDOW_SECONDS, w.value.resetAt))
    else w
  }

  function OrElse(w: Option<QuotaWindow>, d: QuotaWindow): QuotaWindow { if w.Some? then w.value else d }

  function NormalizeQuotaSet(pool: Pool, q: AccountQuotaSet): AccountQuotaSet {
    var d := DefaultQuotaSet(pool);
    AccountQuotaSet(
      OrElse(NormalizeQuotaWindow(pool, 0, Some(q.auto)), d.auto),
      OrElse(NormalizeQuotaWindow(pool, 1, Some(q.fast)), d.fast),
      OrElse(NormalizeQuotaWindow(pool, 2, Some(q.expert)), d.expert),
      NormalizeQuotaWindow(pool, 3, q.heavy),
      NormalizeQuotaWindow(pool, 4, q.grok43))
  }

  /** Normalising is a projection: a normalised set is left alone. */
  lemma NormalizeIsIdempotent(pool: Pool, q: AccountQuotaSet)
    ensures NormalizeQuotaSet(pool, NormalizeQuotaSet(pool, q)) == NormalizeQuotaSet(pool, q)
    ensures NormalizeQuotaSet(pool, DefaultQuotaSet(pool)) == DefaultQuotaSet(pool)
  {
  }

  /** After normalising, exactly the supported modes can have a window of positive length or quota left. */
  lemma NormalizedSupport(pool: Pool, q: AccountQuotaSet, mode: ModeId)
    ensures var w := NormalizeQuotaSet(pool, q).Get(mode);
            w.Some? && (w.value.windowSeconds > 0 || w.value.remaining > 0) ==> SupportsMode(pool, mode)
    ensures var w := DefaultQuotaSet(pool).Get(mode);
            w.Some? && w.value.windowSeconds > 0 && w.value.remaining > 0 <==> SupportsMode(pool, mode)
  {
  }

  // ---------------------------------------------------------------------------
  // Projection of a record onto the table columns
  // ---------------------------------------------------------------------------

  datatype SlotArgs = SlotArgs(
    pool: Pool,
    status: StatusId,
    quota: PerMode,
    total: PerMode,
    window: PerMode,
    reset: PerMode,
    health: real,
    lastUse: nat,
    lastFail: nat,
    failCount: nat,
    tags: set<string>)

  function QuotaOf(w: Option<QuotaWindow>): int { if w.Some? then Max(0, w.value.remaining) else -1 }

  function TotalOf(w: Option<QuotaWindow>): int { if w.Some? then Max(0, w.value.total) else 0 }

  function WindowOf(w: Option<QuotaWindow>): int { if w.Some? then Max(0, w.value.windowSeconds) else 0 }

  function ResetOf(w: Option<QuotaWindow>): int {
    if w.Some? && w.value.resetAt.Some? then w.value.resetAt.value / 1000 else 0
  }

  function EachMode(q: AccountQuotaSet, f: Option<QuotaWindow> -> int): PerMode {
    PerMode(f(Some(q.auto)), f(Some(q.fast)), f(Some(q.expert)), f(q.heavy), f(q.grok43))
  }

  function SecondsOf(at: Option<nat>): nat { if at.Some? then at.value / 1000 else 0 }

  function RecordToSlotArgs(r: AccountRecord, now: int): SlotArgs {
    var q := NormalizeQuotaSet(r.pool, r.quota);
    SlotArgs(
      r.pool,
      StatusColumn(DeriveStatus(r, now)),
      EachMode(q, w => QuotaOf(w)),
      EachMode(q, w => TotalOf(w)),
      EachMode(q, w => WindowOf(w)),
      EachMode(q, w => ResetOf(w)),
      1.0,
      SecondsOf(r.lastUseAt),
      SecondsOf(r.lastFailAt),
      r.failCount,
      r.tags)
  }

  /** A record that reaches a bucket has a pool that supports the bucket's mode. */
  lemma SlotWindowsAreSupported(r: AccountRecord, now: int, mode: ModeId)
    ensures RecordToSlotArgs(r, now).window.Get(mode) > 0 ==> SupportsMode(r.pool, mode)
    ensures RecordToSlotArgs(r, now).quota.Get(mode) > 0 ==> SupportsMode(r.pool, mode)
  {
    NormalizedSupport(r.pool, r.quota, mode);
  }
}
