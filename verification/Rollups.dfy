/** The daily rollups under every interleaving of ingestion, rebuilding and retention. */
module Rollups {
  import opened Calendar
  import opened Activity
  import opened Summaries
  import opened Recorder
  import opened Tiling
  import opened Freshness

  // ---- The rebuild query --------------------------------------------------------------

  const LIMIT: nat := 20_000

  /** `ids` lists every key of `m` once. */
  ghost predicate Lists<V>(ids: seq<nat>, m: map<nat, V>) {
    && (forall i, j | 0 <= i < j < |ids| :: ids[i] != ids[j])
    && (forall n :: n in ids <==> n in m)
  }

  ghost predicate ByStart(rows: seq<Interval>) {
    forall i, j | 0 <= i < j < |rows| :: rows[i].started <= rows[j].started
  }

  ghost predicate Reads(ids: seq<nat>, m: map<nat, Interval>, rows: seq<Interval>) {
    Lists(ids, m) && |rows| == |ids| && forall i | 0 <= i < |ids| :: rows[i] == m[ids[i]]
  }

  /** `rows` is a result of the query: the selected intervals, each once, by start. */
  ghost predicate Enumerates(rows: seq<Interval>, m: map<nat, Interval>) {
    ByStart(rows) && exists ids: seq<nat> :: Reads(ids, m, rows)
  }

  function DayStart(p: Policy, k: Key): Instant
    requires k.zone < |p.zones|
  {
    p.zones[k.zone].start(k.day)
  }

  /** The summarized part of a day: never beyond the moment of the rebuild. */
  function DayEndAt(p: Policy, k: Key, when: Instant): Instant
    requires k.zone < |p.zones|
  {
    var end := p.zones[k.zone].start(k.day + 1);
    if when < end then when else end
  }

  /** The window of day `k` summarized at `at`: from its start to its end, or to `at` if that is
      earlier. */
  ghost predicate IsWindow(p: Policy, k: Key, at: Instant, lo: Instant, hi: Instant)
    requires k.zone < |p.zones|
  {
    var z := p.zones[k.zone];
    && lo == z.start(k.day)
    && hi <= z.start(k.day + 1) && hi <= at && (hi == z.start(k.day + 1) || hi == at)
  }

  lemma WindowOfDay(p: Policy, k: Key, at: Instant, lo: Instant, hi: Instant)
    requires k.zone < |p.zones|
    ensures IsWindow(p, k, at, lo, hi) <==> lo == DayStart(p, k) && hi == DayEndAt(p, k, at)
  {
  }

  ghost predicate SummaryOfDay(p: Policy, all: map<nat, Interval>, k: Key, when: Instant, v: Summary)
    requires k.zone < |p.zones|
  {
    exists rows :: Enumerates(rows, Touching(p, all, k)) && Summarizes(rows, DayStart(p, k), DayEndAt(p, k, when), v)
  }

  // ---- The ledger ---------------------------------------------------------------------

  /** A rebuild of one day in progress: the row is locked, then its intervals are read. */
  datatype Lock = Held(when: Instant) | Computed(when: Instant, payload: Option<Summary>)

  /** The store, the clock, the row locks of the rebuild worker and, for stating what is kept,
      the intervals retention removed and all samples ever accepted. */
  datatype Ledger = Ledger(
    store: Store, dead: map<nat, Interval>, history: map<Device, seq<Heard>>, now: Instant, locks: map<Key, Lock>)

  datatype Action =
    | Ingest(device: Device, sample: Sample, at: Instant)
    | LockDay(key: Key, when: Instant)
    | ReadDay(key: Key, payload: Option<Summary>)
    | CommitDay(key: Key)
    | AbortDay(key: Key)
    | Retain(victims: set<nat>, staleDays: set<Key>, staleCursors: set<Device>, at: Instant)

  /** The first instant retention must keep: the oldest detailed day in every zone. */
  function OldestKept(p: Policy, at: Instant, n: nat): Instant
    requires 0 < n <= |p.zones|
  {
    var z := p.zones[n - 1];
    var own := z.start(z.date(at) - p.detailDays);
    if n == 1 then own
    else
      var rest := OldestKept(p, at, n - 1);
      if own < rest then own else rest
  }

  predicate HasDirtyDay(s: Store, user: string) { exists k :: k in s.days && k.user == user && s.days[k].dirty }

  /** Retention may delete an interval that ended before the window unless its user still has a
      day to rebuild. */
  predicate Deletable(p: Policy, s: Store, at: Instant, i: Interval)
    requires |p.zones| > 0
  {
    i.ended < OldestKept(p, at, |p.zones|) && (i.reading.user.Some? ==> !HasDirtyDay(s, i.reading.user.value))
  }

  function UtcDay(t: Instant): int { t / 86_400_000_000 }

  predicate StaleDay(p: Policy, at: Instant, k: Key) { k.day < UtcDay(at - Days(p.aggregateDays)) }

  predicate StaleCursor(p: Policy, at: Instant, c: Cursor) { c.last < at - Days(p.aggregateDays) }

  /** Live bounds on a sample: at most a day late, at most five minutes early. */
  predicate Timely(b: Sample, at: Instant) { at - Days(1) <= b.when <= at + Seconds(300) }

  ghost predicate Enabled(p: Policy, g: Ledger, e: Action)
    requires |p.zones| > 0
  {
    match e
    case Ingest(device, b, at) =>
      g.now <= at && Timely(b, at) && SampleKeys(p, g.store, device, b) !! g.locks.Keys
    case LockDay(k, when) =>
      k in g.store.days && g.store.days[k].dirty && k.zone < |p.zones| && k !in g.locks
    case ReadDay(k, payload) =>
      && k in g.locks && g.locks[k].Held? && k.zone < |p.zones|
      && (match payload
          case None => |Touching(p, g.store.intervals, k)| > LIMIT
          case Some(v) =>
            && |Touching(p, g.store.intervals, k)| <= LIMIT
            && SummaryOfDay(p, g.store.intervals, k, g.locks[k].when, v))
    case CommitDay(k) => k in g.locks && g.locks[k].Computed? && k in g.store.days
    case AbortDay(k) => k in g.locks
    case Retain(victims, staleDays, staleCursors, at) =>
      && g.now <= at
      && (forall n | n in victims :: n in g.store.intervals && Deletable(p, g.store, at, g.store.intervals[n]))
      && (forall k | k in staleDays :: StaleDay(p, at, k)) && staleDays !! g.locks.Keys
      && (forall d | d in staleCursors :: d in g.store.cursors && StaleCursor(p, at, g.store.cursors[d]))
  }

  function HistoryOf(g: Ledger, device: Device): seq<Heard> { if device in g.history then g.history[device] else [] }

  /** Publishing a rebuilt day; an oversized day only moves to the back of the queue. */
  function Publish(row: DayRow, when: Instant, payload: Option<Summary>): DayRow {
    if payload.Some? then DayRow(payload, false, when) else row.(updatedAt := when)
  }

  /** A cursor loses its interval when that interval is deleted. */
  function Forget(c: Cursor, victims: set<nat>): Cursor {
    if c.interval.Some? && c.interval.value in victims then c.(interval := None) else c
  }

  function Retained(s: Store, victims: set<nat>, staleDays: set<Key>, staleCursors: set<Device>): Store {
    s.(intervals := s.intervals - victims,
       days := s.days - staleDays,
       cursors := map d | d in s.cursors && d !in staleCursors :: Forget(s.cursors[d], victims))
  }

  ghost function Next(p: Policy, g: Ledger, e: Action): Ledger
    requires ValidPolicy(p) && Enabled(p, g, e)
  {
    match e
    case Ingest(device, b, at) =>
      var h := HistoryOf(g, device);
      var h' := if Ignored(g.store, device, b) then h else Extended(g.store, device, h, b);
      g.(store := Record(p, g.store, device, b), history := g.history[device := h'], now := at)
    case LockDay(k, when) => g.(locks := g.locks[k := Held(when)])
    case ReadDay(k, payload) => g.(locks := g.locks[k := Computed(g.locks[k].when, payload)])
    case CommitDay(k) =>
      var row := Publish(g.store.days[k], g.locks[k].when, g.locks[k].payload);
      g.(store := g.store.(days := g.store.days[k := row]), locks := g.locks - {k})
    case AbortDay(k) => g.(locks := g.locks - {k})
    case Retain(victims, staleDays, staleCursors, at) =>
      g.(store := Retained(g.store, victims, staleDays, staleCursors),
         dead := g.dead + map n | n in victims && n in g.store.intervals :: g.store.intervals[n],
         now := at)
  }

  // ---- What every run keeps -----------------------------------------------------------

  /** When retention runs at `at`, the last instant it may delete lies in a local day of zone `i`
      that ended at least 48 hours before. */
  ghost predicate ClearsAt(p: Policy, at: Instant, i: nat)
    requires i < |p.zones|
  {
    var z := p.zones[i];
    z.start(z.date(OldestKept(p, at, |p.zones|) - 1) + 1) <= at - Days(2)
  }

  /** Retention always keeps clear of every day that a late sample can still reach. */
  ghost predicate WindowClears(p: Policy) {
    forall i: nat, at | i < |p.zones| :: ClearsAt(p, at, i)
  }

  ghost function All(g: Ledger): map<nat, Interval> { AllOf(g.store, g.dead) }

  /** A device's intervals, removed ones included, tell all its samples. */
  ghost predicate DeviceTracked(p: Policy, g: Ledger, d: Device)
    requires |p.zones| > 0
  {
    if d in g.store.cursors then Tracks(p, g.store, g.dead, d, HistoryOf(g, d))
    else Quiet(p, g.store, g.dead, d, HistoryOf(g, d), g.now - Days(1))
  }

  ghost predicate Tracked(p: Policy, g: Ledger)
    requires |p.zones| > 0
  {
    Tiled(p, g.store, g.dead) && forall d :: DeviceTracked(p, g, d)
  }

  /** A removed interval touches only days outside the detail window and over 48 hours past,
      and none of them is waiting to be rebuilt. */
  ghost predicate Buried(p: Policy, g: Ledger, i: Interval, k: Key) {
    Touches(p, i, k) ==>
      && k.day < p.zones[k.zone].date(g.now) - p.detailDays
      && p.zones[k.zone].start(k.day + 1) <= g.now - Days(2)
      && (k in g.store.days ==> !g.store.days[k].dirty)
  }

  ghost predicate AllBuried(p: Policy, g: Ledger) {
    forall n, k | n in g.dead :: Buried(p, g, g.dead[n], k)
  }

  /** Every clean day reports the summary of its complete history. */
  ghost predicate Coherent(p: Policy, g: Ledger) {
    forall k | k in g.store.days && !g.store.days[k].dirty && k.zone < |p.zones| ::
      var row := g.store.days[k];
      row.payload.Some? && SummaryOfDay(p, All(g), k, row.updatedAt, row.payload.value)
  }

  /** A locked day is still dirty, and what was read under the lock is still current. */
  ghost predicate LocksCurrent(p: Policy, g: Ledger) {
    forall k | k in g.locks ::
      && k.zone < |p.zones| && k in g.store.days && g.store.days[k].dirty
      && (g.locks[k].Computed? && g.locks[k].payload.Some? ==>
            SummaryOfDay(p, g.store.intervals, k, g.locks[k].when, g.locks[k].payload.value))
  }

  ghost predicate Inv(p: Policy, g: Ledger)
    requires |p.zones| > 0
  {
    Tracked(p, g) && AllBuried(p, g) && Coherent(p, g) && LocksCurrent(p, g)
  }

  ghost function Start(now: Instant): Ledger {
    Ledger(Store(map[], 0, map[], map[]), map[], map[], now, map[])
  }

  // ---- Ingestion ----------------------------------------------------------------------

  /** The sample's days end less than 48 hours before it arrives. */
  lemma SampleKeysRecent(p: Policy, s: Store, device: Device, b: Sample, at: Instant, k: Key)
    requires ValidPolicy(p) && Timely(b, at) && k in SampleKeys(p, s, device, b)
    ensures k.zone < |p.zones| && at - Days(2) < p.zones[k.zone].start(k.day + 1)
  {
    var z := p.zones[k.zone];
    if k in DayKeys(p, b.user, b.when, b.when) {
      StartedByDate(z, k.day + 1, b.when);
    } else {
      StartedByDate(z, k.day + 1, AccountedFrom(p, s, device, b));
    }
  }

  /** Any other device keeps its cursor, its history and its intervals. */
  lemma OthersStillTracked(p: Policy, g: Ledger, s': Store, device: Device, d: Device, now': Instant)
    requires |p.zones| > 0 && Tracked(p, g) && d != device && WellKeyed(s', g.dead) && g.now <= now'
    requires LeavesOthers(g.store, s', device) && s'.cursors - {device} == g.store.cursors - {device}
    ensures d in s'.cursors ==> Tracks(p, s', g.dead, d, HistoryOf(g, d))
    ensures d !in s'.cursors ==> Quiet(p, s', g.dead, d, HistoryOf(g, d), now' - Days(1))
  {
    assert DeviceTracked(p, g, d);
    assert d in s'.cursors <==> d in s'.cursors - {device};
    assert d in g.store.cursors <==> d in g.store.cursors - {device};
    if d in s'.cursors {
      assert s'.cursors[d] == (s'.cursors - {device})[d] == (g.store.cursors - {device})[d] == g.store.cursors[d];
      TracksUnaffected(p, g.store, s', g.dead, device, d, HistoryOf(g, d));
    } else {
      QuietUnaffected(p, g.store, s', g.dead, device, d, HistoryOf(g, d), g.now - Days(1));
      QuietLater(p, s', g.dead, d, HistoryOf(g, d), g.now - Days(1), now' - Days(1));
    }
  }

  /** A sample that arrives finds its device tracked, or quiet since before it was taken. */
  lemma ReadyToRecord(p: Policy, g: Ledger, device: Device, b: Sample, at: Instant)
    requires |p.zones| > 0 && Tracked(p, g) && g.now <= at && Timely(b, at)
    ensures device in g.store.cursors ==> Tracks(p, g.store, g.dead, device, HistoryOf(g, device))
    ensures device !in g.store.cursors ==> Quiet(p, g.store, g.dead, device, HistoryOf(g, device), b.when)
  {
    assert DeviceTracked(p, g, device);
    if device !in g.store.cursors {
      QuietLater(p, g.store, g.dead, device, HistoryOf(g, device), g.now - Days(1), b.when);
    }
  }

  lemma AcceptTracked(p: Policy, g: Ledger, device: Device, b: Sample, at: Instant)
    requires ValidPolicy(p) && Tracked(p, g) && g.now <= at && Timely(b, at) && !Ignored(g.store, device, b)
    ensures var s' := Record(p, g.store, device, b);
      && Tiled(p, s', g.dead) && Tracks(p, s', g.dead, device, Extended(g.store, device, HistoryOf(g, device), b))
      && LeavesOthers(g.store, s', device) && s'.cursors - {device} == g.store.cursors - {device}
  {
    ReadyToRecord(p, g, device, b, at);
    RecordTracks(p, g.store, g.dead, device, HistoryOf(g, device), b);
    RecordLeavesOthers(p, g.store, device, b);
  }

  lemma IgnoredTracked(p: Policy, g: Ledger, g': Ledger)
    requires |p.zones| > 0 && Tracked(p, g) && g.now <= g'.now
    requires g'.store == g.store && g'.dead == g.dead && forall d :: HistoryOf(g', d) == HistoryOf(g, d)
    ensures Tracked(p, g')
  {
    forall d ensures DeviceTracked(p, g', d) {
      assert DeviceTracked(p, g, d);
      if d !in g.store.cursors {
        QuietLater(p, g.store, g.dead, d, HistoryOf(g, d), g.now - Days(1), g'.now - Days(1));
      }
    }
  }

  lemma TrackedAfter(p: Policy, g: Ledger, g': Ledger, device: Device)
    requires |p.zones| > 0 && Tracked(p, g) && g'.dead == g.dead && g.now <= g'.now
    requires Tiled(p, g'.store, g.dead) && g'.history - {device} == g.history - {device}
    requires Tracks(p, g'.store, g.dead, device, HistoryOf(g', device))
    requires LeavesOthers(g.store, g'.store, device) && g'.store.cursors - {device} == g.store.cursors - {device}
    ensures Tracked(p, g')
  {
    forall d ensures DeviceTracked(p, g', d) {
      if d != device {
        SameHistory(g, g', device, d);
        OthersStillTracked(p, g, g'.store, device, d, g'.now);
      }
    }
  }

  lemma SameHistory(g: Ledger, g': Ledger, device: Device, d: Device)
    requires g'.history - {device} == g.history - {device} && d != device
    ensures HistoryOf(g', d) == HistoryOf(g, d)
  {
    assert d in g'.history <==> d in g'.history - {device};
    assert d in g.history <==> d in g.history - {device};
    if d in g.history { assert g'.history[d] == (g'.history - {device})[d] == (g.history - {device})[d] == g.history[d]; }
  }

  lemma OneChanged<K, V>(m: map<K, V>, k: K, v: V)
    ensures m[k := v] - {k} == m - {k}
  {
  }

  lemma IngestTracked(p: Policy, g: Ledger, e: Action)
    requires ValidPolicy(p) && Tracked(p, g) && Enabled(p, g, e) && e.Ingest?
    ensures Tracked(p, Next(p, g, e))
  {
    var (device, g') := (e.device, Next(p, g, e));
    if Ignored(g.store, device, e.sample) {
      IgnoredTracked(p, g, g');
    } else {
      AcceptTracked(p, g, device, e.sample, e.at);
      OneChanged(g.history, device, g'.history[device]);
      TrackedAfter(p, g, g', device);
    }
  }

  lemma IngestAccounted(p: Policy, g: Ledger, e: Action)
    requires ValidPolicy(p) && Tracked(p, g) && Enabled(p, g, e) && e.Ingest?
    ensures Accounted(p, g.store, Next(p, g, e).store, g.dead, SampleKeys(p, g.store, e.device, e.sample))
  {
    ReadyToRecord(p, g, e.device, e.sample, e.at);
    RecordAccounted(p, g.store, g.dead, e.device, HistoryOf(g, e.device), e.sample);
  }

  lemma IngestBuried(p: Policy, g: Ledger, e: Action)
    requires ValidPolicy(p) && Tracked(p, g) && AllBuried(p, g) && Enabled(p, g, e) && e.Ingest?
    ensures AllBuried(p, Next(p, g, e))
  {
    IngestAccounted(p, g, e);
    var g' := Next(p, g, e);
    forall n, k | n in g'.dead ensures Buried(p, g', g'.dead[n], k) {
      assert Buried(p, g, g.dead[n], k);
      if Touches(p, g.dead[n], k) {
        if k in SampleKeys(p, g.store, e.device, e.sample) {
          SampleKeysRecent(p, g.store, e.device, e.sample, e.at, k);
        }
        DateMonotone(p.zones[k.zone], g.now, g'.now);
      }
    }
  }

  lemma SameTouchingStored(p: Policy, s: Store, s': Store, dead: map<nat, Interval>, k: Key)
    requires WellKeyed(s, dead) && WellKeyed(s', dead)
    requires Touching(p, AllOf(s, dead), k) == Touching(p, AllOf(s', dead), k)
    ensures Touching(p, s.intervals, k) == Touching(p, s'.intervals, k)
  {
    forall n ensures n in Touching(p, s.intervals, k) <==> n in Touching(p, s'.intervals, k) {
      assert n in Touching(p, AllOf(s, dead), k) <==> n in Touching(p, AllOf(s', dead), k);
    }
    forall n | n in Touching(p, s.intervals, k) ensures s.intervals[n] == s'.intervals[n] {
      assert Touching(p, AllOf(s, dead), k)[n] == Touching(p, AllOf(s', dead), k)[n];
    }
  }

  lemma IngestCoherent(p: Policy, g: Ledger, e: Action)
    requires ValidPolicy(p) && Tracked(p, g) && Coherent(p, g) && Enabled(p, g, e) && e.Ingest?
    ensures Coherent(p, Next(p, g, e))
  {
    IngestAccounted(p, g, e);
    var (g', ks) := (Next(p, g, e), SampleKeys(p, g.store, e.device, e.sample));
    forall k | k in g'.store.days && !g'.store.days[k].dirty && k.zone < |p.zones|
      ensures g'.store.days[k].payload.Some?
           && SummaryOfDay(p, All(g'), k, g'.store.days[k].updatedAt, g'.store.days[k].payload.value)
    {
      assert k !in ks;
      assert Touching(p, All(g), k) == Touching(p, All(g'), k);
    }
  }

  lemma IngestLocks(p: Policy, g: Ledger, e: Action)
    requires ValidPolicy(p) && Tracked(p, g) && LocksCurrent(p, g) && Enabled(p, g, e) && e.Ingest?
    ensures LocksCurrent(p, Next(p, g, e))
  {
    IngestAccounted(p, g, e);
    IngestTracked(p, g, e);
    var (g', ks) := (Next(p, g, e), SampleKeys(p, g.store, e.device, e.sample));
    forall k | k in g'.locks
      ensures k in g'.store.days && g'.store.days[k].dirty
      ensures Touching(p, g.store.intervals, k) == Touching(p, g'.store.intervals, k)
    {
      assert k !in ks;
      SameTouchingStored(p, g.store, g'.store, g.dead, k);
    }
  }

  // ---- Rebuilding ---------------------------------------------------------------------

  /** A dirty day has lost no interval to retention. */
  lemma DirtyDayComplete(p: Policy, g: Ledger, k: Key)
    requires AllBuried(p, g) && WellKeyed(g.store, g.dead) && k in g.store.days && g.store.days[k].dirty
    ensures Touching(p, All(g), k) == Touching(p, g.store.intervals, k)
  {
    forall n | n in g.dead ensures !Touches(p, g.dead[n], k) {
      assert Buried(p, g, g.dead[n], k);
    }
  }

  lemma RebuildTracked(p: Policy, g: Ledger, g': Ledger)
    requires |p.zones| > 0 && Tracked(p, g)
    requires g'.store.intervals == g.store.intervals && g'.store.nextId == g.store.nextId && g'.store.cursors == g.store.cursors
    requires g'.dead == g.dead && g'.history == g.history && g'.now == g.now
    ensures Tracked(p, g')
  {
    assert All(g') == All(g);
    forall d ensures DeviceTracked(p, g', d) {
      assert DeviceTracked(p, g, d);
    }
  }

  /** Publishing writes the summary of the complete history: nothing read under the lock has
      changed, and a dirty day is complete. */
  lemma CommitKeeps(p: Policy, g: Ledger, e: Action)
    requires ValidPolicy(p) && Inv(p, g) && Enabled(p, g, e) && e.CommitDay?
    ensures var g' := Next(p, g, e); AllBuried(p, g') && Coherent(p, g') && LocksCurrent(p, g')
  {
    var g' := Next(p, g, e);
    assert All(g') == All(g);
    DirtyDayComplete(p, g, e.key);
    forall n, k | n in g'.dead ensures Buried(p, g', g'.dead[n], k) {
      assert Buried(p, g, g.dead[n], k);
    }
  }

  lemma LockKeeps(p: Policy, g: Ledger, e: Action)
    requires ValidPolicy(p) && LocksCurrent(p, g) && Enabled(p, g, e) && (e.LockDay? || e.ReadDay? || e.AbortDay?)
    ensures LocksCurrent(p, Next(p, g, e))
  {
  }

  lemma SameStoreKeeps(p: Policy, g: Ledger, g': Ledger)
    requires AllBuried(p, g) && Coherent(p, g)
    requires g'.store == g.store && g'.dead == g.dead && g'.now == g.now
    ensures AllBuried(p, g') && Coherent(p, g')
  {
    assert All(g') == All(g);
    forall n, k | n in g'.dead ensures Buried(p, g', g'.dead[n], k) {
      assert Buried(p, g, g.dead[n], k);
    }
  }

  lemma RebuildKeeps(p: Policy, g: Ledger, e: Action)
    requires ValidPolicy(p) && Inv(p, g) && Enabled(p, g, e) && !e.Ingest? && !e.Retain?
    ensures Inv(p, Next(p, g, e))
  {
    RebuildTracked(p, g, Next(p, g, e));
    if e.CommitDay? {
      CommitKeeps(p, g, e);
    } else {
      SameStoreKeeps(p, g, Next(p, g, e));
      LockKeeps(p, g, e);
    }
  }

  // ---- Retention ----------------------------------------------------------------------

  lemma {:induction false} OldestKeptIsLeast(p: Policy, at: Instant, n: nat)
    requires 0 < n <= |p.zones|
    ensures forall i | 0 <= i < n :: OldestKept(p, at, n) <= p.zones[i].start(p.zones[i].date(at) - p.detailDays)
  {
    if n > 1 { OldestKeptIsLeast(p, at, n - 1); }
  }

  lemma {:induction false} OldestKeptIsSome(p: Policy, at: Instant, n: nat) returns (i: nat)
    requires 0 < n <= |p.zones|
    ensures i < n && OldestKept(p, at, n) == p.zones[i].start(p.zones[i].date(at) - p.detailDays)
  {
    if n == 1 {
      i := 0;
    } else {
      i := OldestKeptIsSome(p, at, n - 1);
      if p.zones[n - 1].start(p.zones[n - 1].date(at) - p.detailDays) < OldestKept(p, at, n - 1) { i := n - 1; }
    }
  }

  /** Retention may delete an interval exactly if it ended before the first detailed day of every
      zone, and it is nobody's or its user has no dirty day. */
  lemma DeletableExactly(p: Policy, s: Store, at: Instant, i: Interval)
    requires |p.zones| > 0
    ensures Deletable(p, s, at, i) <==>
      && (forall n | 0 <= n < |p.zones| :: i.ended < p.zones[n].start(p.zones[n].date(at) - p.detailDays))
      && (forall k | k in s.days && i.reading.user == Some(k.user) :: !s.days[k].dirty)
  {
    OldestKeptIsLeast(p, at, |p.zones|);
    var n := OldestKeptIsSome(p, at, |p.zones|);
  }

  /** A day expires once it has ended, in UTC, for as long as aggregates are kept. */
  lemma StaleExactly(p: Policy, at: Instant, k: Key)
    ensures StaleDay(p, at, k) <==> Days(k.day + 1) <= at - Days(p.aggregateDays)
  {
  }

  /** A sample is taken in exactly if it is at most a day late and five minutes early, and no day it
      marks is locked by a rebuild. */
  lemma TakenInExactly(p: Policy, g: Ledger, device: Device, b: Sample, at: Instant)
    requires |p.zones| > 0 && g.now <= at
    ensures Enabled(p, g, Ingest(device, b, at)) <==>
      && at - b.when <= Days(1) && b.when - at <= Seconds(5 * 60)
      && forall k | k in SampleKeys(p, g.store, device, b) :: k !in g.locks
  {
  }

  /** A sample becomes part of its device's history exactly if it is later than the last one and no
      repetition of it, or the device has no cursor; it is marked as resumed if the interval before
      it is still stored. */
  lemma SampleJoinsHistory(p: Policy, g: Ledger, e: Action, d: Device)
    requires ValidPolicy(p) && Enabled(p, g, e) && e.Ingest?
    ensures var (h, cursors, b) := (HistoryOf(g, d), g.store.cursors, e.sample);
      var accepted := e.device !in cursors || (cursors[e.device].last < b.when && cursors[e.device].observation != b.id);
      HistoryOf(Next(p, g, e), d) ==
        if d != e.device || !accepted then h
        else h + [Heard(b, d in cursors && cursors[d].interval.Some? && cursors[d].interval.value in g.store.intervals)]
  {
  }

  lemma RetainAll(p: Policy, g: Ledger, e: Action)
    requires ValidPolicy(p) && WellKeyed(g.store, g.dead) && Enabled(p, g, e) && e.Retain?
    ensures var g' := Next(p, g, e); All(g') == All(g) && WellKeyed(g'.store, g'.dead)
  {
  }

  lemma RetainTracks(p: Policy, g: Ledger, e: Action, d: Device)
    requires ValidPolicy(p) && Tracked(p, g) && Enabled(p, g, e) && e.Retain?
    requires d in g.store.cursors && d !in e.staleCursors
    ensures Tracks(p, Next(p, g, e).store, Next(p, g, e).dead, d, HistoryOf(g, d))
  {
    var g' := Next(p, g, e);
    RetainAll(p, g, e);
    assert DeviceTracked(p, g, d);
    assert g'.store.cursors[d] == Forget(g.store.cursors[d], e.victims);
  }

  /** A device whose cursor expired has been quiet for more than a day. */
  lemma ExpiredIsQuiet(p: Policy, s: Store, dead: map<nat, Interval>, d: Device, h: seq<Heard>, at: Instant)
    requires ValidPolicy(p) && Tracks(p, s, dead, d, h) && StaleCursor(p, at, s.cursors[d])
    ensures Quiet(p, s, dead, d, h, at - Days(1))
  {
    forall t | t < at - Days(1) && ReadingAt(p, h, t).Some? ensures exists n :: On(AllOf(s, dead), d, n, t) {
      NothingSince(p, h, t);
    }
  }

  lemma RetainQuiet(p: Policy, g: Ledger, e: Action, d: Device)
    requires ValidPolicy(p) && Tracked(p, g) && Enabled(p, g, e) && e.Retain?
    requires d !in g.store.cursors || d in e.staleCursors
    ensures Quiet(p, Next(p, g, e).store, Next(p, g, e).dead, d, HistoryOf(g, d), e.at - Days(1))
  {
    RetainAll(p, g, e);
    assert DeviceTracked(p, g, d);
    if d in g.store.cursors {
      ExpiredIsQuiet(p, g.store, g.dead, d, HistoryOf(g, d), e.at);
    } else {
      QuietLater(p, g.store, g.dead, d, HistoryOf(g, d), g.now - Days(1), e.at - Days(1));
    }
  }

  lemma RetainDevice(p: Policy, g: Ledger, e: Action, d: Device)
    requires ValidPolicy(p) && Tracked(p, g) && Enabled(p, g, e) && e.Retain?
    ensures var g' := Next(p, g, e); DeviceTracked(p, g', d)
  {
    if d in g.store.cursors && d !in e.staleCursors {
      RetainTracks(p, g, e, d);
    } else {
      RetainQuiet(p, g, e, d);
    }
  }

  lemma RetainTiled(p: Policy, g: Ledger, e: Action)
    requires ValidPolicy(p) && Tracked(p, g) && Enabled(p, g, e) && e.Retain?
    ensures var g' := Next(p, g, e); Tiled(p, g'.store, g'.dead)
  {
    RetainAll(p, g, e);
  }

  lemma RetainTracked(p: Policy, g: Ledger, e: Action)
    requires ValidPolicy(p) && Tracked(p, g) && Enabled(p, g, e) && e.Retain?
    ensures Tracked(p, Next(p, g, e))
  {
    RetainTiled(p, g, e);
    forall d ensures DeviceTracked(p, Next(p, g, e), d) {
      RetainDevice(p, g, e, d);
    }
  }

  lemma BeforeWindow(z: Zone, oldest: int, day: int, ended: Instant, last: Instant)
    requires ValidZone(z) && z.start(day) <= ended <= last < z.start(oldest)
    ensures day < oldest && z.start(day + 1) <= z.start(z.date(last) + 1)
  {
    if oldest <= day { StartMonotone(z, oldest, day); }
    StartedByDate(z, day, last);
    StartMonotone(z, day + 1, z.date(last) + 1);
  }

  /** What retention may delete lies before the detail window, over 48 hours back, and waits for
      no rebuild. */
  lemma DeletedIsBuried(p: Policy, g: Ledger, g': Ledger, at: Instant, i: Interval, k: Key)
    requires ValidPolicy(p) && WindowClears(p) && Deletable(p, g.store, at, i) && Touches(p, i, k)
    requires g'.now == at
    requires k in g'.store.days ==> k in g.store.days && g'.store.days[k] == g.store.days[k]
    ensures Buried(p, g', i, k)
  {
    var z := p.zones[k.zone];
    OldestKeptIsLeast(p, at, |p.zones|);
    assert ClearsAt(p, at, k.zone);
    BeforeWindow(z, z.date(at) - p.detailDays, k.day, i.ended, OldestKept(p, at, |p.zones|) - 1);
  }

  lemma StaysBuried(p: Policy, g: Ledger, g': Ledger, i: Interval, k: Key)
    requires ValidPolicy(p) && Buried(p, g, i, k) && g.now <= g'.now
    requires k in g'.store.days ==> k in g.store.days && g'.store.days[k] == g.store.days[k]
    ensures Buried(p, g', i, k)
  {
    if Touches(p, i, k) { DateMonotone(p.zones[k.zone], g.now, g'.now); }
  }

  lemma RetainBuried(p: Policy, g: Ledger, e: Action)
    requires ValidPolicy(p) && WindowClears(p) && AllBuried(p, g) && WellKeyed(g.store, g.dead) && Enabled(p, g, e) && e.Retain?
    ensures AllBuried(p, Next(p, g, e))
  {
    var g' := Next(p, g, e);
    forall n, k | n in g'.dead ensures Buried(p, g', g'.dead[n], k) {
      if n in e.victims {
        if Touches(p, g'.dead[n], k) { DeletedIsBuried(p, g, g', e.at, g'.dead[n], k); }
      } else {
        assert Buried(p, g, g.dead[n], k);
        StaysBuried(p, g, g', g.dead[n], k);
      }
    }
  }

  lemma RetainCoherent(p: Policy, g: Ledger, e: Action)
    requires ValidPolicy(p) && Coherent(p, g) && WellKeyed(g.store, g.dead) && Enabled(p, g, e) && e.Retain?
    ensures Coherent(p, Next(p, g, e))
  {
    RetainAll(p, g, e);
  }

  lemma RetainLocks(p: Policy, g: Ledger, e: Action)
    requires ValidPolicy(p) && LocksCurrent(p, g) && Enabled(p, g, e) && e.Retain?
    ensures LocksCurrent(p, Next(p, g, e))
  {
    var g' := Next(p, g, e);
    forall k | k in g'.locks ensures Touching(p, g'.store.intervals, k) == Touching(p, g.store.intervals, k) {
      forall n | n in e.victims ensures !Touches(p, g.store.intervals[n], k) {
        assert k in g.store.days && g.store.days[k].dirty;
        assert Deletable(p, g.store, e.at, g.store.intervals[n]);
      }
    }
  }

  // ---- Every run ----------------------------------------------------------------------

  lemma NextTracked(p: Policy, g: Ledger, e: Action)
    requires ValidPolicy(p) && Tracked(p, g) && Enabled(p, g, e)
    ensures Tracked(p, Next(p, g, e))
  {
    if e.Ingest? {
      IngestTracked(p, g, e);
    } else if e.Retain? {
      RetainTracked(p, g, e);
    } else {
      RebuildTracked(p, g, Next(p, g, e));
    }
  }

  lemma NextKeeps(p: Policy, g: Ledger, e: Action)
    requires ValidPolicy(p) && WindowClears(p) && Inv(p, g) && Enabled(p, g, e)
    ensures Inv(p, Next(p, g, e))
  {
    if e.Ingest? {
      IngestTracked(p, g, e);
      IngestBuried(p, g, e);
      IngestCoherent(p, g, e);
      IngestLocks(p, g, e);
    } else if e.Retain? {
      RetainTracked(p, g, e);
      RetainBuried(p, g, e);
      RetainCoherent(p, g, e);
      RetainLocks(p, g, e);
    } else {
      RebuildKeeps(p, g, e);
    }
  }

  ghost predicate StepAt(p: Policy, gs: seq<Ledger>, es: seq<Action>, i: nat)
    requires ValidPolicy(p) && |gs| == |es| + 1 && i < |es|
  {
    Enabled(p, gs[i], es[i]) && gs[i + 1] == Next(p, gs[i], es[i])
  }

  /** `gs` is a run of the system: a fresh store, then one enabled event after another. */
  ghost predicate Run(p: Policy, gs: seq<Ledger>, es: seq<Action>)
    requires ValidPolicy(p)
  {
    && |gs| == |es| + 1 && (exists now :: gs[0] == Start(now))
    && forall i: nat | i < |es| :: StepAt(p, gs, es, i)
  }

  /** Whatever the interleaving, every reachable ledger satisfies the invariant. */
  lemma {:induction false} RunKeeps(p: Policy, gs: seq<Ledger>, es: seq<Action>, i: nat)
    requires ValidPolicy(p) && WindowClears(p) && Run(p, gs, es) && i < |gs|
    ensures Inv(p, gs[i])
  {
    if i > 0 {
      RunKeeps(p, gs, es, i - 1);
      assert StepAt(p, gs, es, i - 1);
      NextKeeps(p, gs[i - 1], es[i - 1]);
    }
  }
}
