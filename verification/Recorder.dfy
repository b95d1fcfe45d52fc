/** The interval recorder: how one accepted sample changes the stored intervals, the device
    cursor and the user-days to rebuild. */
module Recorder {
  import opened Calendar
  import opened Activity
  import opened Summaries

  datatype Foreground = Foreground(process: string, category: string)

  /** One validated observation with the session state and policy version it was accepted under. */
  datatype Sample = Sample(
    id: nat, when: Instant, user: Option<string>, state: State,
    foreground: Option<Foreground>, browser: Option<string>, version: Option<nat>)

  /** Only an ACTIVE session shows its application, and only an application shows a browser. */
  function ReadingOf(s: Sample): Reading {
    var app := if s.state == ACTIVE then s.foreground else None;
    match app
    case None => Reading(s.user, s.state, None, None, None, s.version)
    case Some(f) => Reading(s.user, s.state, Some(f.process), Some(f.category), s.browser, s.version)
  }

  /** A user-day in zone number `zone` of the policy. */
  datatype Key = Key(user: string, zone: nat, day: int)

  datatype Cursor = Cursor(interval: Option<nat>, observation: nat, last: Instant, user: Option<string>, state: State)

  datatype Store = Store(
    intervals: map<nat, Interval>, nextId: nat, cursors: map<Device, Cursor>, days: map<Key, DayRow>)

  // ---- Dirty marks --------------------------------------------------------------------

  /** Every user-day from the local date of `a` to that of `b`, in every zone. */
  function DayKeys(p: Policy, user: Option<string>, a: Instant, b: Instant): (ks: set<Key>)
    ensures forall k :: k in ks <==> user == Some(k.user) && k.zone < |p.zones|
                                     && p.zones[k.zone].date(a) <= k.day <= p.zones[k.zone].date(b)
  {
    match user
    case None => {}
    case Some(u) =>
      set z: nat, d: int | z < |p.zones| && p.zones[z].date(a) <= d <= p.zones[z].date(b) :: Key(u, z, d)
  }

  /** Upsert: a known day keeps its payload and becomes dirty, a new one starts dirty and empty. */
  function Marked(row: Option<DayRow>, at: Instant): DayRow {
    match row
    case None => DayRow(None, true, at)
    case Some(r) => r.(dirty := true)
  }

  function MarkDays(days: map<Key, DayRow>, ks: set<Key>, at: Instant): map<Key, DayRow> {
    map k | k in days.Keys + ks ::
      if k in ks then Marked(if k in days then Some(days[k]) else None, at) else days[k]
  }

  function MarkDirty(p: Policy, s: Store, user: Option<string>, a: Instant, b: Instant): Store {
    s.(days := MarkDays(s.days, DayKeys(p, user, a, b), a))
  }

  // ---- One stretch between two boundaries ---------------------------------------------

  function Insert(s: Store, i: Interval): Store {
    s.(intervals := s.intervals[s.nextId := i], nextId := s.nextId + 1)
  }

  /** The store while the time since the last sample is being accounted for: everything
      before `start` is settled, and `previous` is the interval being continued. */
  datatype Walk = Walk(store: Store, previous: nat, start: Instant)

  function UnknownSince(previous: Interval, attributed: bool, start: Instant, end: Instant): Interval {
    Interval(previous.device,
             Reading(if attributed then previous.reading.user else None, UNKNOWN, None, None, None, previous.reading.version),
             start, end, end)
  }

  function Stretch(p: Policy, start: Instant, when: Instant): Instant
    requires |p.zones| > 0
  {
    var boundary := Boundary(p, start);
    if when < boundary then when else boundary
  }

  /** A long gap contributes one UNKNOWN interval per calendar stretch. */
  function GapStep(p: Policy, w: Walk, when: Instant, attributed: bool): Walk
    requires |p.zones| > 0 && w.previous in w.store.intervals
  {
    var (end, previous) := (Stretch(p, w.start, when), w.store.intervals[w.previous]);
    var s := Insert(w.store, UnknownSince(previous, attributed, w.start, end));
    Walk(MarkDirty(p, s, if attributed then previous.reading.user else None, w.start, end), w.previous, end)
  }

  /** A short gap extends the previous interval, starting afresh at each boundary. */
  function StayStep(p: Policy, w: Walk, when: Instant): Walk
    requires |p.zones| > 0 && w.previous in w.store.intervals
  {
    var (end, boundary, previous) := (Stretch(p, w.start, when), Boundary(p, w.start), w.store.intervals[w.previous]);
    var extend := previous.ended == w.start && previous.started < boundary;
    var s := if extend then w.store.(intervals := w.store.intervals[w.previous := previous.(ended := end)])
             else Insert(w.store, previous.(started := w.start, ended := end));
    var id := if extend then w.previous else w.store.nextId;
    var marked := MarkDirty(p, s, previous.reading.user, w.start, end);
    if end == boundary && end < when then
      Walk(Insert(marked, previous.(started := end, ended := end)), marked.nextId, end)
    else
      Walk(marked, id, end)
  }

  function Step(p: Policy, w: Walk, when: Instant, gap: bool, attributed: bool): Walk
    requires |p.zones| > 0 && w.previous in w.store.intervals
  {
    if gap then GapStep(p, w, when, attributed) else StayStep(p, w, when)
  }

  lemma StepKeepsPrevious(p: Policy, w: Walk, when: Instant, gap: bool, attributed: bool)
    requires |p.zones| > 0 && w.previous in w.store.intervals
    ensures var w' := Step(p, w, when, gap, attributed); w'.previous in w'.store.intervals
  {
  }

  /** Account for the time from `w.start` to `when`, stretch by stretch. */
  function WalkTo(p: Policy, w: Walk, when: Instant, gap: bool, attributed: bool): (r: Walk)
    requires ValidPolicy(p) && w.previous in w.store.intervals
    ensures r.previous in r.store.intervals
    decreases when - w.start
  {
    if w.start < when then
      BoundaryAhead(p, w.start);
      StepKeepsPrevious(p, w, when, gap, attributed);
      WalkTo(p, Step(p, w, when, gap, attributed), when, gap, attributed)
    else w
  }

  // ---- One sample ---------------------------------------------------------------------

  function Previous(s: Store, device: Device): Option<nat> {
    if device in s.cursors && s.cursors[device].interval.Some? && s.cursors[device].interval.value in s.intervals
    then s.cursors[device].interval else None
  }

  /** Replays and older samples are ignored. */
  predicate Ignored(s: Store, device: Device, b: Sample) {
    device in s.cursors && (b.when <= s.cursors[device].last || b.id == s.cursors[device].observation)
  }

  predicate LongGap(p: Policy, last: Instant, when: Instant) { when - last > p.maxGap }

  /** A gap belongs to the employee only when the account is unchanged within a day. */
  predicate Attributable(previous: Interval, b: Sample, last: Instant) {
    previous.reading.user == b.user && b.when - last <= Days(1)
  }

  /** Where attribution of a gap begins: never earlier than the detail window. */
  function GapStart(p: Policy, last: Instant, when: Instant): Instant {
    var limit := when - Days(p.detailDays);
    if LongGap(p, last, when) && last < limit then limit else last
  }

  /** Account for the time since the last sample, if its interval is still known. */
  function Settle(p: Policy, s: Store, device: Device, b: Sample): (r: (Store, Option<nat>))
    requires ValidPolicy(p)
    ensures r.1.Some? ==> r.1.value in r.0.intervals && device in s.cursors
  {
    match Previous(s, device)
    case None => (s, None)
    case Some(id) =>
      var last := s.cursors[device].last;
      var gap := LongGap(p, last, b.when);
      var w := WalkTo(p, Walk(s, id, GapStart(p, last, b.when)), b.when, gap, Attributable(s.intervals[id], b, last));
      (w.store, Some(w.previous))
  }

  /** The sample continues `previous`: same reading, no gap, same calendar day everywhere. */
  predicate Continues(p: Policy, previous: Interval, last: Instant, b: Sample) {
    previous.reading == ReadingOf(b) && b.when - last <= p.maxGap && SameDays(p, previous.started, b.when)
  }

  /** Attach the sample itself: a heartbeat of the running interval, or a new interval of
      zero length. */
  function Attach(p: Policy, s: Store, device: Device, b: Sample, previous: Option<nat>, last: Instant): (r: (Store, nat))
    requires previous.Some? ==> previous.value in s.intervals
    ensures r.1 in r.0.intervals
  {
    if previous.Some? && Continues(p, s.intervals[previous.value], last, b) then
      (s.(intervals := s.intervals[previous.value := s.intervals[previous.value].(seen := b.when)]), previous.value)
    else
      (Insert(s, Interval(device, ReadingOf(b), b.when, b.when, b.when)), s.nextId)
  }

  /** The effect of one observation on the store. */
  function Record(p: Policy, s: Store, device: Device, b: Sample): Store
    requires ValidPolicy(p)
  {
    if Ignored(s, device, b) then s
    else
      var (settled, previous) := Settle(p, s, device, b);
      var last := if device in s.cursors then s.cursors[device].last else b.when;
      var (attached, id) := Attach(p, settled, device, b, previous, last);
      var cursor := Cursor(Some(id), b.id, b.when, b.user, b.state);
      MarkDirty(p, attached.(cursors := attached.cursors[device := cursor]), b.user, b.when, b.when)
  }
}
