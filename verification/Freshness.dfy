/** Every change to a stored interval marks dirty each user-day whose summary it can affect,
    and nothing else; other devices are left alone. */
module Freshness {
  import opened Calendar
  import opened Activity
  import opened Summaries
  import opened Recorder
  import opened Tiling

  // ---- Which user-days an interval belongs to -----------------------------------------

  /** The rebuild query: same user, started before the day ends, ended no earlier than it begins. */
  predicate Touches(p: Policy, i: Interval, k: Key) {
    && k.zone < |p.zones| && i.reading.user == Some(k.user)
    && i.started < p.zones[k.zone].start(k.day + 1) && p.zones[k.zone].start(k.day) <= i.ended
  }

  /** The intervals a rebuild of day `k` selects. */
  function Touching(p: Policy, all: map<nat, Interval>, k: Key): map<nat, Interval> {
    map n | n in all && Touches(p, all[n], k) :: all[n]
  }

  /** An interval touches exactly the days from its first to its last local date. */
  lemma TouchesItsDates(p: Policy, i: Interval, k: Key)
    requires ValidPolicy(p)
    ensures Touches(p, i, k) <==>
      k.zone < |p.zones| && i.reading.user == Some(k.user)
      && p.zones[k.zone].date(i.started) <= k.day <= p.zones[k.zone].date(i.ended)
  {
    if k.zone < |p.zones| {
      StartedByDate(p.zones[k.zone], k.day + 1, i.started);
      StartedByDate(p.zones[k.zone], k.day, i.ended);
    }
  }

  /** Marking the span of an interval for its user marks exactly the days that select it. */
  lemma SpanMarksItsDays(p: Policy, i: Interval, k: Key)
    requires ValidPolicy(p)
    ensures k in DayKeys(p, i.reading.user, i.started, i.ended) <==> Touches(p, i, k)
  {
    TouchesItsDates(p, i, k);
  }

  /** Only days in `ks` select different intervals before and after. */
  ghost predicate ChangesOnly(p: Policy, all: map<nat, Interval>, all': map<nat, Interval>, ks: set<Key>) {
    forall k | k !in ks :: Touching(p, all, k) == Touching(p, all', k)
  }

  /** Exactly the days in `ks` become dirty; known payloads stay, other rows do not move. */
  ghost predicate MarksExactly(days: map<Key, DayRow>, days': map<Key, DayRow>, ks: set<Key>) {
    && days'.Keys == days.Keys + ks
    && (forall k | k in ks :: days'[k].dirty && (if k in days then days'[k] == days[k].(dirty := true) else days'[k].payload.None?))
    && (forall k | k in days && k !in ks :: days'[k] == days[k])
  }

  /** A day marked for the first time queues as of the start of the span. */
  lemma MarkDirtyMarks(p: Policy, s: Store, user: Option<string>, a: Instant, b: Instant)
    ensures MarksExactly(s.days, MarkDirty(p, s, user, a, b).days, DayKeys(p, user, a, b))
    ensures forall k | k in DayKeys(p, user, a, b) && k !in s.days :: MarkDirty(p, s, user, a, b).days[k].updatedAt == a
  {
  }

  lemma MarksCompose(d0: map<Key, DayRow>, d1: map<Key, DayRow>, d2: map<Key, DayRow>, ks: set<Key>, ks': set<Key>)
    requires MarksExactly(d0, d1, ks) && MarksExactly(d1, d2, ks')
    ensures MarksExactly(d0, d2, ks + ks')
  {
  }

  lemma ChangesCompose(p: Policy, a0: map<nat, Interval>, a1: map<nat, Interval>, a2: map<nat, Interval>, ks: set<Key>, ks': set<Key>)
    requires ChangesOnly(p, a0, a1, ks) && ChangesOnly(p, a1, a2, ks')
    ensures ChangesOnly(p, a0, a2, ks + ks')
  {
  }

  /** Changing interval `id` from `i` to `i'` moves only the days that touch one of them. */
  lemma UpdateChangesOnly(p: Policy, all: map<nat, Interval>, id: nat, i': Interval, ks: set<Key>)
    requires id in all ==> forall k :: Touches(p, all[id], k) ==> k in ks || Touches(p, i', k)
    requires forall k :: Touches(p, i', k) ==> k in ks
    ensures ChangesOnly(p, all, all[id := i'], ks)
  {
    forall k | k !in ks ensures Touching(p, all, k) == Touching(p, all[id := i'], k) {
    }
  }

  lemma KeysJoin(p: Policy, user: Option<string>, a: Instant, b: Instant, c: Instant)
    requires ValidPolicy(p) && a <= b <= c
    ensures DayKeys(p, user, a, b) + DayKeys(p, user, b, c) == DayKeys(p, user, a, c)
  {
    forall z: nat | z < |p.zones|
      ensures p.zones[z].date(a) <= p.zones[z].date(b) <= p.zones[z].date(c)
    {
      DateMonotone(p.zones[z], a, b);
      DateMonotone(p.zones[z], b, c);
    }
  }

  /** One change: the intervals differ only on the days marked. */
  ghost predicate Accounted(p: Policy, s: Store, s': Store, dead: map<nat, Interval>, ks: set<Key>) {
    MarksExactly(s.days, s'.days, ks) && ChangesOnly(p, AllOf(s, dead), AllOf(s', dead), ks)
  }

  lemma AccountedCompose(p: Policy, s0: Store, s1: Store, s2: Store, dead: map<nat, Interval>, ks: set<Key>, ks': set<Key>)
    requires Accounted(p, s0, s1, dead, ks) && Accounted(p, s1, s2, dead, ks')
    ensures Accounted(p, s0, s2, dead, ks + ks')
  {
    MarksCompose(s0.days, s1.days, s2.days, ks, ks');
    ChangesCompose(p, AllOf(s0, dead), AllOf(s1, dead), AllOf(s2, dead), ks, ks');
  }

  /** Changing (or inserting) one interval and marking its span accounts for the change. */
  lemma ChangeAndMark(p: Policy, s: Store, s': Store, dead: map<nat, Interval>, id: nat, i': Interval,
                      a: Instant, b: Instant)
    requires ValidPolicy(p) && a <= b && WellKeyed(s', dead) && s'.days == s.days
    requires AllOf(s', dead) == AllOf(s, dead)[id := i']
    requires SameDays(p, i'.started, a) && SameDays(p, i'.ended, b)
    requires id in AllOf(s, dead) ==>
      var i := AllOf(s, dead)[id];
      i.reading.user == i'.reading.user && SameDays(p, i.started, a) && a <= b && i.ended <= i'.ended
    ensures Accounted(p, s, MarkDirty(p, s', i'.reading.user, a, b), dead, DayKeys(p, i'.reading.user, a, b))
  {
    var ks := DayKeys(p, i'.reading.user, a, b);
    forall k ensures Touches(p, i', k) ==> k in ks {
      TouchesItsDates(p, i', k);
    }
    if id in AllOf(s, dead) {
      var i := AllOf(s, dead)[id];
      forall k ensures Touches(p, i, k) ==> Touches(p, i', k) {
        TouchesItsDates(p, i, k);
        TouchesItsDates(p, i', k);
        if Touches(p, i, k) { DateMonotone(p.zones[k.zone], i.ended, i'.ended); }
      }
    }
    UpdateChangesOnly(p, AllOf(s, dead), id, i', ks);
    MarkDirtyMarks(p, s', i'.reading.user, a, b);
    MarkKeepsIntervals(p, s', dead, i'.reading.user, a, b);
  }

  // ---- The walk -----------------------------------------------------------------------

  lemma StayStepAccounted(p: Policy, dead: map<nat, Interval>, w: Walk, device: Device, h: seq<Heard>,
                          reading: Reading, when: Instant)
    requires ValidPolicy(p) && |h| > 0 && Staying(p, dead, w, device, h, reading, when) && w.start < when
    ensures var w' := StayStep(p, w, when);
      Accounted(p, w.store, w'.store, dead, DayKeys(p, reading.user, w.start, w'.start))
  {
    var (end, boundary) := (Stretch(p, w.start, when), Boundary(p, w.start));
    var i := w.store.intervals[w.previous];
    var i' := i.(ended := end);
    AlwaysExtends(p, dead, w, device, h, reading, when);
    BoundaryAhead(p, w.start);
    UpdateAll(w.store, dead, w.previous, i');
    var s := w.store.(intervals := w.store.intervals[w.previous := i']);
    ChangeAndMark(p, w.store, s, dead, w.previous, i', w.start, end);
    MarkKeepsIntervals(p, s, dead, reading.user, w.start, end);
    var marked := MarkDirty(p, s, reading.user, w.start, end);
    if end == boundary && end < when {
      FreshRowAccounted(p, w.store, marked, dead, i.(started := end, ended := end), w.start);
    }
  }

  /** The zero-length row opened at a boundary touches only days already marked. */
  lemma FreshRowAccounted(p: Policy, s: Store, marked: Store, dead: map<nat, Interval>, row: Interval, start: Instant)
    requires ValidPolicy(p) && WellKeyed(marked, dead) && row.started == row.ended && start <= row.started
    requires Accounted(p, s, marked, dead, DayKeys(p, row.reading.user, start, row.started))
    ensures Accounted(p, s, Insert(marked, row), dead, DayKeys(p, row.reading.user, start, row.started))
  {
    var ks := DayKeys(p, row.reading.user, start, row.started);
    InsertAll(marked, dead, row);
    forall k ensures Touches(p, row, k) ==> k in ks {
      TouchesItsDates(p, row, k);
      if Touches(p, row, k) { DateMonotone(p.zones[k.zone], start, row.started); }
    }
    UpdateChangesOnly(p, AllOf(marked, dead), marked.nextId, row, ks);
  }

  lemma {:induction false} StayWalkAccounted(p: Policy, dead: map<nat, Interval>, w: Walk, device: Device, h: seq<Heard>,
                                             reading: Reading, when: Instant, attributed: bool)
    requires ValidPolicy(p) && |h| > 0 && Staying(p, dead, w, device, h, reading, when)
    requires Given(p, h, w.start, when, reading)
    ensures var r := WalkTo(p, w, when, false, attributed);
      w.start < when ==> Accounted(p, w.store, r.store, dead, DayKeys(p, reading.user, w.start, when))
    decreases when - w.start
  {
    if w.start < when {
      BoundaryAhead(p, w.start);
      var w' := StayStep(p, w, when);
      StayStepKeeps(p, dead, w, device, h, reading, when);
      StayStepAccounted(p, dead, w, device, h, reading, when);
      StayWalkAccounted(p, dead, w', device, h, reading, when, attributed);
      if w'.start < when {
        KeysJoin(p, reading.user, w.start, w'.start, when);
        AccountedCompose(p, w.store, w'.store, WalkTo(p, w', when, false, attributed).store, dead,
                         DayKeys(p, reading.user, w.start, w'.start), DayKeys(p, reading.user, w'.start, when));
      }
    }
  }

  lemma GapStepAccounted(p: Policy, dead: map<nat, Interval>, w: Walk, when: Instant, attributed: bool, owner: Option<string>)
    requires ValidPolicy(p) && WellKeyed(w.store, dead) && w.previous in w.store.intervals && w.start < when
    requires owner == if attributed then w.store.intervals[w.previous].reading.user else None
    ensures var w' := GapStep(p, w, when, attributed);
      && Accounted(p, w.store, w'.store, dead, DayKeys(p, owner, w.start, w'.start))
      && WellKeyed(w'.store, dead) && w'.previous == w.previous && w.previous in w'.store.intervals
      && w'.store.intervals[w.previous] == w.store.intervals[w.previous]
      && w.start < w'.start <= when
  {
    var (end, previous) := (Stretch(p, w.start, when), w.store.intervals[w.previous]);
    var i := UnknownSince(previous, attributed, w.start, end);
    BoundaryAhead(p, w.start);
    InsertAll(w.store, dead, i);
    var s := Insert(w.store, i);
    ChangeAndMark(p, w.store, s, dead, w.store.nextId, i, w.start, end);
    MarkKeepsIntervals(p, s, dead, owner, w.start, end);
  }

  lemma {:induction false} GapWalkAccounted(p: Policy, dead: map<nat, Interval>, w: Walk, when: Instant, attributed: bool, owner: Option<string>)
    requires ValidPolicy(p) && WellKeyed(w.store, dead) && w.previous in w.store.intervals
    requires owner == if attributed then w.store.intervals[w.previous].reading.user else None
    ensures var r := WalkTo(p, w, when, true, attributed);
      w.start < when ==> Accounted(p, w.store, r.store, dead, DayKeys(p, owner, w.start, when))
    decreases when - w.start
  {
    if w.start < when {
      var w' := GapStep(p, w, when, attributed);
      GapStepAccounted(p, dead, w, when, attributed, owner);
      GapWalkAccounted(p, dead, w', when, attributed, owner);
      if w'.start < when {
        KeysJoin(p, owner, w.start, w'.start, when);
        AccountedCompose(p, w.store, w'.store, WalkTo(p, w', when, true, attributed).store, dead,
                         DayKeys(p, owner, w.start, w'.start), DayKeys(p, owner, w'.start, when));
      }
    }
  }

  // ---- One sample ---------------------------------------------------------------------

  /** The account the time since the last sample belongs to. */
  function Owner(p: Policy, s: Store, device: Device, b: Sample): Option<string> {
    match Previous(s, device)
    case None => None
    case Some(id) =>
      var (i, last) := (s.intervals[id], s.cursors[device].last);
      if LongGap(p, last, b.when) && !Attributable(i, b, last) then None else i.reading.user
  }

  /** Where the newly accounted time begins. */
  function AccountedFrom(p: Policy, s: Store, device: Device, b: Sample): Instant {
    if device in s.cursors then GapStart(p, s.cursors[device].last, b.when) else b.when
  }

  /** Every user-day whose summary this sample can change. */
  function SampleKeys(p: Policy, s: Store, device: Device, b: Sample): set<Key> {
    if Ignored(s, device, b) then {}
    else DayKeys(p, Owner(p, s, device, b), AccountedFrom(p, s, device, b), b.when) + DayKeys(p, b.user, b.when, b.when)
  }

  lemma SettleAccounted(p: Policy, s: Store, dead: map<nat, Interval>, device: Device, h: seq<Heard>, b: Sample)
    requires ValidPolicy(p) && Tiled(p, s, dead) && !Ignored(s, device, b)
    requires device in s.cursors ==> Tracks(p, s, dead, device, h)
    ensures Accounted(p, s, Settle(p, s, device, b).0, dead,
                      DayKeys(p, Owner(p, s, device, b), AccountedFrom(p, s, device, b), b.when))
  {
    if Previous(s, device).Some? {
      var (id, a, h') := (s.cursors[device].interval.value, h[|h| - 1].sample, h + [Heard(b, true)]);
      if LongGap(p, a.when, b.when) {
        GapWalkAccounted(p, dead, Walk(s, id, GapStart(p, a.when, b.when)), b.when,
                         Attributable(s.intervals[id], b, a.when), Owner(p, s, device, b));
      } else {
        StayBegins(p, s, dead, device, h, b);
        StayWalkAccounted(p, dead, Walk(s, id, a.when), device, h', ReadingOf(a), b.when,
                          Attributable(s.intervals[id], b, a.when));
      }
    }
  }

  lemma AttachAccounted(p: Policy, s: Store, dead: map<nat, Interval>, device: Device, b: Sample,
                        previous: Option<nat>, last: Instant, cursors: map<Device, Cursor>)
    requires ValidPolicy(p) && WellKeyed(s, dead)
    requires previous.Some? ==> previous.value in s.intervals
    requires previous.Some? && Continues(p, s.intervals[previous.value], last, b) ==>
               Newest(p, s, dead, device, previous.value, b)
    ensures var s' := Attach(p, s, device, b, previous, last).0;
      Accounted(p, s, MarkDirty(p, s'.(cursors := cursors), b.user, b.when, b.when), dead, DayKeys(p, b.user, b.when, b.when))
  {
    var (s', id) := Attach(p, s, device, b, previous, last);
    if previous.Some? && Continues(p, s.intervals[previous.value], last, b) {
      UpdateAll(s, dead, id, s'.intervals[id]);
    } else {
      InsertAll(s, dead, s'.intervals[id]);
    }
    assert AllOf(s'.(cursors := cursors), dead) == AllOf(s', dead);
    ChangeAndMark(p, s, s'.(cursors := cursors), dead, id, s'.intervals[id], b.when, b.when);
  }

  /** Recording a sample changes the selection of a user-day only if it marks that day dirty,
      and the days it marks are exactly `SampleKeys`. */
  lemma RecordAccounted(p: Policy, s: Store, dead: map<nat, Interval>, device: Device, h: seq<Heard>, b: Sample)
    requires ValidPolicy(p) && Tiled(p, s, dead)
    requires device in s.cursors ==> Tracks(p, s, dead, device, h)
    requires device !in s.cursors ==> Quiet(p, s, dead, device, h, b.when)
    ensures Accounted(p, s, Record(p, s, device, b), dead, SampleKeys(p, s, device, b))
  {
    if !Ignored(s, device, b) {
      var (settled, previous) := Settle(p, s, device, b);
      var last := if device in s.cursors then s.cursors[device].last else b.when;
      var (attached, id) := Attach(p, settled, device, b, previous, last);
      var cursors := attached.cursors[device := Cursor(Some(id), b.id, b.when, b.user, b.state)];
      SettleKeeps(p, s, dead, device, h, b);
      ContinuedIsNewest(p, s, dead, device, h, b);
      SettleAccounted(p, s, dead, device, h, b);
      AttachAccounted(p, settled, dead, device, b, previous, last, cursors);
      AccountedCompose(p, s, settled, Record(p, s, device, b), dead,
                       DayKeys(p, Owner(p, s, device, b), AccountedFrom(p, s, device, b), b.when),
                       DayKeys(p, b.user, b.when, b.when));
    }
  }

  // ---- Other devices ------------------------------------------------------------------

  /** Intervals of other devices stay as they are. */
  ghost predicate LeavesOthers(s: Store, s': Store, device: Device) {
    && s.nextId <= s'.nextId
    && (forall n | n in s.intervals && s.intervals[n].device != device :: n in s'.intervals && s'.intervals[n] == s.intervals[n])
    && (forall n | n in s'.intervals && s'.intervals[n].device != device :: n in s.intervals)
    && (forall n | n in s.intervals && s.intervals[n].device == device :: n in s'.intervals && s'.intervals[n].device == device)
  }

  ghost predicate KeysBelow(s: Store) { forall n | n in s.intervals :: n < s.nextId }

  lemma StepLeavesOthers(p: Policy, w: Walk, when: Instant, gap: bool, attributed: bool, device: Device)
    requires |p.zones| > 0 && w.previous in w.store.intervals && w.store.intervals[w.previous].device == device
    requires KeysBelow(w.store)
    ensures var w' := Step(p, w, when, gap, attributed);
      LeavesOthers(w.store, w'.store, device) && w'.previous in w'.store.intervals
      && w'.store.intervals[w'.previous].device == device && KeysBelow(w'.store) && w'.store.cursors == w.store.cursors
  {
  }

  lemma {:induction false} WalkLeavesOthers(p: Policy, w: Walk, when: Instant, gap: bool, attributed: bool, device: Device)
    requires ValidPolicy(p) && w.previous in w.store.intervals && w.store.intervals[w.previous].device == device
    requires KeysBelow(w.store)
    ensures var w' := WalkTo(p, w, when, gap, attributed);
      LeavesOthers(w.store, w'.store, device)
      && w'.store.intervals[w'.previous].device == device && KeysBelow(w'.store) && w'.store.cursors == w.store.cursors
    decreases when - w.start
  {
    if w.start < when {
      BoundaryAhead(p, w.start);
      StepLeavesOthers(p, w, when, gap, attributed, device);
      WalkLeavesOthers(p, Step(p, w, when, gap, attributed), when, gap, attributed, device);
    }
  }

  lemma LeavesCompose(s0: Store, s1: Store, s2: Store, device: Device)
    requires LeavesOthers(s0, s1, device) && LeavesOthers(s1, s2, device)
    ensures LeavesOthers(s0, s2, device)
  {
  }

  lemma SettleLeavesOthers(p: Policy, s: Store, device: Device, b: Sample)
    requires ValidPolicy(p) && KeysBelow(s)
    requires Previous(s, device).Some? ==> s.intervals[s.cursors[device].interval.value].device == device
    ensures var (s', previous) := Settle(p, s, device, b);
      LeavesOthers(s, s', device) && KeysBelow(s') && s'.cursors == s.cursors
      && (previous.Some? ==> s'.intervals[previous.value].device == device)
  {
    if Previous(s, device).Some? {
      var (id, last) := (s.cursors[device].interval.value, s.cursors[device].last);
      WalkLeavesOthers(p, Walk(s, id, GapStart(p, last, b.when)), b.when, LongGap(p, last, b.when),
                       Attributable(s.intervals[id], b, last), device);
    }
  }

  lemma AttachLeavesOthers(p: Policy, s: Store, device: Device, b: Sample, previous: Option<nat>, last: Instant)
    requires KeysBelow(s)
    requires previous.Some? ==> previous.value in s.intervals && s.intervals[previous.value].device == device
    ensures var s' := Attach(p, s, device, b, previous, last).0;
      LeavesOthers(s, s', device) && s'.cursors == s.cursors
  {
  }

  lemma RecordLeavesOthers(p: Policy, s: Store, device: Device, b: Sample)
    requires ValidPolicy(p) && KeysBelow(s)
    requires Previous(s, device).Some? ==> s.intervals[s.cursors[device].interval.value].device == device
    ensures var s' := Record(p, s, device, b);
      LeavesOthers(s, s', device) && s'.cursors - {device} == s.cursors - {device}
  {
    if !Ignored(s, device, b) {
      var (settled, previous) := Settle(p, s, device, b);
      var last := if device in s.cursors then s.cursors[device].last else b.when;
      SettleLeavesOthers(p, s, device, b);
      AttachLeavesOthers(p, settled, device, b, previous, last);
      LeavesCompose(s, settled, Attach(p, settled, device, b, previous, last).0, device);
    }
  }

  /** Another device's history stays told. */
  lemma TracksUnaffected(p: Policy, s: Store, s': Store, dead: map<nat, Interval>, device: Device, other: Device, h: seq<Heard>)
    requires |p.zones| > 0 && other != device && LeavesOthers(s, s', device)
    requires WellKeyed(s, dead) && WellKeyed(s', dead) && Tracks(p, s, dead, other, h)
    requires other in s'.cursors && s'.cursors[other] == s.cursors[other]
    ensures Tracks(p, s', dead, other, h)
  {
    var (all, all') := (AllOf(s, dead), AllOf(s', dead));
    forall n ensures n in all' && all'[n].device == other <==> n in all && all[n].device == other {
    }
    SameCoverOnDevice(p, all, all', other, h, s.cursors[other].last);
  }

  /** Also of a device without a cursor. */
  lemma QuietUnaffected(p: Policy, s: Store, s': Store, dead: map<nat, Interval>, device: Device, other: Device, h: seq<Heard>, at: Instant)
    requires other != device && LeavesOthers(s, s', device)
    requires WellKeyed(s, dead) && WellKeyed(s', dead) && Quiet(p, s, dead, other, h, at)
    ensures Quiet(p, s', dead, other, h, at)
  {
    var (all, all') := (AllOf(s, dead), AllOf(s', dead));
    forall n ensures n in all' && all'[n].device == other <==> n in all && all[n].device == other {
    }
    SameCoverOnDevice(p, all, all', other, h, at);
  }

  lemma SameCoverOnDevice(p: Policy, all: map<nat, Interval>, all': map<nat, Interval>, device: Device, h: seq<Heard>, bound: Instant)
    requires Tells(p, all, device, h, bound)
    requires forall n :: n in all' && all'[n].device == device <==> n in all && all[n].device == device
    requires forall n | n in all && all[n].device == device :: all'[n] == all[n]
    ensures Tells(p, all', device, h, bound)
  {
    forall n, t ensures On(all', device, n, t) <==> On(all, device, n, t) {
    }
    forall t | t < bound && ReadingAt(p, h, t).Some? ensures exists n :: On(all', device, n, t) {
      var n :| On(all, device, n, t);
      assert On(all', device, n, t);
    }
  }
}
