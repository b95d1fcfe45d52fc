/** When a device was last seen: what the last-observed time of every recorded interval is, in terms
    of the samples. */
module Sightings {
  import opened Calendar
  import opened Activity
  import opened Recorder
  import opened Tiling
  import opened Freshness

  // ---- Pairs of samples ---------------------------------------------------------------

  /** Sample `j` and the next are no gap apart. */
  ghost predicate Continued(p: Policy, h: seq<Heard>, j: nat) {
    j + 1 < |h| && h[j + 1].resumed && h[j + 1].sample.when - h[j].sample.when <= p.maxGap
  }

  /** A long gap follows sample `j`, and it was accounted for. */
  ghost predicate Interrupted(p: Policy, h: seq<Heard>, j: nat) {
    j + 1 < |h| && h[j + 1].resumed && h[j + 1].sample.when - h[j].sample.when > p.maxGap
  }

  /** Where the account of the gap begins. */
  function GapFrom(p: Policy, h: seq<Heard>, j: nat): Instant
    requires j + 1 < |h|
  {
    var limit := h[j + 1].sample.when - Days(p.detailDays);
    if h[j].sample.when < limit then limit else h[j].sample.when
  }

  /** Whose gap it is. */
  function GapUser(h: seq<Heard>, j: nat): Option<string>
    requires j + 1 < |h|
  {
    var (a, b) := (h[j].sample, h[j + 1].sample);
    if a.user == b.user && b.when - a.when <= Days(1) then a.user else None
  }

  // ---- What an interval was last seen by ----------------------------------------------

  /** Sample `j` is the last one the interval holds; it reaches at most up to the next. */
  ghost predicate LastHeld(p: Policy, h: seq<Heard>, i: Interval, j: nat) {
    && j < |h|
    && var x := h[j].sample;
    && i.reading == ReadingOf(x) && i.seen == x.when
    && i.started <= x.when <= i.ended && SameDays(p, i.started, x.when)
    && (i.ended == x.when || (Continued(p, h, j) && i.ended <= h[j + 1].sample.when))
  }

  /** The interval continues sample `j` on a later day, holding no sample itself. */
  ghost predicate CarriedOver(p: Policy, h: seq<Heard>, i: Interval, j: nat) {
    && Continued(p, h, j) && i.reading == ReadingOf(h[j].sample) && i.seen == h[j].sample.when
    && h[j].sample.when < i.started <= i.ended <= h[j + 1].sample.when
  }

  /** The interval is part of the gap after sample `j`. */
  ghost predicate FillsGap(p: Policy, h: seq<Heard>, i: Interval, j: nat) {
    && Interrupted(p, h, j) && i.seen == i.ended
    && i.reading == Reading(GapUser(h, j), UNKNOWN, None, None, None, h[j].sample.version)
    && GapFrom(p, h, j) <= i.started < i.ended <= h[j + 1].sample.when
  }

  ghost predicate Explains(p: Policy, h: seq<Heard>, i: Interval, j: nat) {
    LastHeld(p, h, i, j) || CarriedOver(p, h, i, j) || FillsGap(p, h, i, j)
  }

  ghost predicate Explained(p: Policy, h: seq<Heard>, i: Interval) { exists j :: Explains(p, h, i, j) }

  ghost predicate AllExplained(p: Policy, all: map<nat, Interval>, device: Device, h: seq<Heard>) {
    forall n | n in all && all[n].device == device :: Explained(p, h, all[n])
  }

  /** The interval holds the sample. */
  ghost predicate Holds(p: Policy, i: Interval, x: Sample) {
    && i.reading == ReadingOf(x) && i.started <= x.when <= i.ended && SameDays(p, i.started, x.when) && x.when <= i.seen
  }

  ghost predicate HeldBy(p: Policy, all: map<nat, Interval>, device: Device, x: Sample, n: nat) {
    n in all && all[n].device == device && Holds(p, all[n], x)
  }

  ghost predicate Held(p: Policy, all: map<nat, Interval>, device: Device, x: Sample) {
    exists n :: HeldBy(p, all, device, x, n)
  }

  ghost predicate AllHeld(p: Policy, all: map<nat, Interval>, device: Device, h: seq<Heard>, n: nat) {
    forall j | 0 <= j < n && j < |h| :: Held(p, all, device, h[j].sample)
  }

  // ---- Changing one interval ----------------------------------------------------------

  lemma InsertExplained(p: Policy, all: map<nat, Interval>, device: Device, h: seq<Heard>, m: nat, id: nat, i: Interval, j: nat)
    requires AllExplained(p, all, device, h) && AllHeld(p, all, device, h, m)
    requires id !in all && Explains(p, h, i, j)
    ensures AllExplained(p, all[id := i], device, h) && AllHeld(p, all[id := i], device, h, m)
  {
    forall k | 0 <= k < m && k < |h| ensures Held(p, all[id := i], device, h[k].sample) {
      var n :| HeldBy(p, all, device, h[k].sample, n);
      assert HeldBy(p, all[id := i], device, h[k].sample, n);
    }
  }

  lemma UpdateExplained(p: Policy, all: map<nat, Interval>, device: Device, h: seq<Heard>, m: nat, id: nat, i: Interval, j: nat)
    requires AllExplained(p, all, device, h) && AllHeld(p, all, device, h, m)
    requires id in all && Explains(p, h, i, j) && i.device == all[id].device
    requires i.reading == all[id].reading && i.started == all[id].started && all[id].ended <= i.ended && all[id].seen <= i.seen
    ensures AllExplained(p, all[id := i], device, h) && AllHeld(p, all[id := i], device, h, m)
  {
    forall k | 0 <= k < m && k < |h| ensures Held(p, all[id := i], device, h[k].sample) {
      var n :| HeldBy(p, all, device, h[k].sample, n);
      assert HeldBy(p, all[id := i], device, h[k].sample, n);
    }
  }

  lemma ExplainsLonger(p: Policy, h: seq<Heard>, x: Heard, i: Interval, j: nat)
    requires Explains(p, h, i, j)
    ensures Explains(p, h + [x], i, j)
  {
  }

  lemma LongerExplained(p: Policy, all: map<nat, Interval>, device: Device, h: seq<Heard>, x: Heard)
    requires AllExplained(p, all, device, h) && AllHeld(p, all, device, h, |h|)
    ensures AllExplained(p, all, device, h + [x]) && AllHeld(p, all, device, h + [x], |h|)
  {
    forall n | n in all && all[n].device == device ensures Explained(p, h + [x], all[n]) {
      var j :| Explains(p, h, all[n], j);
      ExplainsLonger(p, h, x, all[n], j);
    }
    forall j | 0 <= j < |h| ensures Held(p, all, device, (h + [x])[j].sample) {
      assert (h + [x])[j] == h[j];
    }
  }

  // ---- Walking ------------------------------------------------------------------------

  /** The newest two samples of `h` are `a` and the one being accounted for. */
  ghost predicate After(h: seq<Heard>, a: Sample, when: Instant) {
    |h| >= 2 && h[|h| - 2].sample == a && h[|h| - 1].sample.when == when && h[|h| - 1].resumed
  }

  ghost predicate StaySeen(p: Policy, all: map<nat, Interval>, device: Device, h: seq<Heard>, previous: nat) {
    && |h| >= 2 && AllExplained(p, all, device, h) && AllHeld(p, all, device, h, |h| - 1)
    && previous in all
    && (LastHeld(p, h, all[previous], |h| - 2) || CarriedOver(p, h, all[previous], |h| - 2))
  }

  lemma ExtendSeen(p: Policy, all: map<nat, Interval>, device: Device, h: seq<Heard>, a: Sample, id: nat, end: Instant, when: Instant)
    requires StaySeen(p, all, device, h, id) && After(h, a, when) && when - a.when <= p.maxGap
    requires all[id].ended <= end <= when
    ensures StaySeen(p, all[id := all[id].(ended := end)], device, h, id)
  {
    UpdateExplained(p, all, device, h, |h| - 1, id, all[id].(ended := end), |h| - 2);
  }

  lemma FreshSeen(p: Policy, all: map<nat, Interval>, device: Device, h: seq<Heard>, a: Sample, previous: nat, id: nat,
                  end: Instant, when: Instant)
    requires StaySeen(p, all, device, h, previous) && After(h, a, when) && when - a.when <= p.maxGap
    requires id !in all && a.when < end <= when
    ensures StaySeen(p, all[id := all[previous].(started := end, ended := end)], device, h, id)
  {
    var row := all[previous].(started := end, ended := end);
    assert CarriedOver(p, h, row, |h| - 2);
    InsertExplained(p, all, device, h, |h| - 1, id, row, |h| - 2);
  }

  lemma StayStepSeen(p: Policy, dead: map<nat, Interval>, w: Walk, device: Device, h: seq<Heard>, a: Sample, when: Instant)
    requires ValidPolicy(p) && After(h, a, when) && when - a.when <= p.maxGap && a.when <= w.start < when
    requires Staying(p, dead, w, device, h, ReadingOf(a), when)
    requires StaySeen(p, AllOf(w.store, dead), device, h, w.previous)
    ensures var w' := StayStep(p, w, when); StaySeen(p, AllOf(w'.store, dead), device, h, w'.previous)
  {
    var (all, end, boundary) := (AllOf(w.store, dead), Stretch(p, w.start, when), Boundary(p, w.start));
    var i := w.store.intervals[w.previous];
    var i' := i.(ended := end);
    AlwaysExtends(p, dead, w, device, h, ReadingOf(a), when);
    BoundaryAhead(p, w.start);
    ExtendSeen(p, all, device, h, a, w.previous, end, when);
    UpdateAll(w.store, dead, w.previous, i');
    var s := w.store.(intervals := w.store.intervals[w.previous := i']);
    MarkKeepsIntervals(p, s, dead, i.reading.user, w.start, end);
    var marked := MarkDirty(p, s, i.reading.user, w.start, end);
    if end == boundary && end < when {
      InsertAll(marked, dead, i'.(started := end, ended := end));
      FreshSeen(p, AllOf(marked, dead), device, h, a, w.previous, marked.nextId, end, when);
    }
  }

  lemma StayStepOnward(p: Policy, w: Walk, when: Instant)
    requires ValidPolicy(p) && w.previous in w.store.intervals && w.start < when
    ensures w.start < StayStep(p, w, when).start <= when
  {
    BoundaryAhead(p, w.start);
  }

  lemma {:induction false} StayWalkSeen(p: Policy, dead: map<nat, Interval>, w: Walk, device: Device, h: seq<Heard>, a: Sample,
                                        when: Instant, attributed: bool)
    requires ValidPolicy(p) && After(h, a, when) && when - a.when <= p.maxGap && a.when <= w.start
    requires Staying(p, dead, w, device, h, ReadingOf(a), when) && Given(p, h, w.start, when, ReadingOf(a))
    requires StaySeen(p, AllOf(w.store, dead), device, h, w.previous)
    ensures var r := WalkTo(p, w, when, false, attributed); StaySeen(p, AllOf(r.store, dead), device, h, r.previous)
    decreases when - w.start
  {
    if w.start < when {
      StayStepOnward(p, w, when);
      StayStepKeeps(p, dead, w, device, h, ReadingOf(a), when);
      StayStepSeen(p, dead, w, device, h, a, when);
      StayWalkSeen(p, dead, StayStep(p, w, when), device, h, a, when, attributed);
    }
  }

  lemma GapRowFills(p: Policy, h: seq<Heard>, a: Sample, previous: Interval, start: Instant, end: Instant, when: Instant, attributed: bool)
    requires After(h, a, when) && when - a.when > p.maxGap && GapFrom(p, h, |h| - 2) <= start < end <= when
    requires GapUser(h, |h| - 2) == if attributed then previous.reading.user else None
    requires previous.reading.version == a.version
    ensures FillsGap(p, h, UnknownSince(previous, attributed, start, end), |h| - 2)
  {
  }

  lemma GapStepAll(p: Policy, dead: map<nat, Interval>, w: Walk, when: Instant, attributed: bool)
    requires |p.zones| > 0 && WellKeyed(w.store, dead) && w.previous in w.store.intervals
    ensures var i := UnknownSince(w.store.intervals[w.previous], attributed, w.start, Stretch(p, w.start, when));
      && w.store.nextId !in AllOf(w.store, dead)
      && AllOf(GapStep(p, w, when, attributed).store, dead) == AllOf(w.store, dead)[w.store.nextId := i]
  {
    var previous := w.store.intervals[w.previous];
    var i := UnknownSince(previous, attributed, w.start, Stretch(p, w.start, when));
    InsertAll(w.store, dead, i);
    MarkKeepsIntervals(p, Insert(w.store, i), dead, if attributed then previous.reading.user else None, w.start, Stretch(p, w.start, when));
  }

  lemma GapStepSeen(p: Policy, dead: map<nat, Interval>, w: Walk, all: map<nat, Interval>, device: Device, h: seq<Heard>, a: Sample,
                    when: Instant, attributed: bool)
    requires ValidPolicy(p) && After(h, a, when) && when - a.when > p.maxGap && GapFrom(p, h, |h| - 2) <= w.start < when
    requires WellKeyed(w.store, dead) && w.previous in w.store.intervals && all == AllOf(w.store, dead)
    requires GapUser(h, |h| - 2) == if attributed then w.store.intervals[w.previous].reading.user else None
    requires w.store.intervals[w.previous].reading.version == a.version
    requires AllExplained(p, all, device, h) && AllHeld(p, all, device, h, |h| - 1)
    ensures var all' := AllOf(GapStep(p, w, when, attributed).store, dead);
      AllExplained(p, all', device, h) && AllHeld(p, all', device, h, |h| - 1)
  {
    var (end, previous) := (Stretch(p, w.start, when), w.store.intervals[w.previous]);
    BoundaryAhead(p, w.start);
    GapRowFills(p, h, a, previous, w.start, end, when, attributed);
    InsertExplained(p, all, device, h, |h| - 1, w.store.nextId, UnknownSince(previous, attributed, w.start, end), |h| - 2);
    GapStepAll(p, dead, w, when, attributed);
  }

  lemma {:induction false} GapWalkSeen(p: Policy, dead: map<nat, Interval>, w: Walk, device: Device, h: seq<Heard>, a: Sample,
                                       when: Instant, attributed: bool)
    requires ValidPolicy(p) && After(h, a, when) && when - a.when > p.maxGap && GapFrom(p, h, |h| - 2) <= w.start
    requires WellKeyed(w.store, dead) && w.previous in w.store.intervals
    requires GapUser(h, |h| - 2) == if attributed then w.store.intervals[w.previous].reading.user else None
    requires w.store.intervals[w.previous].reading.version == a.version
    requires AllExplained(p, AllOf(w.store, dead), device, h) && AllHeld(p, AllOf(w.store, dead), device, h, |h| - 1)
    ensures var all' := AllOf(WalkTo(p, w, when, true, attributed).store, dead);
      AllExplained(p, all', device, h) && AllHeld(p, all', device, h, |h| - 1)
    decreases when - w.start
  {
    if w.start < when {
      GapStepSeen(p, dead, w, AllOf(w.store, dead), device, h, a, when, attributed);
      GapStepAccounted(p, dead, w, when, attributed, GapUser(h, |h| - 2));
      GapWalkSeen(p, dead, GapStep(p, w, when, attributed), device, h, a, when, attributed);
    }
  }

  // ---- One sample ---------------------------------------------------------------------

  /** Every interval of the device is explained by a sample, every sample is held by an interval,
      and the cursor's interval was last seen when the cursor says. */
  ghost predicate Seen(p: Policy, s: Store, dead: map<nat, Interval>, device: Device, h: seq<Heard>) {
    && AllExplained(p, AllOf(s, dead), device, h) && AllHeld(p, AllOf(s, dead), device, h, |h|)
    && (Previous(s, device).Some? ==> s.intervals[s.cursors[device].interval.value].seen == s.cursors[device].last)
  }

  lemma SettleShortSeen(p: Policy, s: Store, dead: map<nat, Interval>, device: Device, h: seq<Heard>, b: Sample)
    requires ValidPolicy(p) && Tiled(p, s, dead) && Tracks(p, s, dead, device, h) && Seen(p, s, dead, device, h)
    requires Previous(s, device).Some? && h[|h| - 1].sample.when < b.when && b.when - h[|h| - 1].sample.when <= p.maxGap
    ensures var (s', previous) := Settle(p, s, device, b);
      previous.Some? && StaySeen(p, AllOf(s', dead), device, h + [Heard(b, true)], previous.value)
  {
    var (id, a, h') := (s.cursors[device].interval.value, h[|h| - 1].sample, h + [Heard(b, true)]);
    LongerExplained(p, AllOf(s, dead), device, h, Heard(b, true));
    assert LastHeld(p, h', AllOf(s, dead)[id], |h'| - 2);
    StayBegins(p, s, dead, device, h, b);
    StayWalkSeen(p, dead, Walk(s, id, a.when), device, h', a, b.when, Attributable(s.intervals[id], b, a.when));
  }

  lemma SettleLongSeen(p: Policy, s: Store, dead: map<nat, Interval>, device: Device, h: seq<Heard>, b: Sample)
    requires ValidPolicy(p) && Tiled(p, s, dead) && Tracks(p, s, dead, device, h) && Seen(p, s, dead, device, h)
    requires Previous(s, device).Some? && b.when - h[|h| - 1].sample.when > p.maxGap
    ensures var (s', _) := Settle(p, s, device, b);
      AllExplained(p, AllOf(s', dead), device, h + [Heard(b, true)]) && AllHeld(p, AllOf(s', dead), device, h + [Heard(b, true)], |h|)
  {
    var (id, a, h') := (s.cursors[device].interval.value, h[|h| - 1].sample, h + [Heard(b, true)]);
    LongerExplained(p, AllOf(s, dead), device, h, Heard(b, true));
    GapWalkSeen(p, dead, Walk(s, id, GapStart(p, a.when, b.when)), device, h', a, b.when, Attributable(s.intervals[id], b, a.when));
  }

  /** Everything before the sample itself. */
  lemma SettleSeen(p: Policy, s: Store, dead: map<nat, Interval>, device: Device, h: seq<Heard>, b: Sample)
    requires ValidPolicy(p) && Tiled(p, s, dead) && !Ignored(s, device, b) && Seen(p, s, dead, device, h)
    requires device in s.cursors ==> Tracks(p, s, dead, device, h)
    ensures var (s', _) := Settle(p, s, device, b); var h' := Extended(s, device, h, b);
      AllExplained(p, AllOf(s', dead), device, h') && AllHeld(p, AllOf(s', dead), device, h', |h|)
  {
    if Previous(s, device).None? {
      LongerExplained(p, AllOf(s, dead), device, h, Heard(b, false));
    } else if b.when - h[|h| - 1].sample.when <= p.maxGap {
      SettleShortSeen(p, s, dead, device, h, b);
    } else {
      SettleLongSeen(p, s, dead, device, h, b);
    }
  }

  lemma HoldsLast(p: Policy, all: map<nat, Interval>, device: Device, h: seq<Heard>, b: Sample, id: nat)
    requires |h| > 0 && h[|h| - 1].sample == b && AllHeld(p, all, device, h, |h| - 1)
    requires id in all && all[id].device == device && all[id].reading == ReadingOf(b) && all[id].seen == b.when
    requires all[id].started <= b.when <= all[id].ended && SameDays(p, all[id].started, b.when)
    ensures AllHeld(p, all, device, h, |h|)
  {
    assert HeldBy(p, all, device, b, id);
  }

  lemma AttachSeen(p: Policy, s: Store, dead: map<nat, Interval>, device: Device, h: seq<Heard>, b: Sample,
                   previous: Option<nat>, last: Instant)
    requires |p.zones| > 0 && |h| > 0 && h[|h| - 1].sample == b && WellKeyed(s, dead)
    requires AllExplained(p, AllOf(s, dead), device, h) && AllHeld(p, AllOf(s, dead), device, h, |h| - 1)
    requires previous.Some? ==> previous.value in s.intervals && s.intervals[previous.value].seen <= b.when
    requires previous.Some? && Continues(p, s.intervals[previous.value], last, b) ==>
               Newest(p, s, dead, device, previous.value, b)
    ensures var (s', id) := Attach(p, s, device, b, previous, last);
      AllExplained(p, AllOf(s', dead), device, h) && AllHeld(p, AllOf(s', dead), device, h, |h|)
      && id in s'.intervals && s'.intervals[id].seen == b.when
  {
    var all := AllOf(s, dead);
    if previous.Some? && Continues(p, s.intervals[previous.value], last, b) {
      var i := s.intervals[previous.value].(seen := b.when);
      UpdateAll(s, dead, previous.value, i);
      assert LastHeld(p, h, i, |h| - 1);
      UpdateExplained(p, all, device, h, |h| - 1, previous.value, i, |h| - 1);
      HoldsLast(p, all[previous.value := i], device, h, b, previous.value);
    } else {
      var i := Interval(device, ReadingOf(b), b.when, b.when, b.when);
      InsertAll(s, dead, i);
      assert LastHeld(p, h, i, |h| - 1);
      InsertExplained(p, all, device, h, |h| - 1, s.nextId, i, |h| - 1);
      HoldsLast(p, all[s.nextId := i], device, h, b, s.nextId);
    }
  }

  lemma SettledSeenBefore(p: Policy, s: Store, dead: map<nat, Interval>, device: Device, h: seq<Heard>, b: Sample)
    requires ValidPolicy(p) && Tiled(p, s, dead) && !Ignored(s, device, b) && Seen(p, s, dead, device, h)
    requires device in s.cursors ==> Tracks(p, s, dead, device, h)
    ensures var (s', previous) := Settle(p, s, device, b);
      previous.Some? ==> previous.value in s'.intervals && s'.intervals[previous.value].seen <= b.when
  {
    if Previous(s, device).Some? {
      var (id, a) := (s.cursors[device].interval.value, h[|h| - 1].sample);
      if b.when - a.when <= p.maxGap {
        SettleShortSeen(p, s, dead, device, h, b);
        SettleShortGap(p, s, dead, device, h, b);
      } else {
        GapWalkKeepsPrevious(p, Walk(s, id, GapStart(p, a.when, b.when)), b.when, Attributable(s.intervals[id], b, a.when));
      }
    }
  }

  lemma {:induction false} GapWalkKeepsPrevious(p: Policy, w: Walk, when: Instant, attributed: bool)
    requires ValidPolicy(p) && w.previous in w.store.intervals && KeysBelow(w.store)
    ensures var r := WalkTo(p, w, when, true, attributed);
      r.previous == w.previous && w.previous in r.store.intervals && r.store.intervals[w.previous] == w.store.intervals[w.previous]
    decreases when - w.start
  {
    if w.start < when {
      BoundaryAhead(p, w.start);
      GapWalkKeepsPrevious(p, GapStep(p, w, when, attributed), when, attributed);
    }
  }

  /** Accepting a sample keeps all of that. */
  lemma RecordSeen(p: Policy, s: Store, dead: map<nat, Interval>, device: Device, h: seq<Heard>, b: Sample)
    requires ValidPolicy(p) && Tiled(p, s, dead) && !Ignored(s, device, b) && Seen(p, s, dead, device, h)
    requires device in s.cursors ==> Tracks(p, s, dead, device, h)
    requires device !in s.cursors ==> Quiet(p, s, dead, device, h, b.when)
    ensures Seen(p, Record(p, s, device, b), dead, device, Extended(s, device, h, b))
  {
    var h' := Extended(s, device, h, b);
    var (settled, previous) := Settle(p, s, device, b);
    var last := if device in s.cursors then s.cursors[device].last else b.when;
    SettleSeen(p, s, dead, device, h, b);
    SettledSeenBefore(p, s, dead, device, h, b);
    SettleKeeps(p, s, dead, device, h, b);
    ContinuedIsNewest(p, s, dead, device, h, b);
    AttachSeen(p, settled, dead, device, h', b, previous, last);
    var (attached, id) := Attach(p, settled, device, b, previous, last);
    var placed := attached.(cursors := attached.cursors[device := Cursor(Some(id), b.id, b.when, b.user, b.state)]);
    assert AllOf(MarkDirty(p, placed, b.user, b.when, b.when), dead) == AllOf(attached, dead);
  }

  /** Another device's intervals are as they were. */
  lemma SeenUnaffected(p: Policy, s: Store, s': Store, dead: map<nat, Interval>, device: Device, other: Device, h: seq<Heard>)
    requires other != device && LeavesOthers(s, s', device) && WellKeyed(s, dead) && WellKeyed(s', dead)
    requires s'.cursors - {device} == s.cursors - {device} && Seen(p, s, dead, other, h)
    requires other in s.cursors && s.cursors[other].interval.Some? ==>
               s.cursors[other].interval.value in s.intervals && s.intervals[s.cursors[other].interval.value].device == other
    ensures Seen(p, s', dead, other, h)
  {
    var (all, all') := (AllOf(s, dead), AllOf(s', dead));
    forall n ensures n in all' && all'[n].device == other <==> n in all && all[n].device == other {
    }
    forall n | n in all && all[n].device == other ensures all'[n] == all[n] {
    }
    forall j | 0 <= j < |h| ensures Held(p, all', other, h[j].sample) {
      var n :| HeldBy(p, all, other, h[j].sample, n);
      assert HeldBy(p, all', other, h[j].sample, n);
    }
    assert other in s'.cursors <==> other in s'.cursors - {device};
    assert other in s.cursors <==> other in s.cursors - {device};
    if other in s'.cursors { assert s'.cursors[other] == (s'.cursors - {device})[other] == s.cursors[other]; }
  }

  // ---- What one sample does, said outright --------------------------------------------

  /** Walking moves no last-observed time of a stored interval. */
  ghost predicate KeepsSeen(s: Store, s': Store) {
    s.nextId <= s'.nextId && forall n | n in s.intervals :: n in s'.intervals && s'.intervals[n].seen == s.intervals[n].seen
  }

  lemma {:induction false} WalkKeepsSeen(p: Policy, w: Walk, when: Instant, gap: bool, attributed: bool)
    requires ValidPolicy(p) && w.previous in w.store.intervals && KeysBelow(w.store)
    ensures var r := WalkTo(p, w, when, gap, attributed); KeepsSeen(w.store, r.store) && KeysBelow(r.store)
    decreases when - w.start
  {
    if w.start < when {
      BoundaryAhead(p, w.start);
      StepKeepsPrevious(p, w, when, gap, attributed);
      StepKeepsSeen(p, w, when, gap, attributed);
      WalkKeepsSeen(p, Step(p, w, when, gap, attributed), when, gap, attributed);
    }
  }

  lemma StepKeepsSeen(p: Policy, w: Walk, when: Instant, gap: bool, attributed: bool)
    requires |p.zones| > 0 && w.previous in w.store.intervals && KeysBelow(w.store)
    ensures var w' := Step(p, w, when, gap, attributed); KeepsSeen(w.store, w'.store) && KeysBelow(w'.store)
  {
  }

  /** A sample of a known device that is no later than the last one, or repeats its id, does
      nothing at all; any other moves the cursor to itself and is the last its interval was seen by,
      and no other stored interval's last-observed time moves. */
  lemma SampleIsSeen(p: Policy, s: Store, device: Device, b: Sample)
    requires ValidPolicy(p) && KeysBelow(s)
    ensures var s' := Record(p, s, device, b);
      if device in s.cursors && (b.when <= s.cursors[device].last || b.id == s.cursors[device].observation) then s' == s
      else
        && device in s'.cursors && s'.cursors[device].interval.Some?
        && var c := s'.cursors[device];
        && c.observation == b.id && c.last == b.when && c.user == b.user && c.state == b.state
        && c.interval.value in s'.intervals && s'.intervals[c.interval.value].seen == b.when
        && (forall n | n in s.intervals && n != c.interval.value ::
              n in s'.intervals && s'.intervals[n].seen == s.intervals[n].seen)
  {
    if !Ignored(s, device, b) && Previous(s, device).Some? {
      var (id, last) := (s.cursors[device].interval.value, s.cursors[device].last);
      WalkKeepsSeen(p, Walk(s, id, GapStart(p, last, b.when)), b.when, LongGap(p, last, b.when),
                    Attributable(s.intervals[id], b, last));
    }
  }

  lemma OneStretch(p: Policy, s: Store, n: nat, from: Instant, when: Instant, attributed: bool)
    requires ValidPolicy(p) && n in s.intervals && from < when && SameDays(p, from, when)
    requires s.intervals[n].started <= s.intervals[n].ended == from
    ensures var r := WalkTo(p, Walk(s, n, from), when, false, attributed);
      r.previous == n && r.store.intervals == s.intervals[n := s.intervals[n].(ended := when)]
  {
    SameDaysUntilBoundary(p, from, when);
    var w1 := StayStep(p, Walk(s, n, from), when);
    assert w1.start == when && WalkTo(p, w1, when, false, attributed) == w1;
  }

  lemma AttachedHeartbeat(p: Policy, s: Store, device: Device, b: Sample, n: nat, last: Instant)
    requires n in s.intervals && Continues(p, s.intervals[n], last, b)
    ensures var (s', id) := Attach(p, s, device, b, Some(n), last);
      id == n && s'.intervals == s.intervals[n := s.intervals[n].(seen := b.when)]
  {
  }

  /** While reading and calendar day stay the same and no gap lies between, a sample adds no row: it
      only moves the end of the running interval, and when that was last seen, to itself. */
  lemma HeartbeatAddsNoRow(p: Policy, s: Store, dead: map<nat, Interval>, device: Device, h: seq<Heard>, b: Sample)
    requires ValidPolicy(p) && Tiled(p, s, dead) && Tracks(p, s, dead, device, h) && Previous(s, device).Some?
    requires var a := h[|h| - 1].sample;
      a.when < b.when <= a.when + p.maxGap && b.id != s.cursors[device].observation
      && ReadingOf(b) == ReadingOf(a) && SameDays(p, a.when, b.when)
    ensures var (s', n) := (Record(p, s, device, b), s.cursors[device].interval.value);
      s'.cursors[device].interval == Some(n)
      && s'.intervals == s.intervals[n := s.intervals[n].(ended := b.when, seen := b.when)]
  {
    var (a, n) := (h[|h| - 1].sample, s.cursors[device].interval.value);
    OneStretch(p, s, n, a.when, b.when, Attributable(s.intervals[n], b, a.when));
    var (settled, previous) := Settle(p, s, device, b);
    assert previous == Some(n) && settled.intervals == s.intervals[n := s.intervals[n].(ended := b.when)];
    AttachedHeartbeat(p, settled, device, b, n, a.when);
  }
}
