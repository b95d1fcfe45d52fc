/** The stored intervals of a device are disjoint, never cross a report boundary, and tell at
    every instant exactly what the accepted samples said. */
module Tiling {
  import opened Calendar
  import opened Activity
  import opened Recorder

  // ---- What the samples say -----------------------------------------------------------

  /** What sample `a` followed by sample `b` says about the instant `t` between them. */
  function Between(p: Policy, a: Sample, b: Sample, t: Instant): Option<Reading> {
    if !LongGap(p, a.when, b.when) then Some(ReadingOf(a))
    else if t < b.when - Days(p.detailDays) then None
    else
      var owner := if a.user == b.user && b.when - a.when <= Days(1) then a.user else None;
      Some(Reading(owner, UNKNOWN, None, None, None, a.version))
  }

  /** An accepted sample; `resumed` tells whether the time since the one before was accounted for. */
  datatype Heard = Heard(sample: Sample, resumed: bool)

  /** What all samples of a device ever say about instant `t`: nothing at or after the last, and
      nothing before one that tracking restarted with. */
  function ReadingAt(p: Policy, h: seq<Heard>, t: Instant): Option<Reading> {
    if |h| < 2 || h[|h| - 1].sample.when <= t then None
    else if h[|h| - 2].sample.when <= t then
      if h[|h| - 1].resumed then Between(p, h[|h| - 2].sample, h[|h| - 1].sample, t) else None
    else ReadingAt(p, h[..|h| - 1], t)
  }

  ghost predicate InOrder(h: seq<Heard>) {
    forall i, j | 0 <= i < j < |h| :: h[i].sample.when < h[j].sample.when
  }

  // ---- What the store tells -----------------------------------------------------------

  /** Interval number `n` of the device covers instant `t`. */
  ghost predicate On(all: map<nat, Interval>, device: Device, n: nat, t: Instant) {
    n in all && all[n].device == device && all[n].started <= t < all[n].ended
  }

  ghost predicate Disjoint(all: map<nat, Interval>) {
    forall m, n | m in all && n in all && m != n && all[m].device == all[n].device ::
      all[m].ended <= all[n].started || all[n].ended <= all[m].started
  }

  /** No interval crosses a midnight of any supported zone. */
  ghost predicate Uncrossed(p: Policy, all: map<nat, Interval>)
    requires |p.zones| > 0
  {
    forall n | n in all :: all[n].started <= all[n].ended <= Boundary(p, all[n].started)
  }

  /** Every other interval of the device ended by `at`. */
  ghost predicate Behind(all: map<nat, Interval>, device: Device, except: Option<nat>, at: Instant) {
    forall n | n in all && all[n].device == device && Some(n) != except :: all[n].ended <= at
  }

  /** Up to `bound` the store tells exactly what the samples say, and nothing beyond. */
  ghost predicate Tells(p: Policy, all: map<nat, Interval>, device: Device, h: seq<Heard>, bound: Instant) {
    && (forall n, t :: On(all, device, n, t) ==>
          t < bound && ReadingAt(p, h, t) == Some(all[n].reading))
    && (forall t | t < bound && ReadingAt(p, h, t).Some? :: exists n :: On(all, device, n, t))
  }

  // ---- Changing one interval ----------------------------------------------------------

  lemma InsertKeepsTiling(p: Policy, all: map<nat, Interval>, id: nat, i: Interval)
    requires |p.zones| > 0 && Disjoint(all) && Uncrossed(p, all) && id !in all
    requires Behind(all, i.device, None, i.started) && i.started <= i.ended <= Boundary(p, i.started)
    ensures Disjoint(all[id := i]) && Uncrossed(p, all[id := i])
    ensures Behind(all[id := i], i.device, Some(id), i.started)
  {
  }

  lemma ExtendKeepsTiling(p: Policy, all: map<nat, Interval>, id: nat, end: Instant)
    requires |p.zones| > 0 && Disjoint(all) && Uncrossed(p, all) && id in all
    requires Behind(all, all[id].device, Some(id), all[id].started)
    requires all[id].ended <= end <= Boundary(p, all[id].started)
    ensures var all' := all[id := all[id].(ended := end)];
            Disjoint(all') && Uncrossed(p, all') && Behind(all', all[id].device, Some(id), all[id].started)
  {
  }

  /** Covering [start, end) with the reading the samples give it moves the bound to `end`. */
  lemma CoverTells(p: Policy, all: map<nat, Interval>, all': map<nat, Interval>, device: Device, h: seq<Heard>,
                   id: nat, start: Instant, end: Instant)
    requires |h| > 0 && start <= end && Tells(p, all, device, h, start)
    requires id in all' && all'[id].device == device
    requires forall t | start <= t < end :: ReadingAt(p, h, t) == Some(all'[id].reading)
    requires forall n, t :: On(all', device, n, t) <==> On(all, device, n, t) || (n == id && start <= t < end)
    requires forall n | n in all && n in all' :: all'[n].reading == all[n].reading
    ensures Tells(p, all', device, h, end)
  {
    forall t | t < end && ReadingAt(p, h, t).Some?
      ensures exists n :: On(all', device, n, t)
    {
      if t < start {
        var n :| On(all, device, n, t);
        assert On(all', device, n, t);
      } else {
        assert On(all', device, id, t);
      }
    }
  }

  /** A change that moves no covered instant tells the same. */
  lemma SameCoverTells(p: Policy, all: map<nat, Interval>, all': map<nat, Interval>, device: Device, h: seq<Heard>, bound: Instant)
    requires |h| > 0 && Tells(p, all, device, h, bound)
    requires forall n, t :: On(all', device, n, t) <==> On(all, device, n, t)
    requires forall n | n in all && n in all' :: all'[n].reading == all[n].reading
    ensures Tells(p, all', device, h, bound)
  {
    forall t | t < bound && ReadingAt(p, h, t).Some?
      ensures exists n :: On(all', device, n, t)
    {
      var n :| On(all, device, n, t);
      assert On(all', device, n, t);
    }
  }

  lemma {:induction false} NextMidnightByDate(p: Policy, s: Instant, t: Instant, n: nat)
    requires 0 < n <= |p.zones| && SameDays(p, s, t)
    ensures NextMidnight(p, s, n) == NextMidnight(p, t, n)
  {
    if n > 1 { NextMidnightByDate(p, s, t, n - 1); }
  }

  // ---- The store together with intervals retention has already removed -----------------

  /** Every interval ever recorded: the stored ones and the removed ones. */
  ghost function AllOf(s: Store, dead: map<nat, Interval>): map<nat, Interval> { s.intervals + dead }

  ghost predicate WellKeyed(s: Store, dead: map<nat, Interval>) {
    && (forall n | n in s.intervals :: n < s.nextId && n !in dead)
    && (forall n | n in dead :: n < s.nextId)
  }

  lemma InsertAll(s: Store, dead: map<nat, Interval>, i: Interval)
    requires WellKeyed(s, dead)
    ensures WellKeyed(Insert(s, i), dead) && s.nextId !in AllOf(s, dead)
    ensures AllOf(Insert(s, i), dead) == AllOf(s, dead)[s.nextId := i]
  {
  }

  lemma UpdateAll(s: Store, dead: map<nat, Interval>, id: nat, i: Interval)
    requires WellKeyed(s, dead) && id in s.intervals
    ensures WellKeyed(s.(intervals := s.intervals[id := i]), dead)
    ensures AllOf(s.(intervals := s.intervals[id := i]), dead) == AllOf(s, dead)[id := i]
  {
  }

  // ---- One stretch --------------------------------------------------------------------

  /** What holds before each stretch of a short gap: `previous` is the newest interval, it ends
      where the walk stands, and the store tells the samples up to there. */
  ghost predicate Staying(p: Policy, dead: map<nat, Interval>, w: Walk, device: Device, h: seq<Heard>,
                          reading: Reading, when: Instant)
    requires |p.zones| > 0 && |h| > 0
  {
    var all := AllOf(w.store, dead);
    && WellKeyed(w.store, dead) && w.previous in w.store.intervals && w.start <= when
    && Disjoint(all) && Uncrossed(p, all)
    && var i := all[w.previous];
    && i.device == device && i.reading == reading && i.started <= i.ended == w.start
    && Behind(all, device, Some(w.previous), i.started)
    && (w.start < when ==> SameDays(p, i.started, w.start))
    && Tells(p, all, device, h, w.start)
  }

  /** During a short gap the loop always extends: it never takes the arm that starts a
      continuation row. */
  lemma AlwaysExtends(p: Policy, dead: map<nat, Interval>, w: Walk, device: Device, h: seq<Heard>,
                      reading: Reading, when: Instant)
    requires ValidPolicy(p) && |h| > 0 && Staying(p, dead, w, device, h, reading, when) && w.start < when
    ensures var i := w.store.intervals[w.previous]; i.ended == w.start && i.started < Boundary(p, w.start)
  {
    BoundaryAhead(p, w.start);
  }

  /** The samples give `reading` to every instant from `start` to `when`. */
  ghost predicate Given(p: Policy, h: seq<Heard>, start: Instant, when: Instant, reading: Reading) {
    forall t | start <= t < when :: ReadingAt(p, h, t) == Some(reading)
  }

  /** Marking days touches no interval. */
  lemma MarkKeepsIntervals(p: Policy, s: Store, dead: map<nat, Interval>, user: Option<string>, a: Instant, b: Instant)
    requires WellKeyed(s, dead)
    ensures WellKeyed(MarkDirty(p, s, user, a, b), dead)
    ensures AllOf(MarkDirty(p, s, user, a, b), dead) == AllOf(s, dead)
    ensures MarkDirty(p, s, user, a, b).intervals == s.intervals && MarkDirty(p, s, user, a, b).nextId == s.nextId
  {
  }

  /** Extending the newest interval up to the end of the stretch. */
  lemma ExtendStretch(p: Policy, all: map<nat, Interval>, id: nat, device: Device, h: seq<Heard>,
                      start: Instant, end: Instant, reading: Reading)
    requires ValidPolicy(p) && |h| > 0 && Disjoint(all) && Uncrossed(p, all) && id in all
    requires all[id].device == device && all[id].reading == reading
    requires all[id].started <= all[id].ended == start <= end <= Boundary(p, start)
    requires SameDays(p, all[id].started, start)
    requires Behind(all, device, Some(id), all[id].started)
    requires Tells(p, all, device, h, start) && Given(p, h, start, end, reading)
    ensures var all' := all[id := all[id].(ended := end)];
      && Disjoint(all') && Uncrossed(p, all') && Behind(all', device, Some(id), all[id].started)
      && Tells(p, all', device, h, end)
  {
    var all' := all[id := all[id].(ended := end)];
    NextMidnightByDate(p, all[id].started, start, |p.zones|);
    ExtendKeepsTiling(p, all, id, end);
    CoverTells(p, all, all', device, h, id, start, end);
  }

  /** Starting afresh at a boundary covers nothing new. */
  lemma FreshRow(p: Policy, all: map<nat, Interval>, id: nat, i: Interval, device: Device, h: seq<Heard>)
    requires ValidPolicy(p) && |h| > 0 && Disjoint(all) && Uncrossed(p, all) && id !in all
    requires i.device == device && i.started == i.ended
    requires Behind(all, device, None, i.started) && Tells(p, all, device, h, i.started)
    ensures var all' := all[id := i];
      && Disjoint(all') && Uncrossed(p, all') && Behind(all', device, Some(id), i.started)
      && Tells(p, all', device, h, i.started)
  {
    BoundaryAhead(p, i.started);
    InsertKeepsTiling(p, all, id, i);
    SameCoverTells(p, all, all[id := i], device, h, i.started);
  }

  lemma StayStepKeeps(p: Policy, dead: map<nat, Interval>, w: Walk, device: Device, h: seq<Heard>,
                      reading: Reading, when: Instant)
    requires ValidPolicy(p) && |h| > 0 && Staying(p, dead, w, device, h, reading, when) && w.start < when
    requires Given(p, h, w.start, when, reading)
    ensures Staying(p, dead, StayStep(p, w, when), device, h, reading, when)
  {
    var (all, end, boundary) := (AllOf(w.store, dead), Stretch(p, w.start, when), Boundary(p, w.start));
    var i := w.store.intervals[w.previous];
    var i' := i.(ended := end);
    AlwaysExtends(p, dead, w, device, h, reading, when);
    BoundaryAhead(p, w.start);
    ExtendStretch(p, all, w.previous, device, h, w.start, end, reading);
    UpdateAll(w.store, dead, w.previous, i');
    var s := w.store.(intervals := w.store.intervals[w.previous := i']);
    MarkKeepsIntervals(p, s, dead, i.reading.user, w.start, end);
    var marked := MarkDirty(p, s, i.reading.user, w.start, end);
    if end == boundary && end < when {
      var row := i.(started := end, ended := end);
      InsertAll(marked, dead, row);
      FreshRow(p, AllOf(marked, dead), marked.nextId, row, device, h);
    }
  }

  /** What holds before each stretch of a long gap. */
  ghost predicate Gapping(p: Policy, dead: map<nat, Interval>, w: Walk, device: Device, h: seq<Heard>,
                          unknown: Reading, attributed: bool, when: Instant)
    requires |p.zones| > 0 && |h| > 0
  {
    var all := AllOf(w.store, dead);
    && WellKeyed(w.store, dead) && w.previous in w.store.intervals && w.start <= when
    && Disjoint(all) && Uncrossed(p, all)
    && var i := all[w.previous];
    && i.device == device && UnknownSince(i, attributed, w.start, w.start).reading == unknown
    && Behind(all, device, None, w.start)
    && Tells(p, all, device, h, w.start)
  }

  lemma GapStretch(p: Policy, all: map<nat, Interval>, id: nat, i: Interval, device: Device, h: seq<Heard>)
    requires ValidPolicy(p) && |h| > 0 && Disjoint(all) && Uncrossed(p, all) && id !in all
    requires i.device == device && i.started < i.ended <= Boundary(p, i.started)
    requires Behind(all, device, None, i.started)
    requires Tells(p, all, device, h, i.started) && Given(p, h, i.started, i.ended, i.reading)
    ensures var all' := all[id := i];
      && Disjoint(all') && Uncrossed(p, all') && Behind(all', device, None, i.ended)
      && Tells(p, all', device, h, i.ended)
  {
    InsertKeepsTiling(p, all, id, i);
    CoverTells(p, all, all[id := i], device, h, id, i.started, i.ended);
  }

  lemma GapStepKeeps(p: Policy, dead: map<nat, Interval>, w: Walk, device: Device, h: seq<Heard>,
                     unknown: Reading, attributed: bool, when: Instant)
    requires ValidPolicy(p) && |h| > 0 && Gapping(p, dead, w, device, h, unknown, attributed, when) && w.start < when
    requires Given(p, h, w.start, when, unknown)
    ensures Gapping(p, dead, GapStep(p, w, when, attributed), device, h, unknown, attributed, when)
  {
    var (all, end, previous) := (AllOf(w.store, dead), Stretch(p, w.start, when), w.store.intervals[w.previous]);
    var i := UnknownSince(previous, attributed, w.start, end);
    BoundaryAhead(p, w.start);
    InsertAll(w.store, dead, i);
    GapStretch(p, all, w.store.nextId, i, device, h);
    MarkKeepsIntervals(p, Insert(w.store, i), dead, if attributed then previous.reading.user else None, w.start, end);
  }

  lemma {:induction false} StayWalkKeeps(p: Policy, dead: map<nat, Interval>, w: Walk, device: Device, h: seq<Heard>,
                                         reading: Reading, when: Instant)
    requires ValidPolicy(p) && |h| > 0 && Staying(p, dead, w, device, h, reading, when)
    requires Given(p, h, w.start, when, reading)
    ensures forall attributed :: var r := WalkTo(p, w, when, false, attributed);
              r.start == when && Staying(p, dead, r, device, h, reading, when)
    decreases when - w.start
  {
    if w.start < when {
      BoundaryAhead(p, w.start);
      StayStepKeeps(p, dead, w, device, h, reading, when);
      StayWalkKeeps(p, dead, StayStep(p, w, when), device, h, reading, when);
    }
  }

  lemma {:induction false} GapWalkKeeps(p: Policy, dead: map<nat, Interval>, w: Walk, device: Device, h: seq<Heard>,
                                        unknown: Reading, attributed: bool, when: Instant)
    requires ValidPolicy(p) && |h| > 0 && Gapping(p, dead, w, device, h, unknown, attributed, when)
    requires Given(p, h, w.start, when, unknown)
    ensures var r := WalkTo(p, w, when, true, attributed);
            r.start == when && Gapping(p, dead, r, device, h, unknown, attributed, when)
    decreases when - w.start
  {
    if w.start < when {
      BoundaryAhead(p, w.start);
      GapStepKeeps(p, dead, w, device, h, unknown, attributed, when);
      GapWalkKeeps(p, dead, GapStep(p, w, when, attributed), device, h, unknown, attributed, when);
    }
  }

  // ---- One sample ---------------------------------------------------------------------

  /** The cursor of a device stands at its last accepted sample, its interval (while stored) is
      the newest one, ends there, lies within one calendar day and carries that sample's reading,
      and the intervals tell the history `h` since tracking last started. */
  ghost predicate Tracks(p: Policy, s: Store, dead: map<nat, Interval>, device: Device, h: seq<Heard>)
    requires |p.zones| > 0
  {
    var all := AllOf(s, dead);
    device in s.cursors && |h| > 0 && InOrder(h)
    && var (c, a) := (s.cursors[device], h[|h| - 1].sample);
    && a.when == c.last
    && Behind(all, device, None, c.last)
    && Tells(p, all, device, h, c.last)
    && (c.interval.Some? ==> Newest(p, s, dead, device, c.interval.value, a))
  }

  ghost predicate Newest(p: Policy, s: Store, dead: map<nat, Interval>, device: Device, id: nat, a: Sample) {
    && id in s.intervals
    && var i := s.intervals[id];
    && i.device == device && i.reading == ReadingOf(a)
    && i.started <= i.ended == a.when && SameDays(p, i.started, a.when)
    && Behind(AllOf(s, dead), device, Some(id), i.started)
  }

  ghost predicate Tiled(p: Policy, s: Store, dead: map<nat, Interval>)
    requires |p.zones| > 0
  {
    WellKeyed(s, dead) && Disjoint(AllOf(s, dead)) && Uncrossed(p, AllOf(s, dead))
  }

  /** Everything up to `when` is settled under the history `h`. */
  ghost predicate SettledTo(p: Policy, s: Store, dead: map<nat, Interval>, device: Device, h: seq<Heard>, when: Instant)
    requires |p.zones| > 0 && |h| > 0
  {
    Tiled(p, s, dead) && Behind(AllOf(s, dead), device, None, when) && Tells(p, AllOf(s, dead), device, h, when)
  }

  lemma LongerHistory(p: Policy, h: seq<Heard>, x: Heard, t: Instant)
    requires |h| > 0 && h[|h| - 1].sample.when < x.sample.when
    ensures ReadingAt(p, h + [x], t)
         == if x.sample.when <= t then None
            else if h[|h| - 1].sample.when <= t then (if x.resumed then Between(p, h[|h| - 1].sample, x.sample, t) else None)
            else ReadingAt(p, h, t)
  {
    assert (h + [x])[..|h|] == h;
  }

  lemma NothingSince(p: Policy, h: seq<Heard>, t: Instant)
    ensures h == [] || h[|h| - 1].sample.when <= t ==> ReadingAt(p, h, t).None?
  {
  }

  /** Adding a sample leaves the past as told; a hole the samples say nothing about stays a hole. */
  lemma TellsOnward(p: Policy, all: map<nat, Interval>, device: Device, h: seq<Heard>, x: Heard, from: Instant, start: Instant)
    requires h != [] ==> h[|h| - 1].sample.when < x.sample.when && h[|h| - 1].sample.when <= from
    requires Tells(p, all, device, h, from) && from <= start <= x.sample.when
    requires forall t | (h == [] || h[|h| - 1].sample.when <= t) && t < start :: ReadingAt(p, h + [x], t).None?
    ensures Tells(p, all, device, h + [x], start)
  {
    forall t | h != [] && t < h[|h| - 1].sample.when ensures ReadingAt(p, h + [x], t) == ReadingAt(p, h, t) {
      LongerHistory(p, h, x, t);
    }
    forall n, t | On(all, device, n, t) ensures t < start && ReadingAt(p, h + [x], t) == Some(all[n].reading) {
      NothingSince(p, h, t);
    }
    forall t | t < start && ReadingAt(p, h + [x], t).Some? ensures exists n :: On(all, device, n, t) {
      assert h != [] && t < h[|h| - 1].sample.when;
    }
  }

  lemma StayBegins(p: Policy, s: Store, dead: map<nat, Interval>, device: Device, h: seq<Heard>, b: Sample)
    requires ValidPolicy(p) && Tiled(p, s, dead) && Tracks(p, s, dead, device, h)
    requires Previous(s, device).Some? && h[|h| - 1].sample.when < b.when
    requires !LongGap(p, h[|h| - 1].sample.when, b.when)
    ensures var (id, a) := (s.cursors[device].interval.value, h[|h| - 1].sample);
      && Staying(p, dead, Walk(s, id, a.when), device, h + [Heard(b, true)], ReadingOf(a), b.when)
      && Given(p, h + [Heard(b, true)], a.when, b.when, ReadingOf(a))
  {
    var a := h[|h| - 1].sample;
    TellsOnward(p, AllOf(s, dead), device, h, Heard(b, true), a.when, a.when);
    forall t | a.when <= t < b.when ensures ReadingAt(p, h + [Heard(b, true)], t) == Some(ReadingOf(a)) {
      LongerHistory(p, h, Heard(b, true), t);
    }
  }

  lemma SettleShortGap(p: Policy, s: Store, dead: map<nat, Interval>, device: Device, h: seq<Heard>, b: Sample)
    requires ValidPolicy(p) && Tiled(p, s, dead) && Tracks(p, s, dead, device, h)
    requires Previous(s, device).Some? && h[|h| - 1].sample.when < b.when
    requires !LongGap(p, h[|h| - 1].sample.when, b.when)
    ensures var (s', previous) := Settle(p, s, device, b);
      && previous.Some? && SettledTo(p, s', dead, device, h + [Heard(b, true)], b.when)
      && Staying(p, dead, Walk(s', previous.value, b.when), device, h + [Heard(b, true)], ReadingOf(h[|h| - 1].sample), b.when)
  {
    var (id, a, h') := (s.cursors[device].interval.value, h[|h| - 1].sample, h + [Heard(b, true)]);
    StayBegins(p, s, dead, device, h, b);
    StayWalkKeeps(p, dead, Walk(s, id, a.when), device, h', ReadingOf(a), b.when);
  }

  /** Across a long gap the samples say UNKNOWN, of the same account or of nobody. */
  lemma GapReading(p: Policy, h: seq<Heard>, a: Sample, b: Sample, previous: Interval, attributed: bool, start: Instant)
    requires |h| > 0 && h[|h| - 1].sample == a && a.when < b.when && LongGap(p, a.when, b.when)
    requires previous.reading == ReadingOf(a) && attributed == Attributable(previous, b, a.when)
    requires start == GapStart(p, a.when, b.when)
    ensures Given(p, h + [Heard(b, true)], start, b.when, UnknownSince(previous, attributed, start, start).reading)
    ensures forall t | a.when <= t < start :: Between(p, a, b, t).None?
  {
    forall t ensures ReadingAt(p, h + [Heard(b, true)], t)
         == if b.when <= t then None
            else if a.when <= t then Between(p, a, b, t)
            else ReadingAt(p, h, t)
    {
      LongerHistory(p, h, Heard(b, true), t);
    }
  }

  lemma GapBegins(p: Policy, s: Store, dead: map<nat, Interval>, device: Device, h: seq<Heard>, a: Sample, b: Sample,
                  id: nat, attributed: bool, start: Instant)
    requires ValidPolicy(p) && |h| > 0 && h[|h| - 1].sample == a && a.when < b.when && Tiled(p, s, dead)
    requires Behind(AllOf(s, dead), device, None, a.when) && Tells(p, AllOf(s, dead), device, h, a.when)
    requires id in s.intervals && s.intervals[id].device == device && a.when <= start <= b.when
    requires forall t | a.when <= t < start :: Between(p, a, b, t).None?
    ensures Gapping(p, dead, Walk(s, id, start), device, h + [Heard(b, true)],
                    UnknownSince(s.intervals[id], attributed, start, start).reading, attributed, b.when)
  {
    forall t | a.when <= t && t < start ensures ReadingAt(p, h + [Heard(b, true)], t).None? {
      LongerHistory(p, h, Heard(b, true), t);
    }
    TellsOnward(p, AllOf(s, dead), device, h, Heard(b, true), a.when, start);
  }

  lemma SettleLongGap(p: Policy, s: Store, dead: map<nat, Interval>, device: Device, h: seq<Heard>, b: Sample)
    requires ValidPolicy(p) && Tiled(p, s, dead) && Tracks(p, s, dead, device, h)
    requires Previous(s, device).Some? && h[|h| - 1].sample.when < b.when
    requires LongGap(p, h[|h| - 1].sample.when, b.when)
    ensures var (s', previous) := Settle(p, s, device, b);
      previous.Some? && SettledTo(p, s', dead, device, h + [Heard(b, true)], b.when)
  {
    var (id, a) := (s.cursors[device].interval.value, h[|h| - 1].sample);
    var start := GapStart(p, a.when, b.when);
    var attributed := Attributable(s.intervals[id], b, a.when);
    GapReading(p, h, a, b, s.intervals[id], attributed, start);
    GapBegins(p, s, dead, device, h, a, b, id, attributed, start);
    GapWalkKeeps(p, dead, Walk(s, id, start), device, h + [Heard(b, true)],
                 UnknownSince(s.intervals[id], attributed, start, start).reading, attributed, b.when);
  }

  lemma AttachNew(p: Policy, s: Store, dead: map<nat, Interval>, device: Device, h: seq<Heard>, b: Sample)
    requires ValidPolicy(p) && |h| > 0 && h[|h| - 1].sample == b && SettledTo(p, s, dead, device, h, b.when)
    ensures var i := Interval(device, ReadingOf(b), b.when, b.when, b.when);
      && SettledTo(p, Insert(s, i), dead, device, h, b.when)
      && Newest(p, Insert(s, i), dead, device, s.nextId, b)
  {
    var i := Interval(device, ReadingOf(b), b.when, b.when, b.when);
    InsertAll(s, dead, i);
    FreshRow(p, AllOf(s, dead), s.nextId, i, device, h);
  }

  lemma SeenKeepsTiling(p: Policy, all: map<nat, Interval>, id: nat, seen: Instant, device: Device, h: seq<Heard>, bound: Instant)
    requires |p.zones| > 0 && |h| > 0 && id in all
    requires Disjoint(all) && Uncrossed(p, all) && Tells(p, all, device, h, bound)
    requires Behind(all, device, None, bound) && Behind(all, device, Some(id), all[id].started)
    ensures var all' := all[id := all[id].(seen := seen)];
      && Disjoint(all') && Uncrossed(p, all') && Tells(p, all', device, h, bound)
      && Behind(all', device, None, bound) && Behind(all', device, Some(id), all[id].started)
  {
    SameCoverTells(p, all, all[id := all[id].(seen := seen)], device, h, bound);
  }

  lemma AttachHeartbeat(p: Policy, s: Store, dead: map<nat, Interval>, device: Device, h: seq<Heard>, b: Sample, id: nat)
    requires ValidPolicy(p) && |h| > 0 && h[|h| - 1].sample == b && SettledTo(p, s, dead, device, h, b.when)
    requires Newest(p, s, dead, device, id, b)
    ensures var s' := s.(intervals := s.intervals[id := s.intervals[id].(seen := b.when)]);
      SettledTo(p, s', dead, device, h, b.when) && Newest(p, s', dead, device, id, b)
  {
    UpdateAll(s, dead, id, s.intervals[id].(seen := b.when));
    SeenKeepsTiling(p, AllOf(s, dead), id, b.when, device, h, b.when);
  }

  /** The history of a device after accepting `b`: without a previous interval tracking restarts. */
  function Extended(s: Store, device: Device, h: seq<Heard>, b: Sample): seq<Heard> {
    h + [Heard(b, Previous(s, device).Some?)]
  }

  /** A device without a cursor: nothing of it is more recent than `at`. */
  ghost predicate Quiet(p: Policy, s: Store, dead: map<nat, Interval>, device: Device, h: seq<Heard>, at: Instant) {
    && InOrder(h) && (h != [] ==> h[|h| - 1].sample.when < at)
    && Behind(AllOf(s, dead), device, None, at) && Tells(p, AllOf(s, dead), device, h, at)
  }

  lemma QuietLater(p: Policy, s: Store, dead: map<nat, Interval>, device: Device, h: seq<Heard>, at: Instant, at': Instant)
    requires Quiet(p, s, dead, device, h, at) && at <= at'
    ensures Quiet(p, s, dead, device, h, at')
  {
    forall t | t < at' && ReadingAt(p, h, t).Some? ensures exists n :: On(AllOf(s, dead), device, n, t) {
      NothingSince(p, h, t);
    }
  }

  /** Tracking restarts: the time since the last sample, if any, stays unsaid. */
  lemma SettleRestart(p: Policy, s: Store, dead: map<nat, Interval>, device: Device, h: seq<Heard>, b: Sample, from: Instant)
    requires |p.zones| > 0 && Tiled(p, s, dead) && Behind(AllOf(s, dead), device, None, from) && from <= b.when
    requires Tells(p, AllOf(s, dead), device, h, from)
    requires h != [] ==> h[|h| - 1].sample.when < b.when && h[|h| - 1].sample.when <= from
    ensures SettledTo(p, s, dead, device, h + [Heard(b, false)], b.when)
  {
    var x := Heard(b, false);
    forall t | (h == [] || h[|h| - 1].sample.when <= t) && t < b.when ensures ReadingAt(p, h + [x], t).None? {
      if h != [] { LongerHistory(p, h, x, t); }
    }
    TellsOnward(p, AllOf(s, dead), device, h, x, from, b.when);
  }

  lemma SettleKeeps(p: Policy, s: Store, dead: map<nat, Interval>, device: Device, h: seq<Heard>, b: Sample)
    requires ValidPolicy(p) && Tiled(p, s, dead) && !Ignored(s, device, b)
    requires device in s.cursors ==> Tracks(p, s, dead, device, h)
    requires device !in s.cursors ==> Quiet(p, s, dead, device, h, b.when)
    ensures SettledTo(p, Settle(p, s, device, b).0, dead, device, Extended(s, device, h, b), b.when)
  {
    if Previous(s, device).None? {
      SettleRestart(p, s, dead, device, h, b, if device in s.cursors then s.cursors[device].last else b.when);
    } else if LongGap(p, h[|h| - 1].sample.when, b.when) {
      SettleLongGap(p, s, dead, device, h, b);
    } else {
      SettleShortGap(p, s, dead, device, h, b);
    }
  }

  lemma AttachKeeps(p: Policy, s: Store, dead: map<nat, Interval>, device: Device, h: seq<Heard>, b: Sample,
                    previous: Option<nat>, last: Instant)
    requires ValidPolicy(p) && |h| > 0 && h[|h| - 1].sample == b && SettledTo(p, s, dead, device, h, b.when)
    requires previous.Some? ==> previous.value in s.intervals
    requires previous.Some? && Continues(p, s.intervals[previous.value], last, b) ==>
               Newest(p, s, dead, device, previous.value, b)
    ensures var (s', id) := Attach(p, s, device, b, previous, last);
      SettledTo(p, s', dead, device, h, b.when) && Newest(p, s', dead, device, id, b)
  {
    if previous.Some? && Continues(p, s.intervals[previous.value], last, b) {
      AttachHeartbeat(p, s, dead, device, h, b, previous.value);
    } else {
      AttachNew(p, s, dead, device, h, b);
    }
  }

  lemma ContinuedIsNewest(p: Policy, s: Store, dead: map<nat, Interval>, device: Device, h: seq<Heard>, b: Sample)
    requires ValidPolicy(p) && Tiled(p, s, dead) && !Ignored(s, device, b)
    requires device in s.cursors ==> Tracks(p, s, dead, device, h)
    ensures var (settled, previous) := Settle(p, s, device, b);
      previous.Some? && Continues(p, settled.intervals[previous.value], s.cursors[device].last, b) ==>
        Newest(p, settled, dead, device, previous.value, b)
  {
    if Previous(s, device).Some? && !LongGap(p, h[|h| - 1].sample.when, b.when) {
      SettleShortGap(p, s, dead, device, h, b);
    }
  }

  /** Moving the cursor and marking days completes the step. */
  lemma PlaceCursor(p: Policy, s: Store, dead: map<nat, Interval>, device: Device, h: seq<Heard>, b: Sample, id: nat)
    requires ValidPolicy(p) && |h| > 0 && h[|h| - 1].sample == b && InOrder(h)
    requires SettledTo(p, s, dead, device, h, b.when) && Newest(p, s, dead, device, id, b)
    ensures var s' := MarkDirty(p, s.(cursors := s.cursors[device := Cursor(Some(id), b.id, b.when, b.user, b.state)]),
                                b.user, b.when, b.when);
      Tiled(p, s', dead) && Tracks(p, s', dead, device, h)
  {
    var placed := s.(cursors := s.cursors[device := Cursor(Some(id), b.id, b.when, b.user, b.state)]);
    assert AllOf(placed, dead) == AllOf(s, dead);
    MarkKeepsIntervals(p, placed, dead, b.user, b.when, b.when);
  }

  /** Attaching the sample and moving the cursor, once everything before it is settled. */
  lemma FinishTracks(p: Policy, s: Store, dead: map<nat, Interval>, device: Device, h: seq<Heard>, b: Sample,
                     previous: Option<nat>, last: Instant)
    requires ValidPolicy(p) && |h| > 0 && h[|h| - 1].sample == b && InOrder(h) && SettledTo(p, s, dead, device, h, b.when)
    requires previous.Some? ==> previous.value in s.intervals
    requires previous.Some? && Continues(p, s.intervals[previous.value], last, b) ==>
               Newest(p, s, dead, device, previous.value, b)
    ensures var (s', id) := Attach(p, s, device, b, previous, last);
      var t := MarkDirty(p, s'.(cursors := s'.cursors[device := Cursor(Some(id), b.id, b.when, b.user, b.state)]),
                         b.user, b.when, b.when);
      Tiled(p, t, dead) && Tracks(p, t, dead, device, h)
  {
    AttachKeeps(p, s, dead, device, h, b, previous, last);
    var (s', id) := Attach(p, s, device, b, previous, last);
    PlaceCursor(p, s', dead, device, h, b, id);
  }

  lemma ExtendedInOrder(p: Policy, s: Store, dead: map<nat, Interval>, device: Device, h: seq<Heard>, b: Sample)
    requires |p.zones| > 0 && !Ignored(s, device, b)
    requires device in s.cursors ==> Tracks(p, s, dead, device, h)
    requires device !in s.cursors ==> Quiet(p, s, dead, device, h, b.when)
    ensures var h' := Extended(s, device, h, b); |h'| > 0 && h'[|h'| - 1].sample == b && InOrder(h')
  {
  }

  /** Accepting a sample: the tiling is kept and the store tells the longer history. */
  lemma RecordTracks(p: Policy, s: Store, dead: map<nat, Interval>, device: Device, h: seq<Heard>, b: Sample)
    requires ValidPolicy(p) && Tiled(p, s, dead) && !Ignored(s, device, b)
    requires device in s.cursors ==> Tracks(p, s, dead, device, h)
    requires device !in s.cursors ==> Quiet(p, s, dead, device, h, b.when)
    ensures var s' := Record(p, s, device, b);
      Tiled(p, s', dead) && Tracks(p, s', dead, device, Extended(s, device, h, b))
  {
    var h' := Extended(s, device, h, b);
    ExtendedInOrder(p, s, dead, device, h, b);
    SettleKeeps(p, s, dead, device, h, b);
    ContinuedIsNewest(p, s, dead, device, h, b);
    var (settled, previous) := Settle(p, s, device, b);
    var last := if device in s.cursors then s.cursors[device].last else b.when;
    FinishTracks(p, settled, dead, device, h', b, previous, last);
  }
}
