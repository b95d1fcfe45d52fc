/** Which devices a day lists, and when its user was last seen, in terms of the samples. */
module LastSeenDays {
  import opened Calendar
  import opened Activity
  import opened Summaries
  import opened Conservation
  import opened Recorder
  import opened Tiling
  import opened Freshness
  import opened Rollups
  import opened Sightings

  // ---- Every run ----------------------------------------------------------------------

  ghost predicate DeviceSeen(p: Policy, g: Ledger, d: Device) { Seen(p, g.store, g.dead, d, HistoryOf(g, d)) }

  ghost predicate AllSeen(p: Policy, g: Ledger) { forall d :: DeviceSeen(p, g, d) }

  lemma CursorOnOwnInterval(p: Policy, g: Ledger, d: Device)
    requires |p.zones| > 0 && Tracked(p, g) && d in g.store.cursors && g.store.cursors[d].interval.Some?
    ensures var n := g.store.cursors[d].interval.value; n in g.store.intervals && g.store.intervals[n].device == d
  {
    assert DeviceTracked(p, g, d);
  }

  lemma OtherSeen(p: Policy, g: Ledger, e: Action, d: Device)
    requires ValidPolicy(p) && Tracked(p, g) && AllSeen(p, g) && Enabled(p, g, e) && e.Ingest? && d != e.device
    requires !Ignored(g.store, e.device, e.sample)
    ensures DeviceSeen(p, Next(p, g, e), d)
  {
    assert DeviceSeen(p, g, d);
    AcceptTracked(p, g, e.device, e.sample, e.at);
    OneChanged(g.history, e.device, Next(p, g, e).history[e.device]);
    SameHistory(g, Next(p, g, e), e.device, d);
    if d in g.store.cursors && g.store.cursors[d].interval.Some? { CursorOnOwnInterval(p, g, d); }
    SeenUnaffected(p, g.store, Record(p, g.store, e.device, e.sample), g.dead, e.device, d, HistoryOf(g, d));
  }

  lemma OwnSeen(p: Policy, g: Ledger, e: Action)
    requires ValidPolicy(p) && Tracked(p, g) && AllSeen(p, g) && Enabled(p, g, e) && e.Ingest?
    requires !Ignored(g.store, e.device, e.sample)
    ensures DeviceSeen(p, Next(p, g, e), e.device)
  {
    assert DeviceSeen(p, g, e.device);
    ReadyToRecord(p, g, e.device, e.sample, e.at);
    RecordSeen(p, g.store, g.dead, e.device, HistoryOf(g, e.device), e.sample);
  }

  lemma RetainSeen(p: Policy, g: Ledger, e: Action, d: Device)
    requires ValidPolicy(p) && Tracked(p, g) && DeviceSeen(p, g, d) && Enabled(p, g, e) && e.Retain?
    ensures DeviceSeen(p, Next(p, g, e), d)
  {
    RetainAll(p, g, e);
  }

  lemma NextSeen(p: Policy, g: Ledger, e: Action)
    requires ValidPolicy(p) && Tracked(p, g) && AllSeen(p, g) && Enabled(p, g, e)
    ensures AllSeen(p, Next(p, g, e))
  {
    forall d ensures DeviceSeen(p, Next(p, g, e), d) {
      assert DeviceSeen(p, g, d);
      if e.Retain? {
        RetainSeen(p, g, e, d);
      } else if e.Ingest? && !Ignored(g.store, e.device, e.sample) {
        if d == e.device { OwnSeen(p, g, e); } else { OtherSeen(p, g, e, d); }
      }
    }
  }

  /** In every reachable ledger every recorded interval, removed ones included, was last seen by the
      sample its device's history says. */
  lemma {:induction false} RunSeen(p: Policy, gs: seq<Ledger>, es: seq<Action>, i: nat)
    requires ValidPolicy(p) && Run(p, gs, es) && i < |gs|
    ensures Tracked(p, gs[i]) && AllSeen(p, gs[i])
  {
    if i > 0 {
      RunSeen(p, gs, es, i - 1);
      assert StepAt(p, gs, es, i - 1);
      NextSeen(p, gs[i - 1], es[i - 1]);
      NextTracked(p, gs[i - 1], es[i - 1]);
    }
  }

  /** Only an ACTIVE session ever shows an application, and only an application a browser. */
  lemma RunShowsOnlyActiveApps(p: Policy, gs: seq<Ledger>, es: seq<Action>, i: nat, n: nat)
    requires ValidPolicy(p) && Run(p, gs, es) && i < |gs| && n in All(gs[i])
    ensures var r := All(gs[i])[n].reading;
      && (r.state != ACTIVE ==> r.process.None? && r.category.None?)
      && (r.process.None? <==> r.category.None?) && (r.process.None? ==> r.browser.None?)
  {
    RunSeen(p, gs, es, i);
    var j := Explanation(p, gs[i], n);
  }

  // ---- One day ------------------------------------------------------------------------

  /** At `y` device `d` was last seen with the user on the day [lo, hi): by a sample of that day; by
      the sample before a short pause that reaches into the day; or by the end, in the day, of a
      gap that is the user's. */
  ghost predicate SightedBy(p: Policy, g: Ledger, user: string, lo: Instant, hi: Instant, d: Device, j: nat, y: Instant) {
    var h := HistoryOf(g, d);
    || (j < |h| && h[j].sample.user == Some(user) && lo <= h[j].sample.when < hi && y == h[j].sample.when)
    || (Continued(p, h, j) && h[j].sample.user == Some(user) && y == h[j].sample.when < hi && lo <= h[j + 1].sample.when)
    || (Interrupted(p, h, j) && GapUser(h, j) == Some(user) && GapFrom(p, h, j) < hi && lo <= h[j + 1].sample.when
        && y == if hi < h[j + 1].sample.when then hi else h[j + 1].sample.when)
  }

  ghost predicate Sighted(p: Policy, g: Ledger, user: string, lo: Instant, hi: Instant, d: Device, y: Instant) {
    exists j: nat :: SightedBy(p, g, user, lo, hi, d, j, y)
  }

  ghost predicate SightedOn(p: Policy, g: Ledger, user: string, lo: Instant, hi: Instant, d: Device) {
    exists y :: Sighted(p, g, user, lo, hi, d, y)
  }

  /** `at` is the latest sighting of the user on any device, if there is any. */
  ghost predicate IsLastSighting(p: Policy, g: Ledger, user: string, lo: Instant, hi: Instant, at: Option<Instant>) {
    && (at.None? <==> forall d :: !SightedOn(p, g, user, lo, hi, d))
    && (at.Some? ==> (exists d :: Sighted(p, g, user, lo, hi, d, at.value))
                     && forall d, y | Sighted(p, g, user, lo, hi, d, y) :: y <= at.value)
  }

  /** Rows read for day `k`, in a ledger whose intervals are explained by samples. */
  ghost predicate SeenRows(p: Policy, g: Ledger, k: Key, rows: seq<Interval>) {
    && ValidPolicy(p) && Tracked(p, g) && AllSeen(p, g) && k.zone < |p.zones|
    && Enumerates(rows, Touching(p, All(g), k))
  }

  lemma RowOfInterval(p: Policy, g: Ledger, k: Key, rows: seq<Interval>, n: nat)
    requires SeenRows(p, g, k, rows) && n in All(g) && Touches(p, All(g)[n], k)
    ensures All(g)[n] in rows
  {
    var ids: seq<nat> :| Reads(ids, Touching(p, All(g), k), rows);
    assert n in ids;
    var i :| 0 <= i < |ids| && ids[i] == n;
    assert rows[i] == All(g)[n];
  }

  lemma IntervalOfRow(p: Policy, g: Ledger, k: Key, rows: seq<Interval>, r: Interval) returns (n: nat)
    requires SeenRows(p, g, k, rows) && r in rows
    ensures n in All(g) && All(g)[n] == r && Touches(p, r, k)
  {
    var ids: seq<nat> :| Reads(ids, Touching(p, All(g), k), rows);
    var i :| 0 <= i < |rows| && rows[i] == r;
    assert ids[i] in ids;
    n := ids[i];
  }

  lemma EndsWithItsDay(p: Policy, g: Ledger, k: Key, n: nat)
    requires ValidPolicy(p) && Tracked(p, g) && n in All(g) && Touches(p, All(g)[n], k)
    ensures All(g)[n].ended <= p.zones[k.zone].start(k.day + 1)
  {
    var (i, z) := (All(g)[n], p.zones[k.zone]);
    var m := NextMidnightIsLeast(p, i.started, |p.zones|);
    assert i.ended <= DayEnd(p, i.started, k.zone);
    StartedByDate(z, k.day + 1, i.started);
    StartMonotone(z, z.date(i.started) + 1, k.day + 1);
  }

  lemma SameDayOf(p: Policy, s: Instant, t: Instant, k: Key)
    requires ValidPolicy(p) && k.zone < |p.zones| && SameDays(p, s, t) && s < p.zones[k.zone].start(k.day + 1)
    ensures t < p.zones[k.zone].start(k.day + 1)
  {
    StartedByDate(p.zones[k.zone], k.day + 1, s);
    StartedByDate(p.zones[k.zone], k.day + 1, t);
  }

  /** The sighting an explained interval of the day stands for. */
  lemma ExplainedIsSighted(p: Policy, g: Ledger, k: Key, r: Interval, j: nat) returns (y: Instant)
    requires ValidPolicy(p) && Touches(p, r, k) && Explains(p, HistoryOf(g, r.device), r, j)
    requires r.ended <= p.zones[k.zone].start(k.day + 1)
    ensures var z := p.zones[k.zone]; SightedBy(p, g, k.user, z.start(k.day), z.start(k.day + 1), r.device, j, y)
    ensures r.seen <= y
  {
    var (z, h) := (p.zones[k.zone], HistoryOf(g, r.device));
    var hi := z.start(k.day + 1);
    if FillsGap(p, h, r, j) {
      y := if hi < h[j + 1].sample.when then hi else h[j + 1].sample.when;
    } else {
      y := h[j].sample.when;
      if LastHeld(p, h, r, j) { SameDayOf(p, r.started, y, k); }
    }
  }

  /** No row was last seen later than some sighting on its device. */
  lemma RowIsSighted(p: Policy, g: Ledger, k: Key, rows: seq<Interval>, r: Interval) returns (y: Instant)
    requires SeenRows(p, g, k, rows) && r in rows
    ensures var z := p.zones[k.zone];
      Sighted(p, g, k.user, z.start(k.day), z.start(k.day + 1), r.device, y) && r.seen <= y
  {
    var n := IntervalOfRow(p, g, k, rows, r);
    var j := Explanation(p, g, n);
    EndsWithItsDay(p, g, k, n);
    y := ExplainedIsSighted(p, g, k, r, j);
  }

  lemma Explanation(p: Policy, g: Ledger, n: nat) returns (j: nat)
    requires AllSeen(p, g) && n in All(g)
    ensures Explains(p, HistoryOf(g, All(g)[n].device), All(g)[n], j)
  {
    var i := All(g)[n];
    assert DeviceSeen(p, g, i.device);
    assert Explained(p, HistoryOf(g, i.device), i);
    j :| Explains(p, HistoryOf(g, i.device), i, j);
  }

  lemma HistoryInOrder(p: Policy, g: Ledger, d: Device)
    requires |p.zones| > 0 && Tracked(p, g)
    ensures InOrder(HistoryOf(g, d))
  {
    assert DeviceTracked(p, g, d);
  }

  /** An interval explained by an earlier sample ends before a later one. */
  lemma EarlierEnds(p: Policy, h: seq<Heard>, i: Interval, m: nat, j: nat)
    requires InOrder(h) && Explains(p, h, i, m) && m < j < |h|
    ensures i.ended <= h[j].sample.when
  {
    if m + 1 < j { assert h[m + 1].sample.when < h[j].sample.when; }
  }

  lemma ExplainedSeenSince(p: Policy, h: seq<Heard>, i: Interval, m: nat, j: nat, t: Instant)
    requires InOrder(h) && Explains(p, h, i, m) && j < |h| && h[j].sample.when <= t < i.ended
    ensures h[j].sample.when <= i.seen
  {
    if m < j { EarlierEnds(p, h, i, m, j); }
    if j < m { assert h[j].sample.when < h[m].sample.when; }
  }

  /** What covers an instant after sample `j` was last seen no earlier than that sample. */
  lemma CoverSeenSince(p: Policy, g: Ledger, d: Device, n: nat, j: nat, t: Instant)
    requires |p.zones| > 0 && Tracked(p, g) && AllSeen(p, g) && On(All(g), d, n, t)
    requires j < |HistoryOf(g, d)| && HistoryOf(g, d)[j].sample.when <= t
    ensures HistoryOf(g, d)[j].sample.when <= All(g)[n].seen
  {
    HistoryInOrder(p, g, d);
    var m := Explanation(p, g, n);
    ExplainedSeenSince(p, HistoryOf(g, d), All(g)[n], m, j, t);
  }

  /** A sample of the day is held by a row of the day. */
  lemma SampleHasRow(p: Policy, g: Ledger, k: Key, rows: seq<Interval>, d: Device, j: nat) returns (r: Interval)
    requires SeenRows(p, g, k, rows) && j < |HistoryOf(g, d)|
    requires var (x, z) := (HistoryOf(g, d)[j].sample, p.zones[k.zone]);
      x.user == Some(k.user) && z.start(k.day) <= x.when < z.start(k.day + 1)
    ensures r in rows && r.device == d && HistoryOf(g, d)[j].sample.when <= r.seen
  {
    var x := HistoryOf(g, d)[j].sample;
    assert DeviceSeen(p, g, d);
    assert Sightings.Held(p, All(g), d, x);
    var n :| HeldBy(p, All(g), d, x, n);
    r := All(g)[n];
    RowOfInterval(p, g, k, rows, n);
  }

  lemma ToldBetween(p: Policy, h: seq<Heard>, j: nat, t: Instant)
    requires InOrder(h) && j + 1 < |h| && h[j].sample.when <= t < h[j + 1].sample.when && h[j + 1].resumed
    ensures ReadingAt(p, h, t) == Between(p, h[j].sample, h[j + 1].sample, t)
    decreases |h|
  {
    if j + 2 < |h| { ToldBetween(p, h[..|h| - 1], j, t); }
  }

  lemma ToldIsOn(p: Policy, g: Ledger, d: Device, t: Instant) returns (n: nat)
    requires |p.zones| > 0 && Tracked(p, g) && ReadingAt(p, HistoryOf(g, d), t).Some?
    ensures On(All(g), d, n, t) && Some(All(g)[n].reading) == ReadingAt(p, HistoryOf(g, d), t)
  {
    var h := HistoryOf(g, d);
    assert DeviceTracked(p, g, d);
    NothingSince(p, h, t);
    n :| On(All(g), d, n, t);
  }

  /** A short pause that reaches into the day from before it. */
  lemma PauseHasRow(p: Policy, g: Ledger, k: Key, rows: seq<Interval>, d: Device, j: nat) returns (r: Interval)
    requires SeenRows(p, g, k, rows) && Continued(p, HistoryOf(g, d), j) && HistoryOf(g, d)[j].sample.user == Some(k.user)
    requires var lo := p.zones[k.zone].start(k.day);
      HistoryOf(g, d)[j].sample.when < lo <= HistoryOf(g, d)[j + 1].sample.when
    ensures r in rows && r.device == d && HistoryOf(g, d)[j].sample.when <= r.seen
  {
    var (h, z) := (HistoryOf(g, d), p.zones[k.zone]);
    var t := z.start(k.day) - 1;
    assert DeviceTracked(p, g, d);
    ToldBetween(p, h, j, t);
    var n := ToldIsOn(p, g, d, t);
    CoverSeenSince(p, g, d, n, j, t);
    StartMonotone(z, k.day, k.day + 1);
    r := All(g)[n];
    RowOfInterval(p, g, k, rows, n);
  }

  lemma ExplainedSeenToItsEnd(p: Policy, h: seq<Heard>, i: Interval, m: nat, j: nat, t: Instant)
    requires InOrder(h) && Explains(p, h, i, m) && Interrupted(p, h, j) && i.started <= t < i.ended
    requires h[j].sample.when <= t < h[j + 1].sample.when
    ensures t + 1 <= i.seen
  {
    if m < j { EarlierEnds(p, h, i, m, j); }
    if j + 1 < m { assert h[j + 1].sample.when < h[m].sample.when; }
  }

  lemma GapCoverSeenToItsEnd(p: Policy, g: Ledger, d: Device, n: nat, j: nat, t: Instant)
    requires |p.zones| > 0 && Tracked(p, g) && AllSeen(p, g) && On(All(g), d, n, t) && Interrupted(p, HistoryOf(g, d), j)
    requires HistoryOf(g, d)[j].sample.when <= t < HistoryOf(g, d)[j + 1].sample.when
    ensures t + 1 <= All(g)[n].seen
  {
    HistoryInOrder(p, g, d);
    var m := Explanation(p, g, n);
    ExplainedSeenToItsEnd(p, HistoryOf(g, d), All(g)[n], m, j, t);
  }

  /** A gap of the user that reaches into the day. */
  lemma GapHasRow(p: Policy, g: Ledger, k: Key, rows: seq<Interval>, d: Device, j: nat) returns (r: Interval)
    requires SeenRows(p, g, k, rows) && Interrupted(p, HistoryOf(g, d), j) && GapUser(HistoryOf(g, d), j) == Some(k.user)
    requires var (h, z) := (HistoryOf(g, d), p.zones[k.zone]);
      GapFrom(p, h, j) < z.start(k.day + 1) && z.start(k.day) <= h[j + 1].sample.when
    ensures var (hi, b) := (p.zones[k.zone].start(k.day + 1), HistoryOf(g, d)[j + 1].sample.when);
      r in rows && r.device == d && (if hi < b then hi else b) <= r.seen
  {
    var (h, z) := (HistoryOf(g, d), p.zones[k.zone]);
    var (lo, hi, b) := (z.start(k.day), z.start(k.day + 1), h[j + 1].sample.when);
    var t := (if hi < b then hi else b) - 1;
    StartMonotone(z, k.day, k.day + 1);
    assert DeviceTracked(p, g, d);
    ToldBetween(p, h, j, t);
    var n := ToldIsOn(p, g, d, t);
    GapCoverSeenToItsEnd(p, g, d, n, j, t);
    r := All(g)[n];
    RowOfInterval(p, g, k, rows, n);
  }

  /** Every sighting on the day is matched by a row seen no earlier. */
  lemma SightingHasRow(p: Policy, g: Ledger, k: Key, rows: seq<Interval>, d: Device, y: Instant) returns (r: Interval)
    requires SeenRows(p, g, k, rows)
    requires var z := p.zones[k.zone]; Sighted(p, g, k.user, z.start(k.day), z.start(k.day + 1), d, y)
    ensures r in rows && r.device == d && y <= r.seen
  {
    var (h, z) := (HistoryOf(g, d), p.zones[k.zone]);
    var (lo, hi) := (z.start(k.day), z.start(k.day + 1));
    var j: nat :| SightedBy(p, g, k.user, lo, hi, d, j, y);
    if j < |h| && h[j].sample.user == Some(k.user) && lo <= h[j].sample.when < hi && y == h[j].sample.when {
      r := SampleHasRow(p, g, k, rows, d, j);
    } else if Continued(p, h, j) && h[j].sample.user == Some(k.user) && y == h[j].sample.when {
      r := PauseHasRow(p, g, k, rows, d, j);
    } else {
      r := GapHasRow(p, g, k, rows, d, j);
    }
  }

  /** A day lists exactly the devices its user was sighted on. */
  lemma DevicesSighted(p: Policy, g: Ledger, k: Key, rows: seq<Interval>)
    requires SeenRows(p, g, k, rows)
    ensures var z := p.zones[k.zone];
      forall d :: d in Devices(rows) <==> SightedOn(p, g, k.user, z.start(k.day), z.start(k.day + 1), d)
  {
    var z := p.zones[k.zone];
    forall d ensures d in Devices(rows) <==> SightedOn(p, g, k.user, z.start(k.day), z.start(k.day + 1), d) {
      if d in Devices(rows) {
        var r :| r in rows && r.device == d;
        var y := RowIsSighted(p, g, k, rows, r);
      }
      if SightedOn(p, g, k.user, z.start(k.day), z.start(k.day + 1), d) {
        var y :| Sighted(p, g, k.user, z.start(k.day), z.start(k.day + 1), d, y);
        var r := SightingHasRow(p, g, k, rows, d, y);
      }
    }
  }

  lemma SightingNotLater(p: Policy, g: Ledger, k: Key, rows: seq<Interval>, d: Device, y: Instant)
    requires SeenRows(p, g, k, rows)
    requires var z := p.zones[k.zone]; Sighted(p, g, k.user, z.start(k.day), z.start(k.day + 1), d, y)
    ensures LastSeen(rows).Some? && y <= LastSeen(rows).value
  {
    LastSeenIsLatest(rows);
    var r := SightingHasRow(p, g, k, rows, d, y);
  }

  lemma LastRow(rows: seq<Interval>) returns (r: Interval)
    requires LastSeen(rows).Some?
    ensures r in rows && r.seen == LastSeen(rows).value
  {
    LastSeenIsLatest(rows);
    assert SeenAmong(rows, LastSeen(rows).value);
    r :| r in rows && r.seen == LastSeen(rows).value;
  }

  lemma LastIsSighted(p: Policy, g: Ledger, k: Key, rows: seq<Interval>) returns (d: Device)
    requires SeenRows(p, g, k, rows) && LastSeen(rows).Some?
    ensures var z := p.zones[k.zone]; Sighted(p, g, k.user, z.start(k.day), z.start(k.day + 1), d, LastSeen(rows).value)
  {
    var r := LastRow(rows);
    d := r.device;
    var y := RowIsSighted(p, g, k, rows, r);
    SightingNotLater(p, g, k, rows, d, y);
  }

  /** A day was last seen at the latest sighting of its user. */
  lemma LastSeenIsLastSighting(p: Policy, g: Ledger, k: Key, rows: seq<Interval>)
    requires SeenRows(p, g, k, rows)
    ensures var z := p.zones[k.zone]; IsLastSighting(p, g, k.user, z.start(k.day), z.start(k.day + 1), LastSeen(rows))
  {
    var z := p.zones[k.zone];
    var (lo, hi) := (z.start(k.day), z.start(k.day + 1));
    forall d, y | Sighted(p, g, k.user, lo, hi, d, y) ensures LastSeen(rows).Some? && y <= LastSeen(rows).value {
      SightingNotLater(p, g, k, rows, d, y);
    }
    if LastSeen(rows).Some? {
      var d := LastIsSighted(p, g, k, rows);
      assert SightedOn(p, g, k.user, lo, hi, d);
    }
  }
}
