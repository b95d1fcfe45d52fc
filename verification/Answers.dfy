/** What reports may rely on in every reachable ledger, and exactly when. */
module Answers {
  import opened Calendar
  import opened Activity
  import opened Summaries
  import opened Conservation
  import opened Recorder
  import opened Tiling
  import opened Freshness
  import opened Rollups

  // ---- The recorded intervals ---------------------------------------------------------

  /** All instants of a stored interval fall on one local date, in every supported zone. */
  lemma IntervalWithinOneDay(p: Policy, all: map<nat, Interval>, n: nat, t: Instant)
    requires ValidPolicy(p) && Uncrossed(p, all) && n in all && all[n].started <= t < all[n].ended
    ensures SameDays(p, all[n].started, t)
  {
    SameDaysUntilBoundary(p, all[n].started, t);
  }

  /** While tracking goes on and no two consecutive samples lie further apart than the detail
      window, the history says something about every instant from sample `n` to the last. */
  lemma {:induction false} NoHoleInHistory(p: Policy, h: seq<Heard>, n: nat, t: Instant)
    requires n < |h| && h[n].sample.when <= t < h[|h| - 1].sample.when
    requires forall i | n < i < |h| ::
      h[i].resumed && h[i].sample.when - h[i - 1].sample.when <= Days(p.detailDays)
    ensures ReadingAt(p, h, t).Some?
  {
    if t < h[|h| - 2].sample.when {
      NoHoleInHistory(p, h[..|h| - 1], n, t);
    }
  }

  /** What two consecutive samples `j` and `j + 1` say of the time between them: nothing if tracking
      restarted; what the earlier one shows if they are at most the allowed gap apart; otherwise
      UNKNOWN, of the same account if that is unchanged within a day and of nobody if not, and
      nothing before the detail window. */
  lemma {:induction false} SamplesSay(p: Policy, h: seq<Heard>, j: nat, t: Instant)
    requires InOrder(h) && j + 1 < |h| && h[j].sample.when <= t < h[j + 1].sample.when
    ensures var (a, b) := (h[j].sample, h[j + 1].sample);
      var app := if a.state == ACTIVE then a.foreground else None;
      ReadingAt(p, h, t) ==
        if !h[j + 1].resumed then None
        else if b.when - a.when <= p.maxGap then
          Some(Reading(a.user, a.state, if app.Some? then Some(app.value.process) else None,
                       if app.Some? then Some(app.value.category) else None, if app.Some? then a.browser else None, a.version))
        else if t < b.when - Days(p.detailDays) then None
        else Some(Reading(if a.user == b.user && b.when - a.when <= Days(1) then a.user else None, UNKNOWN, None, None, None, a.version))
    decreases |h|
  {
    if j + 2 < |h| { SamplesSay(p, h[..|h| - 1], j, t); }
  }

  /** Nothing is said before the first sample, nor from the last one on. */
  lemma {:induction false} NothingSaidOutside(p: Policy, h: seq<Heard>, t: Instant)
    requires InOrder(h) && (h == [] || t < h[0].sample.when || h[|h| - 1].sample.when <= t)
    ensures ReadingAt(p, h, t) == None
    decreases |h|
  {
    if |h| > 1 { NothingSaidOutside(p, h[..|h| - 1], t); }
  }

  /** What the samples of a device ever said about instant `t`. */
  ghost function Told(p: Policy, g: Ledger, device: Device, t: Instant): Option<Reading> {
    ReadingAt(p, HistoryOf(g, device), t)
  }

  lemma TrackedTells(p: Policy, g: Ledger, device: Device)
    requires |p.zones| > 0 && Tracked(p, g)
    ensures exists bound :: Tells(p, All(g), device, HistoryOf(g, device), bound)
    ensures forall t :: Told(p, g, device, t).Some? ==> exists n :: On(All(g), device, n, t)
  {
    var h := HistoryOf(g, device);
    var bound := if device in g.store.cursors then g.store.cursors[device].last else g.now - Days(1);
    assert DeviceTracked(p, g, device);
    assert Tells(p, All(g), device, h, bound);
    forall t | Told(p, g, device, t).Some? ensures exists n :: On(All(g), device, n, t) {
      NothingSince(p, h, t);
    }
  }

  /** In every reachable ledger the intervals ever recorded say of every device at every instant
      exactly what all its samples say, removed intervals and lost cursors included: at most one
      covers the instant, it carries the reading told, and nothing covers an instant not told. */
  lemma RunTellsHistory(p: Policy, gs: seq<Ledger>, es: seq<Action>, i: nat, device: Device, t: Instant)
    requires ValidPolicy(p) && Run(p, gs, es) && i < |gs|
    ensures var all := All(gs[i]);
      && (Told(p, gs[i], device, t).Some? <==> exists n :: On(all, device, n, t))
      && forall n | On(all, device, n, t) ::
           Told(p, gs[i], device, t) == Some(all[n].reading) && forall m | On(all, device, m, t) :: m == n
  {
    RunTracked(p, gs, es, i);
    TrackedTells(p, gs[i], device);
  }

  /** The recorder's part of the invariant needs no assumption on the length of days. */
  lemma {:induction false} RunTracked(p: Policy, gs: seq<Ledger>, es: seq<Action>, i: nat)
    requires ValidPolicy(p) && Run(p, gs, es) && i < |gs|
    ensures Tracked(p, gs[i])
  {
    if i > 0 {
      RunTracked(p, gs, es, i - 1);
      assert StepAt(p, gs, es, i - 1);
      NextTracked(p, gs[i - 1], es[i - 1]);
    }
  }

  // ---- The published days -------------------------------------------------------------

  lemma EnumeratesSame(rows: seq<Interval>, rows': seq<Interval>, m: map<nat, Interval>)
    requires Enumerates(rows, m) && Enumerates(rows', m)
    ensures forall r :: r in rows ==> r in rows'
  {
    var ids: seq<nat> :| Reads(ids, m, rows);
    var ids': seq<nat> :| Reads(ids', m, rows');
    forall r | r in rows ensures r in rows' {
      var i :| 0 <= i < |rows| && rows[i] == r;
      assert ids[i] in ids;
      assert ids[i] in ids';
      var j :| 0 <= j < |ids'| && ids'[j] == ids[i];
      assert rows'[j] == m[ids[i]];
    }
  }

  lemma ReadsApart(all: map<nat, Interval>, m: map<nat, Interval>, ids: seq<nat>, rows: seq<Interval>, i: int, j: int)
    requires Disjoint(all) && Reads(ids, m, rows) && forall n | n in m :: n in all && m[n] == all[n]
    requires 0 <= i < j < |rows| && rows[i].device == rows[j].device
    ensures rows[i].ended <= rows[j].started || rows[j].ended <= rows[i].started
  {
    assert ids[i] in ids && ids[j] in ids && ids[i] != ids[j];
  }

  lemma EnumeratesDisjoint(all: map<nat, Interval>, m: map<nat, Interval>, rows: seq<Interval>)
    requires Disjoint(all) && Enumerates(rows, m) && forall n | n in m :: n in all && m[n] == all[n]
    ensures DevicesDisjoint(rows)
  {
    var ids: seq<nat> :| Reads(ids, m, rows);
    forall i, j | 0 <= i < j < |rows| && rows[i].device == rows[j].device
      ensures rows[i].ended <= rows[j].started || rows[j].ended <= rows[i].started
    {
      ReadsApart(all, m, ids, rows, i, j);
    }
  }

  /** A clean day reports the summary of its complete history, whatever order the rows come in,
      and that summary balances. */
  lemma CleanDayIsTrue(p: Policy, g: Ledger, k: Key, rows: seq<Interval>, lo: Instant, hi: Instant)
    requires ValidPolicy(p) && Inv(p, g) && k in g.store.days && !g.store.days[k].dirty && k.zone < |p.zones|
    requires Enumerates(rows, Touching(p, All(g), k)) && IsWindow(p, k, g.store.days[k].updatedAt, lo, hi)
    ensures var row := g.store.days[k];
      row.payload.Some? && Summarizes(rows, lo, hi, row.payload.value) && Balanced(row.payload.value)
  {
    var row := g.store.days[k];
    WindowOfDay(p, k, row.updatedAt, lo, hi);
    var (m, v) := (Touching(p, All(g), k), row.payload.value);
    var read :| Enumerates(read, m) && Summarizes(read, lo, hi, v);
    EnumeratesSame(read, rows, m);
    EnumeratesSame(rows, read, m);
    EnumeratesDisjoint(All(g), m, read);
    EnumeratesDisjoint(All(g), m, rows);
    SummaryIgnoresOrder(read, rows, lo, hi, v);
    SummaryBalances(rows, lo, hi, v);
  }

  /** Inside the detail window nothing has been removed: the stored intervals are the history. */
  lemma WindowIsComplete(p: Policy, g: Ledger, k: Key)
    requires ValidPolicy(p) && Inv(p, g) && k.zone < |p.zones|
    requires p.zones[k.zone].date(g.now) - p.detailDays <= k.day
    ensures Touching(p, g.store.intervals, k) == Touching(p, All(g), k)
  {
    forall n | n in g.dead ensures !Touches(p, g.dead[n], k) {
      assert Buried(p, g, g.dead[n], k);
    }
  }

  /** Retention changes no answer: every day it keeps has the same row and the same history. */
  lemma RetentionKeepsAnswers(p: Policy, g: Ledger, e: Action, k: Key)
    requires ValidPolicy(p) && WindowClears(p) && Inv(p, g) && Enabled(p, g, e) && e.Retain?
    requires k in Next(p, g, e).store.days
    ensures var g' := Next(p, g, e);
      && g'.store.days[k] == g.store.days[k]
      && Touching(p, All(g'), k) == Touching(p, All(g), k)
      && Inv(p, g')
  {
    RetainAll(p, g, e);
    NextKeeps(p, g, e);
  }

  /** Every run: each clean day of each reachable ledger is the balanced summary of everything
      ever recorded for it, and of what is stored when the day lies in the detail window. */
  lemma EveryRunReportsTrue(p: Policy, gs: seq<Ledger>, es: seq<Action>, i: nat, k: Key, rows: seq<Interval>, lo: Instant, hi: Instant)
    requires ValidPolicy(p) && WindowClears(p) && Run(p, gs, es) && i < |gs|
    requires var days := gs[i].store.days; k in days && !days[k].dirty && k.zone < |p.zones|
    requires IsWindow(p, k, gs[i].store.days[k].updatedAt, lo, hi)
    requires Enumerates(rows, Touching(p, All(gs[i]), k))
          || (Enumerates(rows, Touching(p, gs[i].store.intervals, k)) && p.zones[k.zone].date(gs[i].now) - p.detailDays <= k.day)
    ensures var row := gs[i].store.days[k];
      row.payload.Some? && Balanced(row.payload.value) && Summarizes(rows, lo, hi, row.payload.value)
  {
    RunKeeps(p, gs, es, i);
    if !Enumerates(rows, Touching(p, All(gs[i]), k)) {
      WindowIsComplete(p, gs[i], k);
    }
    CleanDayIsTrue(p, gs[i], k, rows, lo, hi);
  }
}
