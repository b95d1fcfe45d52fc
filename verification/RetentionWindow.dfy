/** How long the detail window must be for retention to be harmless: exactly long enough that
    whatever it may delete lies in days that ended 48 hours before, in every report zone. */
module RetentionWindow {
  import opened Calendar
  import opened Activity
  import opened Measure
  import opened Sweep
  import opened Summaries
  import opened Recorder
  import opened Tiling
  import opened Freshness
  import opened Rollups
  import opened Answers
  import opened RowOrder

  // ---- Every selection can be read and summarized -------------------------------------

  ghost function AppSet(rows: seq<Interval>): set<App> { set r | r in rows :: AppOf(r) }
  ghost function CategorySet(rows: seq<Interval>): set<string> { set r | r in rows :: AppOf(r).category }

  lemma TimedAppListed(rows: seq<Interval>, lo: Instant, hi: Instant, want: Interval -> bool) returns (r: Interval)
    requires Time(rows, lo, hi, want) > 0
    ensures r in rows && want(r)
  {
    CountPositive(lo, hi, Showing(rows, lo, hi, want));
    var t :| lo <= t < hi && Showing(rows, lo, hi, want)(t);
    var w :| Owns(rows, lo, hi, t, w) && want(rows[w]);
    r := rows[w];
  }

  lemma SummaryExists(rows: seq<Interval>, lo: Instant, hi: Instant) returns (v: Summary)
    ensures Summarizes(rows, lo, hi, v)
  {
    var seconds := map s: State | s in {ACTIVE, IDLE, LOCKED, DISCONNECTED, UNKNOWN} ::
      Time(rows, lo, hi, InState(s)) + if s == UNKNOWN then Count(lo, hi, Uncovered(rows, lo, hi)) else 0;
    forall s: State ensures s in seconds {
      match s case ACTIVE => case IDLE => case LOCKED => case DISCONNECTED => case UNKNOWN =>
    }
    var apps := map a | a in AppSet(rows) && Time(rows, lo, hi, InApp(a)) > 0 :: Time(rows, lo, hi, InApp(a));
    forall a: App | Time(rows, lo, hi, InApp(a)) > 0 ensures a in apps {
      var r := TimedAppListed(rows, lo, hi, InApp(a));
    }
    var cats := map c | c in CategorySet(rows) && Time(rows, lo, hi, InCategory(c)) > 0 :: Time(rows, lo, hi, InCategory(c));
    forall c: string | Time(rows, lo, hi, InCategory(c)) > 0 ensures c in cats {
      var r := TimedAppListed(rows, lo, hi, InCategory(c));
    }
    v := Summary(seconds, Count(lo, hi, Spanned(rows, lo, hi)), apps, cats,
                         Count(lo, hi, Overlapping(rows, lo, hi)), Devices(rows), LastSeen(rows));
  }

  // ---- Reachability -------------------------------------------------------------------

  ghost predicate Reachable(p: Policy, g: Ledger)
    requires ValidPolicy(p)
  {
    exists gs, es :: Run(p, gs, es) && g == gs[|gs| - 1]
  }

  lemma StartReachable(p: Policy, now: Instant)
    requires ValidPolicy(p)
    ensures Reachable(p, Start(now))
  {
    assert Run(p, [Start(now)], []);
  }

  lemma NextReachable(p: Policy, g: Ledger, a: Action)
    requires ValidPolicy(p) && Reachable(p, g) && Enabled(p, g, a)
    ensures Reachable(p, Next(p, g, a))
  {
    var gs, es :| Run(p, gs, es) && g == gs[|gs| - 1];
    var (gs', es') := (gs + [Next(p, g, a)], es + [a]);
    forall i: nat | i < |es'| ensures StepAt(p, gs', es', i) {
      if i < |es| { assert StepAt(p, gs, es, i); }
    }
    assert Run(p, gs', es');
  }

  /** A rebuild never reads a day from which retention has removed evidence. */
  ghost predicate RebuildsComplete(p: Policy, g: Ledger) {
    forall k | k in g.store.days && g.store.days[k].dirty ::
      Touching(p, g.store.intervals, k) == Touching(p, All(g), k)
  }

  lemma ClearWindowIsSafe(p: Policy, g: Ledger)
    requires ValidPolicy(p) && WindowClears(p) && Reachable(p, g)
    ensures RebuildsComplete(p, g)
  {
    var gs, es :| Run(p, gs, es) && g == gs[|gs| - 1];
    RunKeeps(p, gs, es, |gs| - 1);
    forall k | k in g.store.days && g.store.days[k].dirty
      ensures Touching(p, g.store.intervals, k) == Touching(p, All(g), k)
    {
      DirtyDayComplete(p, g, k);
    }
  }

  // ---- Rebuilding everything ----------------------------------------------------------

  /** Nothing but the days differs. */
  ghost predicate OnlyDays(g: Ledger, g': Ledger) { g' == g.(store := g.store.(days := g'.store.days)) }

  /** Any dirty day no one has locked can be rebuilt, unless it has too many intervals. */
  lemma RebuildReachable(p: Policy, g: Ledger, k: Key) returns (g': Ledger)
    requires ValidPolicy(p) && Reachable(p, g) && k in g.store.days && g.store.days[k].dirty
    requires k !in g.locks && k.zone < |p.zones| && |Touching(p, g.store.intervals, k)| <= LIMIT
    ensures Reachable(p, g') && OnlyDays(g, g')
    ensures g'.store.days.Keys == g.store.days.Keys && !g'.store.days[k].dirty
    ensures forall j | j in g.store.days && j != k :: g'.store.days[j] == g.store.days[j]
    ensures g'.store.days[k].payload.Some?
         && SummaryOfDay(p, g.store.intervals, k, g'.store.days[k].updatedAt, g'.store.days[k].payload.value)
  {
    var rows := RowsExist(Touching(p, g.store.intervals, k));
    var v := SummaryExists(rows, DayStart(p, k), DayEndAt(p, k, g.now));
    NextReachable(p, g, LockDay(k, g.now));
    var g1 := Next(p, g, LockDay(k, g.now));
    assert SummaryOfDay(p, g1.store.intervals, k, g.now, v);
    NextReachable(p, g1, ReadDay(k, Some(v)));
    var g2 := Next(p, g1, ReadDay(k, Some(v)));
    NextReachable(p, g2, CommitDay(k));
    g' := Next(p, g2, CommitDay(k));
    assert g'.locks == g.locks;
  }

  lemma SelectionBounded(p: Policy, m: map<nat, Interval>, k: Key, bound: set<nat>)
    requires Touching(p, m, k).Keys <= bound
    ensures |Touching(p, m, k)| <= |bound|
  {
    SubsetSize(Touching(p, m, k).Keys, bound);
  }

  lemma {:induction false} SubsetSize<T>(s: set<T>, t: set<T>)
    requires s <= t
    ensures |s| <= |t|
  {
    if s != {} {
      var x := SomeMember(s);
      SubsetSize(s - {x}, t - {x});
    }
  }

  lemma {:induction false} AllRebuilt(p: Policy, g: Ledger, ks: set<Key>) returns (g': Ledger)
    requires ValidPolicy(p) && Reachable(p, g) && g.locks == map[] && |g.store.intervals| <= LIMIT
    requires forall k | k in g.store.days && g.store.days[k].dirty :: k in ks && k.zone < |p.zones|
    ensures Reachable(p, g') && OnlyDays(g, g')
    ensures forall k | k in g'.store.days :: !g'.store.days[k].dirty
    decreases ks
  {
    if ks == {} {
      g' := g;
    } else {
      var k := SomeMember(ks);
      var g1 := g;
      if k in g.store.days && g.store.days[k].dirty {
        SelectionBounded(p, g.store.intervals, k, g.store.intervals.Keys);
        g1 := RebuildReachable(p, g, k);
      }
      g' := AllRebuilt(p, g1, ks - {k});
    }
  }

  // ---- A window that is too short -----------------------------------------------------

  function IdleAt(id: nat, when: Instant): Sample { Sample(id, when, Some("u"), IDLE, None, None, None) }

  function IdleRow(device: Device, when: Instant): Interval {
    Interval(device, Reading(Some("u"), IDLE, None, None, None, None), when, when, when)
  }

  /** One user's devices 0 and 1 have reported once each, at `t` and at `u`. */
  ghost predicate TwoReported(p: Policy, g: Ledger, t: Instant, u: Instant) {
    && g.store.intervals == map[0 := IdleRow(0, t), 1 := IdleRow(1, u)]
    && 1 in g.store.cursors && g.store.cursors[1] == Cursor(Some(1), 1, u, Some("u"), IDLE)
    && g.dead == map[] && g.now == u && g.locks == map[]
  }

  lemma TwoReport(p: Policy, t: Instant, u: Instant) returns (g: Ledger)
    requires ValidPolicy(p) && t <= u
    ensures Reachable(p, g) && TwoReported(p, g, t, u)
    ensures forall k | k in g.store.days :: k.zone < |p.zones|
  {
    var g0 := Start(t);
    StartReachable(p, t);
    var a1 := Ingest(0, IdleAt(1, t), t);
    NextReachable(p, g0, a1);
    var g1 := Next(p, g0, a1);
    assert g1.store.intervals == map[0 := IdleRow(0, t)] && g1.store.nextId == 1;
    assert g1.store.cursors == map[0 := Cursor(Some(0), 1, t, Some("u"), IDLE)];
    var a2 := Ingest(1, IdleAt(1, u), u);
    NextReachable(p, g1, a2);
    g := Next(p, g1, a2);
  }

  lemma OldRemoved(p: Policy, g: Ledger, t: Instant, u: Instant, at: Instant)
    requires ValidPolicy(p) && TwoReported(p, g, t, u) && u <= at && t < OldestKept(p, at, |p.zones|)
    requires forall k | k in g.store.days :: !g.store.days[k].dirty
    ensures var e := Retain({0}, {}, {}, at);
      && Enabled(p, g, e)
      && var g' := Next(p, g, e);
      && g'.now == at && g'.locks == map[]
      && g'.store.intervals == map[1 := IdleRow(1, u)] && g'.dead == map[0 := IdleRow(0, t)]
      && 1 in g'.store.cursors && g'.store.cursors[1] == Cursor(Some(1), 1, u, Some("u"), IDLE)
  {
    var e := Retain({0}, {}, {}, at);
    assert Deletable(p, g.store, at, g.store.intervals[0]);
    assert Next(p, g, e).store.intervals == map[1 := IdleRow(1, u)];
    assert Next(p, g, e).dead == map[0 := IdleRow(0, t)];
  }

  /** Once all days are rebuilt, retention at `at` may remove the older interval. */
  lemma OneRetained(p: Policy, t: Instant, u: Instant, at: Instant) returns (g: Ledger)
    requires ValidPolicy(p) && t <= u <= at && t < OldestKept(p, at, |p.zones|)
    ensures Reachable(p, g) && g.now == at && g.locks == map[]
    ensures g.store.intervals == map[1 := IdleRow(1, u)] && g.dead == map[0 := IdleRow(0, t)]
    ensures 1 in g.store.cursors && g.store.cursors[1] == Cursor(Some(1), 1, u, Some("u"), IDLE)
  {
    var g2 := TwoReport(p, t, u);
    assert |g2.store.intervals| == 2;
    var g3 := AllRebuilt(p, g2, g2.store.days.Keys);
    OldRemoved(p, g3, t, u, at);
    NextReachable(p, g3, Retain({0}, {}, {}, at));
    g := Next(p, g3, Retain({0}, {}, {}, at));
  }

  lemma ReachableTracked(p: Policy, g: Ledger)
    requires ValidPolicy(p) && Reachable(p, g)
    ensures Tracked(p, g)
  {
    var gs, es :| Run(p, gs, es) && g == gs[|gs| - 1];
    RunTracked(p, gs, es, |gs| - 1);
  }

  lemma LateSampleMarks(p: Policy, s: Store, b: Sample, u: Instant, i: nat)
    requires ValidPolicy(p) && i < |p.zones| && 1 in s.intervals && s.intervals[1] == IdleRow(1, u)
    requires 1 in s.cursors && s.cursors[1] == Cursor(Some(1), 1, u, Some("u"), IDLE)
    requires b.id == 2 && b.user == Some("u") && u < b.when <= u + Days(1)
    ensures Key("u", i, p.zones[i].date(u)) in SampleKeys(p, s, 1, b)
  {
    DateMonotone(p.zones[i], u, b.when);
    assert Owner(p, s, 1, b) == Some("u");
    assert AccountedFrom(p, s, 1, b) == u;
  }

  lemma GoneIsMissing(p: Policy, g: Ledger, k: Key, t: Instant)
    requires ValidPolicy(p) && WellKeyed(g.store, g.dead)
    requires k.zone < |p.zones| && k == Key("u", k.zone, p.zones[k.zone].date(t))
    requires g.dead == map[0 := IdleRow(0, t)] && k in g.store.days && g.store.days[k].dirty
    ensures !RebuildsComplete(p, g)
  {
    TouchesItsDates(p, IdleRow(0, t), k);
    assert 0 in Touching(p, All(g), k);
    assert 0 !in Touching(p, g.store.intervals, k);
  }

  /** A late sample re-marks the day whose other interval is gone. */
  lemma LateSampleReopens(p: Policy, g: Ledger, b: Sample, at: Instant, t: Instant, u: Instant, i: nat)
    requires ValidPolicy(p) && Tracked(p, g) && Enabled(p, g, Ingest(1, b, at))
    requires i < |p.zones| && p.zones[i].date(t) == p.zones[i].date(u)
    requires g.store.intervals == map[1 := IdleRow(1, u)] && g.dead == map[0 := IdleRow(0, t)]
    requires 1 in g.store.cursors && g.store.cursors[1] == Cursor(Some(1), 1, u, Some("u"), IDLE)
    requires b.id == 2 && b.user == Some("u") && u < b.when <= u + Days(1)
    ensures !RebuildsComplete(p, Next(p, g, Ingest(1, b, at)))
  {
    var (g', k) := (Next(p, g, Ingest(1, b, at)), Key("u", i, p.zones[i].date(t)));
    LateSampleMarks(p, g.store, b, u, i);
    IngestAccounted(p, g, Ingest(1, b, at));
    IngestTracked(p, g, Ingest(1, b, at));
    GoneIsMissing(p, g', k, t);
  }

  /** The last instant of the day that holds the last deletable one. */
  lemma LastOfItsDay(p: Policy, at: Instant, i: nat) returns (t: Instant, u: Instant)
    requires ValidPolicy(p) && i < |p.zones|
    ensures t == OldestKept(p, at, |p.zones|) - 1 && t <= u < at
    ensures var z := p.zones[i]; z.date(u) == z.date(t) && u + 1 == z.start(z.date(t) + 1)
  {
    var z := p.zones[i];
    var oldest := z.date(at) - p.detailDays;
    t := OldestKept(p, at, |p.zones|) - 1;
    OldestKeptIsLeast(p, at, |p.zones|);
    u := z.start(z.date(t) + 1) - 1;
    BeforeDayEnd(z, t);
    BeforeDayEnd(z, at);
    DateIsInverse(z, u, z.date(t));
    StartedByDate(z, oldest, t);
    StartMonotone(z, z.date(t) + 1, oldest);
    StartMonotone(z, oldest, z.date(at));
  }

  /** Device 1's late sample `b` is about to arrive; device 0's interval of the same day is gone. */
  ghost predicate LateSample(p: Policy, g: Ledger, b: Sample, at: Instant, t: Instant, u: Instant, k: Key)
    requires |p.zones| > 0
  {
    && Tracked(p, g) && Enabled(p, g, Ingest(1, b, at)) && g.locks == map[]
    && g.store.intervals == map[1 := IdleRow(1, u)] && g.dead == map[0 := IdleRow(0, t)]
    && 1 in g.store.cursors && g.store.cursors[1] == Cursor(Some(1), 1, u, Some("u"), IDLE)
    && b.id == 2 && b.user == Some("u") && u < b.when <= u + Days(1)
    && k.zone < |p.zones|
    && var z := p.zones[k.zone];
    k == Key("u", k.zone, z.date(t)) && z.date(t) == z.date(u) && u + 1 == z.start(z.date(u) + 1)
  }

  /** When retention may delete from a day that ended less than 48 hours ago, that can happen. */
  lemma LateSampleArrives(p: Policy, at: Instant, i: nat) returns (g: Ledger, b: Sample, t: Instant, u: Instant, k: Key)
    requires ValidPolicy(p) && i < |p.zones| && !ClearsAt(p, at, i)
    ensures Reachable(p, g) && LateSample(p, g, b, at, t, u, k)
  {
    t, u := LastOfItsDay(p, at, i);
    g := OneRetained(p, t, u, at);
    b := IdleAt(2, if u + Days(1) < at then u + Days(1) else at);
    k := Key("u", i, p.zones[i].date(u));
    ReachableTracked(p, g);
  }

  lemma LateSampleLoses(p: Policy, g: Ledger, b: Sample, at: Instant, t: Instant, u: Instant, k: Key)
    requires ValidPolicy(p) && LateSample(p, g, b, at, t, u, k)
    ensures !RebuildsComplete(p, Next(p, g, Ingest(1, b, at)))
  {
    LateSampleReopens(p, g, b, at, t, u, k.zone);
  }

  lemma LateSampleEnabled(p: Policy, g: Ledger, b: Sample, at: Instant, t: Instant, u: Instant, k: Key)
    requires ValidPolicy(p) && Reachable(p, g) && LateSample(p, g, b, at, t, u, k)
    ensures Enabled(p, g, Ingest(1, b, at)) && Reachable(p, Next(p, g, Ingest(1, b, at)))
  {
    NextReachable(p, g, Ingest(1, b, at));
  }

  /** Then a reachable ledger has a day waiting to be rebuilt from which evidence is gone. */
  lemma ShortWindowLoses(p: Policy, at: Instant, i: nat) returns (g: Ledger)
    requires ValidPolicy(p) && i < |p.zones| && !ClearsAt(p, at, i)
    ensures Reachable(p, g) && !RebuildsComplete(p, g)
  {
    var g4, b, t, u, k := LateSampleArrives(p, at, i);
    LateSampleEnabled(p, g4, b, at, t, u, k);
    LateSampleLoses(p, g4, b, at, t, u, k);
    g := Next(p, g4, Ingest(1, b, at));
  }

  ghost predicate Safe(p: Policy)
    requires ValidPolicy(p)
  {
    forall g :: Reachable(p, g) ==> RebuildsComplete(p, g)
  }

  /** Retention never takes evidence from a day still to be rebuilt, in any reachable ledger,
      exactly when the last instant it may delete always lies in days that ended 48 hours before,
      in every report zone. */
  lemma SafeExactlyWhenClear(p: Policy)
    requires ValidPolicy(p)
    ensures Safe(p) <==> WindowClears(p)
  {
    if WindowClears(p) {
      forall g | Reachable(p, g) ensures RebuildsComplete(p, g) {
        ClearWindowIsSafe(p, g);
      }
    } else {
      var i: nat, at :| i < |p.zones| && !ClearsAt(p, at, i);
      var g := ShortWindowLoses(p, at, i);
    }
  }

  // ---- A published answer that is wrong -----------------------------------------------

  /** Walking leaves every row where it began, and what it adds begins no earlier than the walk. */
  ghost predicate AddsFrom(s: Store, s': Store, start: Instant, except: set<nat>) {
    && (forall n | n in s.intervals :: n in s'.intervals && s'.intervals[n].started == s.intervals[n].started)
    && (forall n | n in s'.intervals && n !in s.intervals && n !in except :: start <= s'.intervals[n].started)
  }

  lemma StepAdds(p: Policy, w: Walk, when: Instant, gap: bool, attributed: bool)
    requires |p.zones| > 0 && w.previous in w.store.intervals && KeysBelow(w.store) && w.start < when
    ensures var w' := Step(p, w, when, gap, attributed);
      AddsFrom(w.store, w'.store, w'.start, {w.store.nextId}) && KeysBelow(w'.store)
  {
  }

  lemma StepStarts(p: Policy, w: Walk, when: Instant, gap: bool, attributed: bool)
    requires ValidPolicy(p) && w.previous in w.store.intervals && KeysBelow(w.store) && w.start < when
    ensures var w' := Step(p, w, when, gap, attributed); AddsFrom(w.store, w'.store, w.start, {}) && w.start < w'.start
  {
    BoundaryAhead(p, w.start);
  }

  lemma AddsCompose(s0: Store, s1: Store, s2: Store, start: Instant, later: Instant, first: set<nat>)
    requires AddsFrom(s0, s1, start, first) && AddsFrom(s1, s2, later, {}) && start <= later
    ensures AddsFrom(s0, s2, start, first)
  {
  }

  lemma {:induction false} WalkAdds(p: Policy, w: Walk, when: Instant, gap: bool, attributed: bool)
    requires ValidPolicy(p) && w.previous in w.store.intervals && KeysBelow(w.store)
    ensures var w' := WalkTo(p, w, when, gap, attributed); AddsFrom(w.store, w'.store, w.start, {}) && KeysBelow(w'.store)
    decreases when - w.start
  {
    if w.start < when {
      BoundaryAhead(p, w.start);
      StepKeepsPrevious(p, w, when, gap, attributed);
      StepAdds(p, w, when, gap, attributed);
      StepStarts(p, w, when, gap, attributed);
      var w1 := Step(p, w, when, gap, attributed);
      WalkAdds(p, w1, when, gap, attributed);
      AddsCompose(w.store, w1.store, WalkTo(p, w1, when, gap, attributed).store, w.start, w1.start, {});
    }
  }

  lemma WalkAddsOne(p: Policy, w: Walk, when: Instant, gap: bool, attributed: bool)
    requires ValidPolicy(p) && w.previous in w.store.intervals && KeysBelow(w.store) && w.start < when
    ensures var s' := WalkTo(p, w, when, gap, attributed).store;
      AddsFrom(w.store, s', w.start + 1, {w.store.nextId}) && KeysBelow(s')
  {
    BoundaryAhead(p, w.start);
    StepKeepsPrevious(p, w, when, gap, attributed);
    StepAdds(p, w, when, gap, attributed);
    StepStarts(p, w, when, gap, attributed);
    var w1 := Step(p, w, when, gap, attributed);
    WalkAdds(p, w1, when, gap, attributed);
    AddsCompose(w.store, w1.store, WalkTo(p, w1, when, gap, attributed).store, w.start + 1, w1.start, {w.store.nextId});
  }

  lemma RecordAddsOne(p: Policy, s: Store, b: Sample, u: Instant)
    requires ValidPolicy(p) && KeysBelow(s) && 1 in s.intervals
    requires 1 in s.cursors && s.cursors[1] == Cursor(Some(1), 1, u, Some("u"), IDLE)
    requires b.id == 2 && u < b.when <= u + Days(1)
    ensures AddsFrom(s, Record(p, s, 1, b), u + 1, {s.nextId})
  {
    var (gap, attributed) := (LongGap(p, u, b.when), Attributable(s.intervals[1], b, u));
    assert GapStart(p, u, b.when) == u;
    WalkAddsOne(p, Walk(s, 1, u), b.when, gap, attributed);
    var (settled, previous) := Settle(p, s, 1, b);
    AttachAdds(p, settled, 1, b, previous, u);
    AddsCompose(s, settled, Attach(p, settled, 1, b, previous, u).0, u + 1, b.when, {s.nextId});
  }

  lemma LaterRowsElsewhere(p: Policy, s: Store, s': Store, u: Instant, k: Key)
    requires k.zone < |p.zones| && p.zones[k.zone].start(k.day + 1) == u + 1
    requires s.intervals.Keys == {1} && AddsFrom(s, s', u + 1, {s.nextId})
    ensures Touching(p, s'.intervals, k).Keys <= {1, s.nextId}
  {
  }

  /** Of the rows a late sample adds, only the first can begin on the old day. */
  lemma LateRowsFew(p: Policy, s: Store, b: Sample, u: Instant, k: Key)
    requires ValidPolicy(p) && k.zone < |p.zones| && KeysBelow(s) && s.intervals.Keys == {1}
    requires 1 in s.cursors && s.cursors[1] == Cursor(Some(1), 1, u, Some("u"), IDLE)
    requires b.id == 2 && u < b.when <= u + Days(1) && p.zones[k.zone].start(k.day + 1) == u + 1
    ensures |Touching(p, Record(p, s, 1, b).intervals, k)| <= LIMIT
  {
    RecordAddsOne(p, s, b, u);
    LaterRowsElsewhere(p, s, Record(p, s, 1, b), u, k);
    SelectionBounded(p, Record(p, s, 1, b).intervals, k, {1, s.nextId});
  }

  lemma AttachAdds(p: Policy, s: Store, device: Device, b: Sample, previous: Option<nat>, last: Instant)
    requires KeysBelow(s) && (previous.Some? ==> previous.value in s.intervals)
    ensures AddsFrom(s, Attach(p, s, device, b, previous, last).0, b.when, {})
  {
  }

  lemma OnlyOneDevice(p: Policy, s: Store, b: Sample, u: Instant)
    requires ValidPolicy(p) && KeysBelow(s) && s.intervals == map[1 := IdleRow(1, u)]
    requires 1 in s.cursors && s.cursors[1].interval == Some(1)
    ensures var s' := Record(p, s, 1, b); forall n | n in s'.intervals :: s'.intervals[n].device == 1
  {
    RecordLeavesOthers(p, s, 1, b);
  }

  lemma SelectedByOne(p: Policy, m: map<nat, Interval>, k: Key, lo: Instant, hi: Instant, v: Summary, rows: seq<Interval>)
    requires Enumerates(rows, Touching(p, m, k)) && Summarizes(rows, lo, hi, v)
    requires forall n | n in m :: m[n].device == 1
    ensures 0 !in v.devices
  {
    var ids: seq<nat> :| Reads(ids, Touching(p, m, k), rows);
    forall r | r in rows ensures r.device == 1 {
      var i :| 0 <= i < |rows| && rows[i] == r;
      assert ids[i] in ids;
    }
  }

  lemma SelectedOfAll(p: Policy, g: Ledger, k: Key, lo: Instant, hi: Instant, v: Summary, rows: seq<Interval>, t: Instant)
    requires ValidPolicy(p) && WellKeyed(g.store, g.dead) && k.zone < |p.zones| && k == Key("u", k.zone, p.zones[k.zone].date(t))
    requires g.dead == map[0 := IdleRow(0, t)]
    requires Enumerates(rows, Touching(p, All(g), k)) && Summarizes(rows, lo, hi, v)
    ensures 0 in v.devices
  {
    TouchesItsDates(p, IdleRow(0, t), k);
    assert 0 in Touching(p, All(g), k);
    var ids: seq<nat> :| Reads(ids, Touching(p, All(g), k), rows);
    assert 0 in ids;
    var i :| 0 <= i < |ids| && ids[i] == 0;
    assert rows[i] == IdleRow(0, t) && rows[i] in rows;
  }

  /** Rebuilding the reopened day publishes a summary without the device that was there. */
  lemma WrongAnswer(p: Policy, g: Ledger, k: Key, t: Instant) returns (g': Ledger)
    requires ValidPolicy(p) && Reachable(p, g) && Tracked(p, g) && Reopened(p, g, k, t)
    ensures Reachable(p, g') && !Coherent(p, g')
  {
    g' := RebuildReachable(p, g, k);
    var row := g'.store.days[k];
    var (lo, hi, v) := (DayStart(p, k), DayEndAt(p, k, row.updatedAt), row.payload.value);
    var rows :| Enumerates(rows, Touching(p, g.store.intervals, k)) && Summarizes(rows, lo, hi, v);
    SelectedByOne(p, g.store.intervals, k, lo, hi, v, rows);
    if SummaryOfDay(p, All(g'), k, row.updatedAt, v) {
      var rows' :| Enumerates(rows', Touching(p, All(g'), k)) && Summarizes(rows', lo, hi, v);
      SelectedOfAll(p, g', k, lo, hi, v, rows', t);
    }
  }

  lemma LateSampleDirties(p: Policy, g: Ledger, b: Sample, at: Instant, u: Instant, k: Key)
    requires ValidPolicy(p) && Tracked(p, g) && Enabled(p, g, Ingest(1, b, at))
    requires k.zone < |p.zones| && k == Key("u", k.zone, p.zones[k.zone].date(u))
    requires g.store.intervals == map[1 := IdleRow(1, u)]
    requires 1 in g.store.cursors && g.store.cursors[1] == Cursor(Some(1), 1, u, Some("u"), IDLE)
    requires b.id == 2 && b.user == Some("u") && u < b.when <= u + Days(1)
    ensures var s' := Record(p, g.store, 1, b); k in s'.days && s'.days[k].dirty
  {
    LateSampleMarks(p, g.store, b, u, k.zone);
    IngestAccounted(p, g, Ingest(1, b, at));
  }

  /** A day reopened by a late sample after losing device 0's interval to retention. */
  ghost predicate Reopened(p: Policy, g: Ledger, k: Key, t: Instant) {
    && k.zone < |p.zones| && k == Key("u", k.zone, p.zones[k.zone].date(t)) && g.dead == map[0 := IdleRow(0, t)]
    && k in g.store.days && g.store.days[k].dirty && k !in g.locks
    && (forall n | n in g.store.intervals :: g.store.intervals[n].device == 1)
    && |Touching(p, g.store.intervals, k)| <= LIMIT
  }

  lemma ReopenedBy(p: Policy, g: Ledger, g': Ledger, s': Store, k: Key, t: Instant)
    requires k.zone < |p.zones| && k == Key("u", k.zone, p.zones[k.zone].date(t)) && g.dead == map[0 := IdleRow(0, t)]
    requires g'.store == s' && g'.dead == g.dead && g'.locks == g.locks == map[]
    requires k in s'.days && s'.days[k].dirty && |Touching(p, s'.intervals, k)| <= LIMIT
    requires forall n | n in s'.intervals :: s'.intervals[n].device == 1
    ensures Reopened(p, g', k, t)
  {
  }

  lemma LateSampleDirty(p: Policy, g: Ledger, b: Sample, at: Instant, t: Instant, u: Instant, k: Key)
    requires ValidPolicy(p) && LateSample(p, g, b, at, t, u, k)
    ensures var s' := Record(p, g.store, 1, b); k in s'.days && s'.days[k].dirty
  {
    LateSampleDirties(p, g, b, at, u, k);
  }

  lemma LateSampleFew(p: Policy, g: Ledger, b: Sample, at: Instant, t: Instant, u: Instant, k: Key)
    requires ValidPolicy(p) && LateSample(p, g, b, at, t, u, k)
    ensures |Touching(p, Record(p, g.store, 1, b).intervals, k)| <= LIMIT
  {
    LateRowsFew(p, g.store, b, u, k);
  }

  lemma LateSampleOne(p: Policy, g: Ledger, b: Sample, at: Instant, t: Instant, u: Instant, k: Key)
    requires ValidPolicy(p) && LateSample(p, g, b, at, t, u, k)
    ensures var s' := Record(p, g.store, 1, b); forall n | n in s'.intervals :: s'.intervals[n].device == 1
  {
    OnlyOneDevice(p, g.store, b, u);
  }

  lemma LateSampleReopened(p: Policy, g: Ledger, b: Sample, at: Instant, t: Instant, u: Instant, k: Key)
    requires ValidPolicy(p) && LateSample(p, g, b, at, t, u, k)
    ensures Reopened(p, Next(p, g, Ingest(1, b, at)), k, t)
  {
    LateSampleDirty(p, g, b, at, t, u, k);
    LateSampleFew(p, g, b, at, t, u, k);
    LateSampleOne(p, g, b, at, t, u, k);
    ReopenedBy(p, g, Next(p, g, Ingest(1, b, at)), Record(p, g.store, 1, b), k, t);
  }

  lemma LateSampleLeaves(p: Policy, at: Instant, i: nat) returns (g: Ledger, k: Key, t: Instant)
    requires ValidPolicy(p) && i < |p.zones| && !ClearsAt(p, at, i)
    ensures Reachable(p, g) && Tracked(p, g) && Reopened(p, g, k, t)
  {
    var g4, b, t', u, k' := LateSampleArrives(p, at, i);
    LateSampleEnabled(p, g4, b, at, t', u, k');
    LateSampleReopened(p, g4, b, at, t', u, k');
    g, k, t := Next(p, g4, Ingest(1, b, at)), k', t';
    ReachableTracked(p, g);
  }

  lemma ShortWindowMisreports(p: Policy, at: Instant, i: nat) returns (g: Ledger)
    requires ValidPolicy(p) && i < |p.zones| && !ClearsAt(p, at, i)
    ensures Reachable(p, g) && !Coherent(p, g)
  {
    var g5, k, t := LateSampleLeaves(p, at, i);
    g := WrongAnswer(p, g5, k, t);
  }

  /** Every published answer is the summary of everything ever recorded, in every reachable ledger,
      exactly under the same condition. */
  lemma TrueExactlyWhenClear(p: Policy)
    requires ValidPolicy(p)
    ensures (forall g :: Reachable(p, g) ==> Coherent(p, g)) <==> WindowClears(p)
  {
    if WindowClears(p) {
      forall g | Reachable(p, g) ensures Coherent(p, g) {
        var gs, es :| Run(p, gs, es) && g == gs[|gs| - 1];
        RunKeeps(p, gs, es, |gs| - 1);
      }
    } else {
      var i: nat, at :| i < |p.zones| && !ClearsAt(p, at, i);
      var g := ShortWindowMisreports(p, at, i);
    }
  }

  // ---- What that means for real windows -----------------------------------------------

  /** The `n` days before local day `d` span at least 48 hours. */
  ghost predicate SpansTwoDays(z: Zone, n: int, d: int) { z.start(d - n) <= z.start(d) - Days(2) }

  /** Any `detailDays` consecutive days of a supported zone span at least 48 hours. */
  ghost predicate LongEnough(p: Policy) {
    forall i, d | 0 <= i < |p.zones| :: SpansTwoDays(p.zones[i], p.detailDays, d)
  }

  lemma LongEnoughClears(p: Policy)
    requires ValidPolicy(p) && LongEnough(p)
    ensures WindowClears(p)
  {
    forall i: nat, at | i < |p.zones| ensures ClearsAt(p, at, i) {
      var z := p.zones[i];
      var oldest := z.date(at) - p.detailDays;
      OldestKeptIsLeast(p, at, |p.zones|);
      assert SpansTwoDays(z, p.detailDays, z.date(at));
      StartedByDate(z, oldest, OldestKept(p, at, |p.zones|) - 1);
      StartMonotone(z, z.date(OldestKept(p, at, |p.zones|) - 1) + 1, oldest);
      BeforeDayEnd(z, at);
    }
  }

  /** Retention run at the start of day `d` may delete up to the start of day `d - detailDays`. */
  lemma OneZoneShort(p: Policy, d: int)
    requires ValidPolicy(p) && |p.zones| == 1 && !SpansTwoDays(p.zones[0], p.detailDays, d)
    ensures !ClearsAt(p, p.zones[0].start(d), 0)
  {
    var (z, oldest) := (p.zones[0], d - p.detailDays);
    StartMonotone(z, d, d + 1);
    DateIsInverse(z, z.start(d), d);
    StartMonotone(z, oldest - 1, oldest);
    DateIsInverse(z, z.start(oldest) - 1, oldest - 1);
    assert OldestKept(p, z.start(d), 1) == z.start(oldest);
  }

  /** With one report zone, long enough days are also necessary. */
  lemma OneZoneSafeExactlyWhenLongEnough(p: Policy)
    requires ValidPolicy(p) && |p.zones| == 1
    ensures Safe(p) <==> LongEnough(p)
  {
    SafeExactlyWhenClear(p);
    if LongEnough(p) {
      LongEnoughClears(p);
    } else {
      var i, d :| 0 <= i < |p.zones| && !SpansTwoDays(p.zones[i], p.detailDays, d);
      OneZoneShort(p, d);
    }
  }

  ghost predicate PlainDay(z: Zone, d: int) { z.start(d + 1) == z.start(d) + Days(1) }
  /** Every day of the zone lasts 24 hours. */
  ghost predicate FixedZone(z: Zone) { ValidZone(z) && forall d :: PlainDay(z, d) }

  lemma {:induction false} PlainDaysAddUp(z: Zone, n: nat, d: int)
    requires FixedZone(z)
    ensures z.start(d) == z.start(d - n) + Days(n)
  {
    if n > 0 {
      PlainDaysAddUp(z, n - 1, d);
      assert PlainDay(z, d - n);
    }
  }

  lemma {:induction false} OldestKeptIsRecent(p: Policy, at: Instant, n: nat)
    requires ValidPolicy(p) && p.detailDays == 1 && 0 < n <= |p.zones|
    requires forall i | 0 <= i < |p.zones| :: FixedZone(p.zones[i])
    ensures at - Days(2) < OldestKept(p, at, n)
  {
    var z := p.zones[n - 1];
    BeforeDayEnd(z, at);
    PlainDaysAddUp(z, 2, z.date(at) + 1);
    if n > 1 { OldestKeptIsRecent(p, at, n - 1); }
  }

  lemma FixedZonesSpan(p: Policy)
    requires ValidPolicy(p) && (forall i | 0 <= i < |p.zones| :: FixedZone(p.zones[i])) && 2 <= p.detailDays
    ensures LongEnough(p)
  {
    forall i, d | 0 <= i < |p.zones| ensures SpansTwoDays(p.zones[i], p.detailDays, d) {
      PlainDaysAddUp(p.zones[i], p.detailDays, d);
    }
  }

  /** Where no report zone shifts its clocks, a one-day window, which the settings allow, is
      unsafe and every longer one is safe, however many zones there are. */
  lemma FixedZonesNeedTwoDays(p: Policy)
    requires ValidPolicy(p) && forall i | 0 <= i < |p.zones| :: FixedZone(p.zones[i])
    ensures Safe(p) <==> 2 <= p.detailDays
  {
    SafeExactlyWhenClear(p);
    if 2 <= p.detailDays {
      FixedZonesSpan(p);
      LongEnoughClears(p);
    } else {
      OldestKeptIsRecent(p, 0, |p.zones|);
      BeforeDayEnd(p.zones[0], OldestKept(p, 0, |p.zones|) - 1);
      assert !ClearsAt(p, 0, 0);
    }
  }

  /** A zone `ahead` of UTC. */
  function Offset(ahead: int): Zone { Zone((d: int) => Days(d) - ahead, (t: int) => UtcDay(t + ahead)) }

  lemma OffsetIsFixed(ahead: int)
    ensures FixedZone(Offset(ahead))
  {
    var z := Offset(ahead);
    forall a, b ensures StartsEarlier(z, a, b) {
    }
    forall t ensures DatedWithin(z, t) {
      var x := t + ahead;
      assert z.date(t) == UtcDay(x) && Days(UtcDay(x)) <= x < Days(UtcDay(x) + 1);
      assert z.start(z.date(t)) == Days(UtcDay(x)) - ahead && z.start(z.date(t) + 1) == Days(UtcDay(x) + 1) - ahead;
    }
    forall d ensures PlainDay(z, d) {
    }
  }

  /** Every day of the zone lasts at least sixteen hours. */
  ghost predicate FullDays(z: Zone) { forall d :: FullDay(z, d) }
  ghost predicate FullDay(z: Zone, d: int) { z.start(d) + Seconds(57_600) <= z.start(d + 1) }

  lemma {:induction false} DaysAddUp(z: Zone, n: nat, d: int)
    requires FullDays(z)
    ensures z.start(d - n) + Seconds(57_600 * n) <= z.start(d)
  {
    if n > 0 {
      DaysAddUp(z, n - 1, d);
      assert FullDay(z, d - n);
    }
  }

  /** With any daylight-saving rules that leave sixteen hours to each day, a window of three
      days or more (the default is fourteen) is long enough in every zone at once. */
  lemma ThreeDaysSuffice(p: Policy)
    requires ValidPolicy(p) && 3 <= p.detailDays && forall i | 0 <= i < |p.zones| :: FullDays(p.zones[i])
    ensures WindowClears(p) && Safe(p)
  {
    forall i, d | 0 <= i < |p.zones| ensures SpansTwoDays(p.zones[i], p.detailDays, d) {
      DaysAddUp(p.zones[i], p.detailDays, d);
    }
    LongEnoughClears(p);
    SafeExactlyWhenClear(p);
  }
}
