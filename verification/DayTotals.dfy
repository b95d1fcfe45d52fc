/** From samples to totals: what a clean day reports, read off instant by instant from everything
    the devices ever sent, with no intervals in between. */
module DayTotals {
  import opened Calendar
  import opened Activity
  import opened Measure
  import opened Sweep
  import opened Summaries
  import opened Precedence
  import opened Conservation
  import opened Recorder
  import opened Tiling
  import opened Freshness
  import opened Rollups
  import opened Answers
  import opened LastSeenDays

  // ---- The pointwise rule over samples ------------------------------------------------

  /** The device's samples say something of the user at `t`. */
  ghost predicate Speaks(p: Policy, g: Ledger, user: string, d: Device, t: Instant) {
    Told(p, g, d, t).Some? && Told(p, g, d, t).value.user == Some(user)
  }

  ghost predicate AnyoneSpeaks(p: Policy, g: Ledger, user: string, t: Instant) {
    exists d :: Speaks(p, g, user, d, t)
  }

  /** Some device says the user is in state `s` at `t`. */
  ghost predicate SaysState(p: Policy, g: Ledger, user: string, t: Instant, s: State) {
    exists d :: Speaks(p, g, user, d, t) && Told(p, g, d, t).value.state == s
  }

  /** Some device says `s`, and none says anything that wins over it: ACTIVE wins, then IDLE,
      LOCKED, DISCONNECTED and UNKNOWN. */
  ghost predicate StateWins(p: Policy, g: Ledger, user: string, t: Instant, s: State) {
    && SaysState(p, g, user, t, s)
    && (s != ACTIVE ==> !SaysState(p, g, user, t, ACTIVE))
    && (s in {LOCKED, DISCONNECTED, UNKNOWN} ==> !SaysState(p, g, user, t, IDLE))
    && (s in {DISCONNECTED, UNKNOWN} ==> !SaysState(p, g, user, t, LOCKED))
    && (s == UNKNOWN ==> !SaysState(p, g, user, t, DISCONNECTED))
  }

  /** Of all devices that speak of the user at `t`, the one that counts: the winning state, and the
      least device saying it. */
  ghost predicate Leads(p: Policy, g: Ledger, user: string, d: Device, t: Instant) {
    && Speaks(p, g, user, d, t)
    && StateWins(p, g, user, t, Told(p, g, d, t).value.state)
    && forall e | Speaks(p, g, user, e, t) && Told(p, g, e, t).value.state == Told(p, g, d, t).value.state :: d <= e
  }

  ghost function Winning(p: Policy, g: Ledger, user: string, s: State): Instant -> bool {
    t => StateWins(p, g, user, t, s)
  }

  ghost function Leading(p: Policy, g: Ledger, user: string, want: Reading -> bool): Instant -> bool {
    t => exists d :: Leads(p, g, user, d, t) && want(Told(p, g, d, t).value)
  }

  ghost function TwoSpeak(p: Policy, g: Ledger, user: string): Instant -> bool {
    t => exists d, e :: Speaks(p, g, user, d, t) && Speaks(p, g, user, e, t) && d != e
  }

  /** Someone speaks of the user at or before `t`, and at or after it, within the day. */
  ghost predicate Enclosed(p: Policy, g: Ledger, user: string, lo: Instant, hi: Instant, t: Instant) {
    && (exists u :: lo <= u < hi && u <= t && AnyoneSpeaks(p, g, user, u))
    && (exists v :: lo <= v < hi && t <= v && AnyoneSpeaks(p, g, user, v))
  }

  ghost function Observed(p: Policy, g: Ledger, user: string, lo: Instant, hi: Instant): Instant -> bool {
    t => Enclosed(p, g, user, lo, hi, t)
  }

  ghost function Silent(p: Policy, g: Ledger, user: string, lo: Instant, hi: Instant): Instant -> bool {
    t => Enclosed(p, g, user, lo, hi, t) && !AnyoneSpeaks(p, g, user, t)
  }

  function AppIs(a: App): Reading -> bool { (r: Reading) => r.state == ACTIVE && Application(r.process, r.category) == a }
  function CategoryIs(c: string): Reading -> bool {
    (r: Reading) => r.state == ACTIVE && Application(r.process, r.category).category == c
  }

  ghost function Spent(p: Policy, g: Ledger, user: string, lo: Instant, hi: Instant, want: Reading -> bool): nat {
    Count(lo, hi, Leading(p, g, user, want))
  }

  /** `v` holds the totals of the user's samples over [lo, hi). */
  ghost predicate TotalsOfSamples(p: Policy, g: Ledger, user: string, lo: Instant, hi: Instant, v: Summary) {
    && (forall s :: s in v.seconds
          && v.seconds[s] == Count(lo, hi, Winning(p, g, user, s))
                             + if s == UNKNOWN then Count(lo, hi, Silent(p, g, user, lo, hi)) else 0)
    && v.span == Count(lo, hi, Observed(p, g, user, lo, hi))
    && (forall a :: a in v.applications <==> Spent(p, g, user, lo, hi, AppIs(a)) > 0)
    && (forall a | a in v.applications :: v.applications[a] == Spent(p, g, user, lo, hi, AppIs(a)))
    && (forall c :: c in v.categories <==> Spent(p, g, user, lo, hi, CategoryIs(c)) > 0)
    && (forall c | c in v.categories :: v.categories[c] == Spent(p, g, user, lo, hi, CategoryIs(c)))
    && v.overlap == Count(lo, hi, TwoSpeak(p, g, user))
  }

  // ---- Rows and samples ---------------------------------------------------------------

  /** `rows` are all intervals ever recorded that the rebuild of day `k` selects, read up to `hi`. */
  ghost predicate RowsOfDay(p: Policy, g: Ledger, k: Key, rows: seq<Interval>, lo: Instant, hi: Instant) {
    && |p.zones| > 0 && Tracked(p, g) && k.zone < |p.zones| && Enumerates(rows, Touching(p, All(g), k))
    && lo == DayStart(p, k) && hi <= p.zones[k.zone].start(k.day + 1)
  }

  lemma CoverSpeaks(p: Policy, g: Ledger, k: Key, rows: seq<Interval>, lo: Instant, hi: Instant, i: int, t: Instant)
    requires RowsOfDay(p, g, k, rows, lo, hi) && Covers(rows, lo, hi, i, t)
    ensures Speaks(p, g, k.user, rows[i].device, t) && Told(p, g, rows[i].device, t) == Some(rows[i].reading)
  {
    var ids: seq<nat> :| Reads(ids, Touching(p, All(g), k), rows);
    assert ids[i] in ids;
    assert On(All(g), rows[i].device, ids[i], t);
    TrackedTells(p, g, rows[i].device);
  }

  lemma SpeakerCovers(p: Policy, g: Ledger, k: Key, rows: seq<Interval>, lo: Instant, hi: Instant, d: Device, t: Instant)
    returns (i: int)
    requires RowsOfDay(p, g, k, rows, lo, hi) && lo <= t < hi && Speaks(p, g, k.user, d, t)
    ensures Covers(rows, lo, hi, i, t) && rows[i].device == d && Told(p, g, d, t) == Some(rows[i].reading)
  {
    TrackedTells(p, g, d);
    var n :| On(All(g), d, n, t);
    assert Touches(p, All(g)[n], k);
    var ids: seq<nat> :| Reads(ids, Touching(p, All(g), k), rows);
    assert n in ids;
    i :| 0 <= i < |ids| && ids[i] == n;
  }

  lemma RowsDisjoint(p: Policy, g: Ledger, k: Key, rows: seq<Interval>, lo: Instant, hi: Instant)
    requires RowsOfDay(p, g, k, rows, lo, hi)
    ensures DevicesDisjoint(rows)
  {
    EnumeratesDisjoint(All(g), Touching(p, All(g), k), rows);
  }

  lemma SameStates(p: Policy, g: Ledger, k: Key, rows: seq<Interval>, lo: Instant, hi: Instant, t: Instant, s: State)
    requires RowsOfDay(p, g, k, rows, lo, hi) && lo <= t < hi
    ensures ShowsState(rows, lo, hi, t, s) <==> SaysState(p, g, k.user, t, s)
  {
    if ShowsState(rows, lo, hi, t, s) {
      var i :| Covers(rows, lo, hi, i, t) && rows[i].reading.state == s;
      CoverSpeaks(p, g, k, rows, lo, hi, i, t);
    }
    if SaysState(p, g, k.user, t, s) {
      var d :| Speaks(p, g, k.user, d, t) && Told(p, g, d, t).value.state == s;
      var i := SpeakerCovers(p, g, k, rows, lo, hi, d, t);
    }
  }

  lemma SameWins(p: Policy, g: Ledger, k: Key, rows: seq<Interval>, lo: Instant, hi: Instant, t: Instant, s: State)
    requires RowsOfDay(p, g, k, rows, lo, hi) && lo <= t < hi
    ensures Wins(rows, lo, hi, t, s) <==> StateWins(p, g, k.user, t, s)
  {
    forall s' ensures ShowsState(rows, lo, hi, t, s') <==> SaysState(p, g, k.user, t, s') {
      SameStates(p, g, k, rows, lo, hi, t, s');
    }
  }

  lemma OwnerLeads(p: Policy, g: Ledger, k: Key, rows: seq<Interval>, lo: Instant, hi: Instant, w: int, t: Instant)
    requires RowsOfDay(p, g, k, rows, lo, hi) && Owns(rows, lo, hi, t, w)
    ensures Leads(p, g, k.user, rows[w].device, t) && Told(p, g, rows[w].device, t) == Some(rows[w].reading)
  {
    CoverSpeaks(p, g, k, rows, lo, hi, w, t);
    OwnerWins(rows, lo, hi, t, w);
    SameWins(p, g, k, rows, lo, hi, t, rows[w].reading.state);
    forall e | Speaks(p, g, k.user, e, t) && Told(p, g, e, t).value.state == rows[w].reading.state ensures rows[w].device <= e {
      var i := SpeakerCovers(p, g, k, rows, lo, hi, e, t);
    }
  }

  lemma LeaderOwns(p: Policy, g: Ledger, k: Key, rows: seq<Interval>, lo: Instant, hi: Instant, d: Device, t: Instant)
    returns (w: int)
    requires RowsOfDay(p, g, k, rows, lo, hi) && lo <= t < hi && Leads(p, g, k.user, d, t)
    ensures Owns(rows, lo, hi, t, w) && rows[w].device == d && Told(p, g, d, t) == Some(rows[w].reading)
  {
    w := SpeakerCovers(p, g, k, rows, lo, hi, d, t);
    RowsDisjoint(p, g, k, rows, lo, hi);
    SameWins(p, g, k, rows, lo, hi, t, rows[w].reading.state);
    forall i | Covers(rows, lo, hi, i, t) && rows[i].reading.state == rows[w].reading.state
      ensures rows[w].device < rows[i].device || (rows[w].device == rows[i].device && w <= i)
    {
      CoverSpeaks(p, g, k, rows, lo, hi, i, t);
      if i != w { OneRowPerDevice(rows, lo, hi, w, i, t); }
    }
    OwnsExactlyIfItWins(rows, lo, hi, t, w);
  }

  // ---- Totals -------------------------------------------------------------------------

  /** `want` looks at an interval only through its reading. */
  ghost predicate LooksAt(want: Interval -> bool, rwant: Reading -> bool) {
    forall i: Interval :: want(i) == rwant(i.reading)
  }

  lemma SameTimes(p: Policy, g: Ledger, k: Key, rows: seq<Interval>, lo: Instant, hi: Instant,
                  want: Interval -> bool, rwant: Reading -> bool)
    requires RowsOfDay(p, g, k, rows, lo, hi) && LooksAt(want, rwant)
    ensures Time(rows, lo, hi, want) == Spent(p, g, k.user, lo, hi, rwant)
  {
    forall t | lo <= t < hi ensures Showing(rows, lo, hi, want)(t) == Leading(p, g, k.user, rwant)(t) {
      if Showing(rows, lo, hi, want)(t) {
        var w :| Owns(rows, lo, hi, t, w) && want(rows[w]);
        OwnerLeads(p, g, k, rows, lo, hi, w, t);
      }
      if Leading(p, g, k.user, rwant)(t) {
        var d :| Leads(p, g, k.user, d, t) && rwant(Told(p, g, d, t).value);
        var w := LeaderOwns(p, g, k, rows, lo, hi, d, t);
      }
    }
    CountSame(lo, hi, Showing(rows, lo, hi, want), Leading(p, g, k.user, rwant));
  }

  lemma SameSeconds(p: Policy, g: Ledger, k: Key, rows: seq<Interval>, lo: Instant, hi: Instant, s: State)
    requires RowsOfDay(p, g, k, rows, lo, hi)
    ensures Time(rows, lo, hi, InState(s)) == Count(lo, hi, Winning(p, g, k.user, s))
  {
    forall t | lo <= t < hi ensures Showing(rows, lo, hi, InState(s))(t) == Winning(p, g, k.user, s)(t) {
      ShowingExactlyIfItWins(rows, lo, hi, s, t);
      SameWins(p, g, k, rows, lo, hi, t, s);
    }
    CountSame(lo, hi, Showing(rows, lo, hi, InState(s)), Winning(p, g, k.user, s));
  }

  lemma CoveredSpeaks(p: Policy, g: Ledger, k: Key, rows: seq<Interval>, lo: Instant, hi: Instant, t: Instant)
    requires RowsOfDay(p, g, k, rows, lo, hi)
    ensures Covered(rows, lo, hi, t) <==> lo <= t < hi && AnyoneSpeaks(p, g, k.user, t)
  {
    if Covered(rows, lo, hi, t) {
      var i :| Covers(rows, lo, hi, i, t);
      CoverSpeaks(p, g, k, rows, lo, hi, i, t);
    }
    if lo <= t < hi && AnyoneSpeaks(p, g, k.user, t) {
      var d :| Speaks(p, g, k.user, d, t);
      var i := SpeakerCovers(p, g, k, rows, lo, hi, d, t);
    }
  }

  lemma SpanEnclosed(p: Policy, g: Ledger, k: Key, rows: seq<Interval>, lo: Instant, hi: Instant, t: Instant)
    requires RowsOfDay(p, g, k, rows, lo, hi)
    ensures InSpan(rows, lo, hi, t) <==> Enclosed(p, g, k.user, lo, hi, t)
  {
    forall u ensures Covered(rows, lo, hi, u) <==> lo <= u < hi && AnyoneSpeaks(p, g, k.user, u) {
      CoveredSpeaks(p, g, k, rows, lo, hi, u);
    }
  }

  lemma SameSpans(p: Policy, g: Ledger, k: Key, rows: seq<Interval>, lo: Instant, hi: Instant)
    requires RowsOfDay(p, g, k, rows, lo, hi)
    ensures Count(lo, hi, Spanned(rows, lo, hi)) == Count(lo, hi, Observed(p, g, k.user, lo, hi))
    ensures Count(lo, hi, Uncovered(rows, lo, hi)) == Count(lo, hi, Silent(p, g, k.user, lo, hi))
  {
    forall t | lo <= t < hi
      ensures Spanned(rows, lo, hi)(t) == Observed(p, g, k.user, lo, hi)(t)
      ensures Uncovered(rows, lo, hi)(t) == Silent(p, g, k.user, lo, hi)(t)
    {
      SpanEnclosed(p, g, k, rows, lo, hi, t);
      CoveredSpeaks(p, g, k, rows, lo, hi, t);
    }
    CountSame(lo, hi, Spanned(rows, lo, hi), Observed(p, g, k.user, lo, hi));
    CountSame(lo, hi, Uncovered(rows, lo, hi), Silent(p, g, k.user, lo, hi));
  }

  lemma TwoRowsTwoSpeak(p: Policy, g: Ledger, k: Key, rows: seq<Interval>, lo: Instant, hi: Instant, t: Instant)
    requires RowsOfDay(p, g, k, rows, lo, hi) && lo <= t < hi
    ensures Overlapping(rows, lo, hi)(t) == TwoSpeak(p, g, k.user)(t)
  {
    if Overlapping(rows, lo, hi)(t) {
      var w :| Owns(rows, lo, hi, t, w) && Contested(rows, lo, hi, t, w);
      var i :| Covers(rows, lo, hi, i, t) && i != w;
      RowsDisjoint(p, g, k, rows, lo, hi);
      OneRowPerDevice(rows, lo, hi, w, i, t);
      CoverSpeaks(p, g, k, rows, lo, hi, w, t);
      CoverSpeaks(p, g, k, rows, lo, hi, i, t);
    }
    if TwoSpeak(p, g, k.user)(t) {
      var d, e :| Speaks(p, g, k.user, d, t) && Speaks(p, g, k.user, e, t) && d != e;
      var i := SpeakerCovers(p, g, k, rows, lo, hi, d, t);
      var j := SpeakerCovers(p, g, k, rows, lo, hi, e, t);
      var w := OwnerExists(rows, lo, hi, t);
      assert Covers(rows, lo, hi, if w == i then j else i, t);
    }
  }

  lemma SameOverlap(p: Policy, g: Ledger, k: Key, rows: seq<Interval>, lo: Instant, hi: Instant)
    requires RowsOfDay(p, g, k, rows, lo, hi)
    ensures Count(lo, hi, Overlapping(rows, lo, hi)) == Count(lo, hi, TwoSpeak(p, g, k.user))
  {
    forall t | lo <= t < hi ensures Overlapping(rows, lo, hi)(t) == TwoSpeak(p, g, k.user)(t) {
      TwoRowsTwoSpeak(p, g, k, rows, lo, hi, t);
    }
    CountSame(lo, hi, Overlapping(rows, lo, hi), TwoSpeak(p, g, k.user));
  }

  lemma SummaryTotalsSamples(p: Policy, g: Ledger, k: Key, rows: seq<Interval>, lo: Instant, hi: Instant, v: Summary)
    requires RowsOfDay(p, g, k, rows, lo, hi) && Summarizes(rows, lo, hi, v)
    ensures TotalsOfSamples(p, g, k.user, lo, hi, v)
  {
    SameSpans(p, g, k, rows, lo, hi);
    SameOverlap(p, g, k, rows, lo, hi);
    forall s ensures Time(rows, lo, hi, InState(s)) == Count(lo, hi, Winning(p, g, k.user, s)) {
      SameSeconds(p, g, k, rows, lo, hi, s);
    }
    forall a ensures Time(rows, lo, hi, InApp(a)) == Spent(p, g, k.user, lo, hi, AppIs(a)) {
      SameTimes(p, g, k, rows, lo, hi, InApp(a), AppIs(a));
    }
    forall c ensures Time(rows, lo, hi, InCategory(c)) == Spent(p, g, k.user, lo, hi, CategoryIs(c)) {
      SameTimes(p, g, k, rows, lo, hi, InCategory(c), CategoryIs(c));
    }
  }

  /** On every run, every clean day reports exactly the totals of all samples ever accepted for its
      user, up to the moment of its rebuild, and they balance; it lists the devices its user was
      sighted on, and the last sighting. */
  lemma EveryRunTotalsSamples(p: Policy, gs: seq<Ledger>, es: seq<Action>, i: nat, k: Key, lo: Instant, hi: Instant)
    requires ValidPolicy(p) && WindowClears(p) && Run(p, gs, es) && i < |gs|
    requires var days := gs[i].store.days; k in days && !days[k].dirty && k.zone < |p.zones|
    requires IsWindow(p, k, gs[i].store.days[k].updatedAt, lo, hi)
    ensures var (row, end) := (gs[i].store.days[k], p.zones[k.zone].start(k.day + 1));
      && row.payload.Some? && Balanced(row.payload.value)
      && TotalsOfSamples(p, gs[i], k.user, lo, hi, row.payload.value)
      && (forall d :: d in row.payload.value.devices <==> SightedOn(p, gs[i], k.user, lo, end, d))
      && IsLastSighting(p, gs[i], k.user, lo, end, row.payload.value.lastSeen)
  {
    RunKeeps(p, gs, es, i);
    RunSeen(p, gs, es, i);
    var (g, row) := (gs[i], gs[i].store.days[k]);
    var rows :| Enumerates(rows, Touching(p, All(g), k))
             && Summarizes(rows, DayStart(p, k), DayEndAt(p, k, row.updatedAt), row.payload.value);
    WindowOfDay(p, k, row.updatedAt, lo, hi);
    SummaryTotalsSamples(p, g, k, rows, lo, hi, row.payload.value);
    SummaryBalances(rows, lo, hi, row.payload.value);
    DevicesSighted(p, g, k, rows);
    LastSeenIsLastSighting(p, g, k, rows);
  }
}
