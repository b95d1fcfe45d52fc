/** The daily summary: what it means instant by instant, and the loop over swept segments
    that computes it. */
module Summaries {
  import opened Calendar
  import opened Activity
  import opened Measure
  import opened Sweep

  // ---- Applications -------------------------------------------------------------------

  datatype App = App(name: string, category: string)

  function Application(process: Option<string>, category: Option<string>): App {
    var key := if process.Some? then process.value else "";
    match key
    case "winword.exe" => App("Microsoft Word", "office")
    case "excel.exe" => App("Microsoft Excel", "office")
    case "powerpnt.exe" => App("PowerPoint", "office")
    case "outlook.exe" => App("Microsoft Outlook", "office")
    case "soffice.bin" => App("LibreOffice", "office")
    case "chrome.exe" => App("Google Chrome", "browser")
    case "browser.exe" => App("Яндекс Браузер", "browser")
    case "yandex.exe" => App("Яндекс Браузер", "browser")
    case "msedge.exe" => App("Microsoft Edge", "browser")
    case "firefox.exe" => App("Firefox", "browser")
    case "opera.exe" => App("Opera", "browser")
    case _ =>
      App(if key == "" then "Приложение неизвестно" else key,
          if category.None? || category.value == "" then "other" else category.value)
  }

  /** Known programs go by their product, whatever category the device reports; any other program
      goes by its own name and the reported category, and a missing one by fixed words. */
  lemma ProgramsAreNamed(process: string, category: Option<string>)
    ensures process in {"winword.exe", "excel.exe", "powerpnt.exe", "outlook.exe", "soffice.bin"} ==>
      Application(Some(process), category).category == "office"
    ensures process in {"chrome.exe", "browser.exe", "yandex.exe", "msedge.exe", "firefox.exe", "opera.exe"} ==>
      Application(Some(process), category).category == "browser"
    ensures [Application(Some("winword.exe"), category).name, Application(Some("excel.exe"), category).name,
             Application(Some("powerpnt.exe"), category).name, Application(Some("outlook.exe"), category).name,
             Application(Some("soffice.bin"), category).name]
         == ["Microsoft Word", "Microsoft Excel", "PowerPoint", "Microsoft Outlook", "LibreOffice"]
    ensures [Application(Some("chrome.exe"), category).name, Application(Some("browser.exe"), category).name,
             Application(Some("yandex.exe"), category).name, Application(Some("msedge.exe"), category).name,
             Application(Some("firefox.exe"), category).name, Application(Some("opera.exe"), category).name]
         == ["Google Chrome", "Яндекс Браузер", "Яндекс Браузер", "Microsoft Edge", "Firefox", "Opera"]
  {
  }

  lemma OtherProgramsKeepTheirName(process: string, category: Option<string>)
    requires process !in {"winword.exe", "excel.exe", "powerpnt.exe", "outlook.exe", "soffice.bin",
                          "chrome.exe", "browser.exe", "yandex.exe", "msedge.exe", "firefox.exe", "opera.exe"}
    ensures var a := Application(Some(process), category);
      && (process != "" ==> a.name == process)
      && (category.Some? && category.value != "" ==> a.category == category.value)
      && (category.None? || category == Some("") ==> a.category == "other")
    ensures Application(None, category) == Application(Some(""), category)
    ensures Application(None, category).name == "Приложение неизвестно"
  {
  }

  function AppOf(r: Interval): App { Application(r.reading.process, r.reading.category) }

  // ---- Meaning ------------------------------------------------------------------------

  /** The reported span: instants with covered time both at or before and at or after them. */
  ghost predicate InSpan(rows: seq<Interval>, lo: Instant, hi: Instant, t: Instant) {
    && (exists u :: u <= t && Covered(rows, lo, hi, u))
    && (exists v :: t <= v && Covered(rows, lo, hi, v))
  }

  /** The owner of `t` exists and satisfies `want`. */
  ghost predicate OwnerIs(rows: seq<Interval>, lo: Instant, hi: Instant, t: Instant, want: Interval -> bool) {
    exists w :: Owns(rows, lo, hi, t, w) && want(rows[w])
  }

  function InState(s: State): Interval -> bool { (r: Interval) => r.reading.state == s }
  function InApp(a: App): Interval -> bool { (r: Interval) => r.reading.state == ACTIVE && AppOf(r) == a }
  function InCategory(c: string): Interval -> bool {
    (r: Interval) => r.reading.state == ACTIVE && AppOf(r).category == c
  }

  ghost function Showing(rows: seq<Interval>, lo: Instant, hi: Instant, want: Interval -> bool): Instant -> bool {
    t => OwnerIs(rows, lo, hi, t, want)
  }

  ghost function Uncovered(rows: seq<Interval>, lo: Instant, hi: Instant): Instant -> bool {
    t => InSpan(rows, lo, hi, t) && !Covered(rows, lo, hi, t)
  }

  ghost function Spanned(rows: seq<Interval>, lo: Instant, hi: Instant): Instant -> bool {
    t => InSpan(rows, lo, hi, t)
  }

  ghost function CoveredAt(rows: seq<Interval>, lo: Instant, hi: Instant): Instant -> bool {
    t => Covered(rows, lo, hi, t)
  }

  ghost function Overlapping(rows: seq<Interval>, lo: Instant, hi: Instant): Instant -> bool {
    t => exists w :: Owns(rows, lo, hi, t, w) && Contested(rows, lo, hi, t, w)
  }

  /** Time the owner spends in `want`. */
  ghost function Time(rows: seq<Interval>, lo: Instant, hi: Instant, want: Interval -> bool): nat {
    Count(lo, hi, Showing(rows, lo, hi, want))
  }

  datatype Summary = Summary(
    seconds: map<State, int>, span: int,
    applications: map<App, int>, categories: map<string, int>,
    overlap: int, devices: set<Device>, lastSeen: Option<Instant>)

  /** A stored user-day; one that awaits its first rebuild has no payload. */
  datatype DayRow = DayRow(payload: Option<Summary>, dirty: bool, updatedAt: Instant)

  function Devices(rows: seq<Interval>): set<Device> { set r | r in rows :: r.device }

  function LastSeen(rows: seq<Interval>): Option<Instant> {
    if rows == [] then None
    else
      var (before, last) := (LastSeen(rows[..|rows| - 1]), rows[|rows| - 1].seen);
      if before.Some? && last <= before.value then before else Some(last)
  }

  /** `v` reports the time of each state, with uncovered time inside the span as UNKNOWN. */
  ghost predicate StateTimes(rows: seq<Interval>, lo: Instant, hi: Instant, v: Summary) {
    && (forall s :: s in v.seconds)
    && (forall s | s in v.seconds ::
          v.seconds[s] == Time(rows, lo, hi, InState(s))
                          + if s == UNKNOWN then Count(lo, hi, Uncovered(rows, lo, hi)) else 0)
  }

  ghost predicate AppTimes(rows: seq<Interval>, lo: Instant, hi: Instant, apps: map<App, int>) {
    && (forall a :: a in apps <==> Time(rows, lo, hi, InApp(a)) > 0)
    && (forall a | a in apps :: apps[a] == Time(rows, lo, hi, InApp(a)))
  }

  ghost predicate CategoryTimes(rows: seq<Interval>, lo: Instant, hi: Instant, cats: map<string, int>) {
    && (forall c :: c in cats <==> Time(rows, lo, hi, InCategory(c)) > 0)
    && (forall c | c in cats :: cats[c] == Time(rows, lo, hi, InCategory(c)))
  }

  /** `v` is the summary of `rows` over [lo, hi), read off instant by instant. */
  ghost predicate Summarizes(rows: seq<Interval>, lo: Instant, hi: Instant, v: Summary) {
    && StateTimes(rows, lo, hi, v)
    && v.span == Count(lo, hi, Spanned(rows, lo, hi))
    && AppTimes(rows, lo, hi, v.applications)
    && CategoryTimes(rows, lo, hi, v.categories)
    && v.overlap == Count(lo, hi, Overlapping(rows, lo, hi))
    && v.devices == Devices(rows)
    && v.lastSeen == LastSeen(rows)
  }

  /** The meaning fixes the summary: no two values summarize the same rows. */
  lemma SummaryIsUnique(rows: seq<Interval>, lo: Instant, hi: Instant, v: Summary, v': Summary)
    requires Summarizes(rows, lo, hi, v) && Summarizes(rows, lo, hi, v')
    ensures v == v'
  {
    assert v.seconds == v'.seconds;
    assert v.applications == v'.applications;
    assert v.categories == v'.categories;
  }

  // ---- Segment totals -----------------------------------------------------------------

  function Length(g: Segment): int { g.right - g.left }

  ghost predicate Wanted(rows: seq<Interval>, g: Segment, want: Interval -> bool) {
    g.winner < |rows| && want(rows[g.winner])
  }

  /** The instants inside segments of `segs` that satisfy `keep`. */
  ghost function Inside(segs: seq<Segment>, keep: Segment -> bool): Instant -> bool {
    t => exists k :: 0 <= k < |segs| && InSegment(segs[k], t) && keep(segs[k])
  }

  ghost function KeepWanted(rows: seq<Interval>, want: Interval -> bool): Segment -> bool {
    g => Wanted(rows, g, want)
  }

  ghost function SumKept(segs: seq<Segment>, keep: Segment -> bool): int {
    if segs == [] then 0
    else
      var g := segs[|segs| - 1];
      SumKept(segs[..|segs| - 1], keep) + if keep(g) then Length(g) else 0
  }

  ghost function KeepOverlap(): Segment -> bool { (g: Segment) => g.overlap }
  ghost function KeepAll(): Segment -> bool { (g: Segment) => true }

  ghost predicate Within(segs: seq<Segment>, lo: Instant, hi: Instant) {
    forall k | 0 <= k < |segs| :: lo <= segs[k].left && segs[k].right <= hi
  }

  lemma InsideLast(segs: seq<Segment>, keep: Segment -> bool, t: Instant)
    requires Ordered(segs) && segs != []
    ensures var (n, p) := (|segs| - 1, Inside(segs[..|segs| - 1], keep)(t));
      && Inside(segs, keep)(t) == (p || (keep(segs[n]) && InSegment(segs[n], t)))
      && (segs[n].left <= t ==> !p)
  {
    var n := |segs| - 1;
    var rest := segs[..n];
    if Inside(rest, keep)(t) {
      var k :| 0 <= k < n && InSegment(rest[k], t) && keep(rest[k]);
      assert InSegment(segs[k], t) && segs[k].right <= segs[n].left;
    }
    if Inside(segs, keep)(t) {
      var k :| 0 <= k < |segs| && InSegment(segs[k], t) && keep(segs[k]);
      if k < n { assert InSegment(rest[k], t); }
    }
  }

  /** Summed lengths of ordered segments count the instants inside them. */
  lemma {:induction false} SumIsCount(segs: seq<Segment>, lo: Instant, hi: Instant, keep: Segment -> bool)
    requires Ordered(segs) && Within(segs, lo, hi)
    ensures SumKept(segs, keep) == Count(lo, hi, Inside(segs, keep))
  {
    if segs == [] {
      CountNone(lo, hi, Inside(segs, keep));
    } else {
      var n := |segs| - 1;
      var g, rest := segs[n], segs[..n];
      SumIsCount(rest, lo, hi, keep);
      var p, q := Inside(rest, keep), Inside(segs, keep);
      forall t | lo <= t < hi
        ensures q(t) == (p(t) || (keep(g) && g.left <= t < g.right))
        ensures g.left <= t ==> !p(t)
      {
        InsideLast(segs, keep, t);
      }
      if keep(g) {
        CountAppend(lo, hi, g.left, g.right, p, q);
      } else {
        CountSame(lo, hi, p, q);
      }
    }
  }

  lemma BeatsOneWay(rows: seq<Interval>, i: int, j: int)
    requires 0 <= i < |rows| && 0 <= j < |rows| && Beats(rows, i, j)
    ensures !Beats(rows, j, i)
  {
  }

  lemma OwnerUnique(rows: seq<Interval>, lo: Instant, hi: Instant, t: Instant, v: int, w: int)
    requires Owns(rows, lo, hi, t, v) && Owns(rows, lo, hi, t, w)
    ensures v == w
  {
    if v != w { BeatsOneWay(rows, v, w); }
  }

  lemma RefinedWithin(rows: seq<Interval>, lo: Instant, hi: Instant, segs: seq<Segment>)
    requires Refines(rows, lo, hi, segs)
    ensures Within(segs, lo, hi)
  {
    forall k | 0 <= k < |segs|
      ensures lo <= segs[k].left && segs[k].right <= hi
    {
      var g := segs[k];
      assert Owned(rows, lo, hi, g);
      assert InSegment(g, g.left) && InSegment(g, g.right - 1);
    }
  }

  /** The segment that holds an owned instant belongs to its owner. */
  lemma OwnerSegment(rows: seq<Interval>, lo: Instant, hi: Instant, segs: seq<Segment>, t: Instant) returns (k: nat)
    requires Refines(rows, lo, hi, segs) && Covered(rows, lo, hi, t)
    ensures k < |segs| && InSegment(segs[k], t) && Owns(rows, lo, hi, t, segs[k].winner)
    ensures segs[k].overlap <==> Contested(rows, lo, hi, t, segs[k].winner)
  {
    assert InSome(segs, t);
    k :| 0 <= k < |segs| && InSegment(segs[k], t);
    assert Owned(rows, lo, hi, segs[k]);
  }

  lemma WantedTime(rows: seq<Interval>, lo: Instant, hi: Instant, segs: seq<Segment>, want: Interval -> bool)
    requires Refines(rows, lo, hi, segs)
    ensures SumKept(segs, KeepWanted(rows, want)) == Time(rows, lo, hi, want)
  {
    var keep := KeepWanted(rows, want);
    RefinedWithin(rows, lo, hi, segs);
    SumIsCount(segs, lo, hi, keep);
    forall t | lo <= t < hi
      ensures Inside(segs, keep)(t) == Showing(rows, lo, hi, want)(t)
    {
      if Inside(segs, keep)(t) {
        var k :| 0 <= k < |segs| && InSegment(segs[k], t) && keep(segs[k]);
        assert Owned(rows, lo, hi, segs[k]);
        assert Owns(rows, lo, hi, t, segs[k].winner);
      }
      if Showing(rows, lo, hi, want)(t) {
        var w :| Owns(rows, lo, hi, t, w) && want(rows[w]);
        var k := OwnerSegment(rows, lo, hi, segs, t);
        OwnerUnique(rows, lo, hi, t, w, segs[k].winner);
      }
    }
    CountSame(lo, hi, Inside(segs, keep), Showing(rows, lo, hi, want));
  }

  lemma OverlapTime(rows: seq<Interval>, lo: Instant, hi: Instant, segs: seq<Segment>)
    requires Refines(rows, lo, hi, segs)
    ensures SumKept(segs, KeepOverlap()) == Count(lo, hi, Overlapping(rows, lo, hi))
  {
    var keep := KeepOverlap();
    RefinedWithin(rows, lo, hi, segs);
    SumIsCount(segs, lo, hi, keep);
    forall t | lo <= t < hi
      ensures Inside(segs, keep)(t) == Overlapping(rows, lo, hi)(t)
    {
      if Inside(segs, keep)(t) {
        var k :| 0 <= k < |segs| && InSegment(segs[k], t) && keep(segs[k]);
        assert Owned(rows, lo, hi, segs[k]);
        assert Owns(rows, lo, hi, t, segs[k].winner);
      }
      if Overlapping(rows, lo, hi)(t) {
        var w :| Owns(rows, lo, hi, t, w) && Contested(rows, lo, hi, t, w);
        var k := OwnerSegment(rows, lo, hi, segs, t);
        OwnerUnique(rows, lo, hi, t, w, segs[k].winner);
      }
    }
    CountSame(lo, hi, Inside(segs, keep), Overlapping(rows, lo, hi));
  }

  lemma CoveredTime(rows: seq<Interval>, lo: Instant, hi: Instant, segs: seq<Segment>)
    requires Refines(rows, lo, hi, segs)
    ensures SumKept(segs, KeepAll()) == Count(lo, hi, CoveredAt(rows, lo, hi))
  {
    var keep := KeepAll();
    RefinedWithin(rows, lo, hi, segs);
    SumIsCount(segs, lo, hi, keep);
    forall t | lo <= t < hi
      ensures Inside(segs, keep)(t) == Covered(rows, lo, hi, t)
    {
      if Inside(segs, keep)(t) {
        var k :| 0 <= k < |segs| && InSegment(segs[k], t) && keep(segs[k]);
        assert Owned(rows, lo, hi, segs[k]);
        assert Owns(rows, lo, hi, t, segs[k].winner);
      }
      if Covered(rows, lo, hi, t) {
        var k := OwnerSegment(rows, lo, hi, segs, t);
      }
    }
    CountSame(lo, hi, Inside(segs, keep), CoveredAt(rows, lo, hi));
  }

  /** The horizon between the first and the last segment is the reported span. */
  lemma HorizonTime(rows: seq<Interval>, lo: Instant, hi: Instant, segs: seq<Segment>)
    requires Refines(rows, lo, hi, segs)
    ensures Count(lo, hi, Spanned(rows, lo, hi))
         == if segs == [] then 0 else segs[|segs| - 1].right - segs[0].left
  {
    var p := Spanned(rows, lo, hi);
    RefinedWithin(rows, lo, hi, segs);
    if segs == [] {
      assert forall u :: Covered(rows, lo, hi, u) ==> InSome(segs, u);
      CountNone(lo, hi, p);
    } else {
      var n := |segs| - 1;
      var (l, r) := (segs[0].left, segs[n].right);
      assert Owned(rows, lo, hi, segs[0]) && InSegment(segs[0], l);
      assert Owned(rows, lo, hi, segs[n]) && InSegment(segs[n], r - 1);
      assert Covered(rows, lo, hi, l) && Covered(rows, lo, hi, r - 1) && l < r;
      forall t | lo <= t < hi ensures p(t) == (l <= t < r) {
        if p(t) {
          var u :| u <= t && Covered(rows, lo, hi, u);
          var v :| t <= v && Covered(rows, lo, hi, v);
          var j := OwnerSegment(rows, lo, hi, segs, u);
          var k := OwnerSegment(rows, lo, hi, segs, v);
          assert j == 0 || segs[0].right <= segs[j].left;
          assert k == n || segs[k].right <= segs[n].left;
        }
      }
      CountSplit(lo, l, hi, p);
      CountSplit(l, r, hi, p);
      CountNone(lo, l, p);
      CountAll(l, r, p);
      CountNone(r, hi, p);
    }
  }

  /** Inside the span, what is not covered is exactly the remainder. */
  lemma RemainderTime(rows: seq<Interval>, lo: Instant, hi: Instant)
    ensures Count(lo, hi, Spanned(rows, lo, hi))
         == Count(lo, hi, CoveredAt(rows, lo, hi)) + Count(lo, hi, Uncovered(rows, lo, hi))
  {
    CountSum(lo, hi, CoveredAt(rows, lo, hi), Uncovered(rows, lo, hi), Spanned(rows, lo, hi));
  }

  // ---- The loop -----------------------------------------------------------------------

  function Plus<K>(m: map<K, int>, k: K, d: int): map<K, int> {
    m[k := (if k in m then m[k] else 0) + d]
  }

  /** `m` totals the segments of each key, and lists only keys that occur. */
  ghost predicate Totals<K(!new)>(rows: seq<Interval>, segs: seq<Segment>, want: K -> Interval -> bool, m: map<K, int>) {
    && (forall k | k in m :: m[k] > 0 && m[k] == SumKept(segs, KeepWanted(rows, want(k))))
    && (forall k | k !in m :: SumKept(segs, KeepWanted(rows, want(k))) == 0)
  }

  lemma TotalsStep<K(!new)>(rows: seq<Interval>, segs: seq<Segment>, g: Segment, want: K -> Interval -> bool,
                            m: map<K, int>, only: Option<K>)
    requires g.left < g.right && g.winner < |rows| && Totals(rows, segs, want, m)
    requires forall k :: want(k)(rows[g.winner]) <==> only == Some(k)
    ensures Totals(rows, segs + [g], want, if only.Some? then Plus(m, only.value, Length(g)) else m)
  {
    var segs' := segs + [g];
    assert segs'[..|segs' | - 1] == segs;
    forall k
      ensures SumKept(segs', KeepWanted(rows, want(k)))
           == SumKept(segs, KeepWanted(rows, want(k))) + if only == Some(k) then Length(g) else 0
    {
    }
  }

  function SumStates(m: map<State, int>): int
    requires forall s :: s in m
  {
    m[ACTIVE] + m[IDLE] + m[LOCKED] + m[DISCONNECTED] + m[UNKNOWN]
  }

  lemma StatesPartition(rows: seq<Interval>, segs: seq<Segment>)
    requires forall k | 0 <= k < |segs| :: segs[k].winner < |rows|
    ensures SumKept(segs, KeepAll())
         == SumKept(segs, KeepWanted(rows, InState(ACTIVE))) + SumKept(segs, KeepWanted(rows, InState(IDLE)))
          + SumKept(segs, KeepWanted(rows, InState(LOCKED))) + SumKept(segs, KeepWanted(rows, InState(DISCONNECTED)))
          + SumKept(segs, KeepWanted(rows, InState(UNKNOWN)))
  {
    if segs != [] { StatesPartition(rows, segs[..|segs| - 1]); }
  }

  ghost predicate StateSums(rows: seq<Interval>, segs: seq<Segment>, m: map<State, int>) {
    forall s :: s in m && m[s] == SumKept(segs, KeepWanted(rows, InState(s)))
  }

  lemma StateStep(rows: seq<Interval>, segs: seq<Segment>, g: Segment, m: map<State, int>)
    requires g.winner < |rows| && StateSums(rows, segs, m)
    ensures var s := rows[g.winner].reading.state; StateSums(rows, segs + [g], m[s := m[s] + Length(g)])
  {
    assert (segs + [g])[..|segs|] == segs;
  }

  lemma OverlapStep(segs: seq<Segment>, g: Segment)
    ensures SumKept(segs + [g], KeepOverlap()) == SumKept(segs, KeepOverlap()) + if g.overlap then Length(g) else 0
  {
    assert (segs + [g])[..|segs|] == segs;
  }

  lemma NothingSummed(rows: seq<Interval>, m: map<State, int>)
    requires m == map[ACTIVE := 0, IDLE := 0, LOCKED := 0, DISCONNECTED := 0, UNKNOWN := 0]
    ensures StateSums(rows, [], m)
  {
    forall s: State ensures s in m && m[s] == 0 {
      match s case ACTIVE => case IDLE => case LOCKED => case DISCONNECTED => case UNKNOWN =>
    }
  }

  lemma AppStep(rows: seq<Interval>, segs: seq<Segment>, g: Segment, m: map<App, int>)
    requires g.left < g.right && g.winner < |rows| && Totals(rows, segs, InApp, m)
    ensures var r := rows[g.winner];
            Totals(rows, segs + [g], InApp, if r.reading.state == ACTIVE then Plus(m, AppOf(r), Length(g)) else m)
  {
    var r := rows[g.winner];
    TotalsStep(rows, segs, g, InApp, m, if r.reading.state == ACTIVE then Some(AppOf(r)) else None);
  }

  lemma CategoryStep(rows: seq<Interval>, segs: seq<Segment>, g: Segment, m: map<string, int>)
    requires g.left < g.right && g.winner < |rows| && Totals(rows, segs, InCategory, m)
    ensures var r := rows[g.winner];
            Totals(rows, segs + [g], InCategory,
                   if r.reading.state == ACTIVE then Plus(m, AppOf(r).category, Length(g)) else m)
  {
    var r := rows[g.winner];
    TotalsStep(rows, segs, g, InCategory, m, if r.reading.state == ACTIVE then Some(AppOf(r).category) else None);
  }

  /** The running totals after the first segments `segs`. */
  ghost predicate Accumulated(rows: seq<Interval>, segs: seq<Segment>, seconds: map<State, int>,
                              apps: map<App, int>, categories: map<string, int>, overlap: int) {
    && StateSums(rows, segs, seconds)
    && Totals(rows, segs, InApp, apps) && Totals(rows, segs, InCategory, categories)
    && overlap == SumKept(segs, KeepOverlap())
  }

  lemma AccumulateStep(rows: seq<Interval>, segs: seq<Segment>, g: Segment, seconds: map<State, int>,
                       apps: map<App, int>, categories: map<string, int>, overlap: int)
    requires g.left < g.right && g.winner < |rows| && Accumulated(rows, segs, seconds, apps, categories, overlap)
    ensures var (r, d) := (rows[g.winner], Length(g));
      var s := r.reading.state;
      Accumulated(rows, segs + [g], seconds[s := seconds[s] + d],
                  if s == ACTIVE then Plus(apps, AppOf(r), d) else apps,
                  if s == ACTIVE then Plus(categories, AppOf(r).category, d) else categories,
                  if g.overlap then overlap + d else overlap)
  {
    StateStep(rows, segs, g, seconds);
    OverlapStep(segs, g);
    AppStep(rows, segs, g, apps);
    CategoryStep(rows, segs, g, categories);
  }

  ghost predicate WinnersExist(rows: seq<Interval>, segs: seq<Segment>) {
    forall k | 0 <= k < |segs| :: segs[k].left < segs[k].right && segs[k].winner < |rows|
  }

  /** Accumulate the segments of one window. */
  method Accumulate(rows: seq<Interval>, segs: seq<Segment>)
    returns (seconds: map<State, int>, apps: map<App, int>, categories: map<string, int>, overlap: int)
    requires WinnersExist(rows, segs)
    ensures Accumulated(rows, segs, seconds, apps, categories, overlap)
  {
    seconds := map[ACTIVE := 0, IDLE := 0, LOCKED := 0, DISCONNECTED := 0, UNKNOWN := 0];
    apps, categories, overlap := map[], map[], 0;
    NothingSummed(rows, seconds);
    assert segs[..0] == [];
    for n := 0 to |segs|
      invariant Accumulated(rows, segs[..n], seconds, apps, categories, overlap)
    {
      var g := segs[n];
      var r := rows[g.winner];
      var (duration, state) := (g.right - g.left, r.reading.state);
      AccumulateStep(rows, segs[..n], g, seconds, apps, categories, overlap);
      assert segs[..n] + [g] == segs[..n + 1];
      seconds := seconds[state := seconds[state] + duration];
      if g.overlap {
        overlap := overlap + duration;
      }
      if state == ACTIVE {
        var app := AppOf(r);
        apps := Plus(apps, app, duration);
        categories := Plus(categories, app.category, duration);
      }
    }
    assert segs[..|segs|] == segs;
  }

  lemma OwnersExist(rows: seq<Interval>, lo: Instant, hi: Instant, segs: seq<Segment>)
    requires Refines(rows, lo, hi, segs)
    ensures WinnersExist(rows, segs)
  {
    forall k | 0 <= k < |segs| ensures segs[k].winner < |rows| {
      assert Owned(rows, lo, hi, segs[k]) && InSegment(segs[k], segs[k].left);
    }
  }

  /** Summarize one user-day: the loop's answer is the instant-by-instant meaning. */
  method Summarize(rows: seq<Interval>, lo: Instant, hi: Instant) returns (v: Summary)
    ensures Summarizes(rows, lo, hi, v)
  {
    var segs := MergedSegments(rows, lo, hi);
    OwnersExist(rows, lo, hi, segs);
    var seconds, apps, categories, overlap := Accumulate(rows, segs);
    var horizon := if segs == [] then 0 else segs[|segs| - 1].right - segs[0].left;
    var rest := horizon - SumStates(seconds);
    ghost var summed := seconds;
    seconds := seconds[UNKNOWN := seconds[UNKNOWN] + if rest > 0 then rest else 0];
    v := Summary(seconds, horizon, apps, categories, overlap, Devices(rows), LastSeen(rows));
    StatesPartition(rows, segs);
    CoveredTime(rows, lo, hi, segs);
    HorizonTime(rows, lo, hi, segs);
    RemainderTime(rows, lo, hi);
    OverlapTime(rows, lo, hi, segs);
    forall s: State ensures summed[s] == Time(rows, lo, hi, InState(s)) {
      WantedTime(rows, lo, hi, segs, InState(s));
    }
    forall a: App ensures SumKept(segs, KeepWanted(rows, InApp(a))) == Time(rows, lo, hi, InApp(a)) {
      WantedTime(rows, lo, hi, segs, InApp(a));
    }
    forall c: string ensures SumKept(segs, KeepWanted(rows, InCategory(c))) == Time(rows, lo, hi, InCategory(c)) {
      WantedTime(rows, lo, hi, segs, InCategory(c));
    }
  }
}
