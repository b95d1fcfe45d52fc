/** Reading the rollups back: combining stored days, and the gap-filled day timeline. */
module Reports {
  import opened Calendar
  import opened Activity
  import opened Sweep
  import opened Summaries
  import opened Conservation

  // ---- Combining days -----------------------------------------------------------------

  function At<K>(m: map<K, int>, k: K): int { if k in m then m[k] else 0 }

  /** Key-wise sum of two tables. */
  function Merge<K>(m: map<K, int>, n: map<K, int>): map<K, int> {
    map k | k in m.Keys + n.Keys :: At(m, k) + At(n, k)
  }

  method AddTable<K(==)>(m: map<K, int>, n: map<K, int>) returns (r: map<K, int>)
    ensures r == Merge(m, n)
  {
    r := m;
    var rest := n.Keys;
    while rest != {}
      invariant rest <= n.Keys
      invariant r.Keys == m.Keys + (n.Keys - rest)
      invariant forall k | k in r :: r[k] == At(m, k) + if k in n && k !in rest then n[k] else 0
    {
      ghost var some := SomeMember(rest);
      var k :| k in rest;
      r := Plus(r, k, n[k]);
      rest := rest - {k};
    }
  }

  lemma {:induction false} SumWithout<K(!new)>(m: map<K, int>, k: K)
    requires k in m
    ensures SumValues(m) == m[k] + SumValues(m - {k})
    decreases m.Keys
  {
    var j := SomeKey(m);
    if j != k {
      var less := m - {j};
      SumWithout(less, k);
      SumWithout(m - {k}, j);
      assert less - {k} == (m - {k}) - {j};
    }
  }

  lemma SumPlus<K(!new)>(m: map<K, int>, k: K, d: int)
    ensures SumValues(Plus(m, k, d)) == SumValues(m) + d
  {
    var p := Plus(m, k, d);
    SumWithout(p, k);
    assert p - {k} == m - {k};
    if k in m {
      SumWithout(m, k);
    } else {
      assert m - {k} == m;
    }
  }

  lemma {:induction false} SumMerge<K(!new)>(m: map<K, int>, n: map<K, int>)
    ensures SumValues(Merge(m, n)) == SumValues(m) + SumValues(n)
    decreases n.Keys
  {
    if n == map[] {
      assert Merge(m, n) == m;
    } else {
      var k := SomeKey(n);
      var less := n - {k};
      SumMerge(m, less);
      SumPlus(Merge(m, less), k, n[k]);
      assert Merge(m, n) == Plus(Merge(m, less), k, n[k]);
    }
  }

  datatype Combined = Combined(
    seconds: map<State, int>, span: int, applications: map<App, int>, categories: map<string, int>,
    overlap: int, pending: bool, updatedAt: Option<Instant>)

  const NO_SECONDS: map<State, int> := map[ACTIVE := 0, IDLE := 0, LOCKED := 0, DISCONNECTED := 0, UNKNOWN := 0]

  function Earliest(a: Option<Instant>, t: Instant): Option<Instant> {
    if a.Some? && a.value <= t then a else Some(t)
  }

  /** Adding one stored day to a running report. */
  function AddDay(c: Combined, row: DayRow): Combined {
    match row.payload
    case None => c.(pending := c.pending || row.dirty)
    case Some(v) =>
      Combined(Merge(c.seconds, v.seconds), c.span + v.span, Merge(c.applications, v.applications),
               Merge(c.categories, v.categories), c.overlap + v.overlap,
               c.pending || row.dirty, Earliest(c.updatedAt, row.updatedAt))
  }

  function CombineDays(rows: seq<DayRow>): Combined {
    if rows == [] then Combined(NO_SECONDS, 0, map[], map[], 0, false, None)
    else AddDay(CombineDays(rows[..|rows| - 1]), rows[|rows| - 1])
  }

  /** No rows, no report; otherwise one pass over the rows. */
  method CombineDaily(rows: seq<DayRow>) returns (r: Option<Combined>)
    ensures r == if rows == [] then None else Some(CombineDays(rows))
  {
    if rows == [] { return None; }
    var seconds, span, apps, categories, overlap := NO_SECONDS, 0, map[], map[], 0;
    var pending, updatedAt := false, None;
    for i := 0 to |rows|
      invariant CombineDays(rows[..i]) == Combined(seconds, span, apps, categories, overlap, pending, updatedAt)
    {
      var row := rows[i];
      assert rows[..i + 1][..i] == rows[..i];
      pending := pending || row.dirty;
      if row.payload.Some? {
        var v := row.payload.value;
        seconds := AddTable(seconds, v.seconds);
        span, overlap := span + v.span, overlap + v.overlap;
        apps := AddTable(apps, v.applications);
        categories := AddTable(categories, v.categories);
        updatedAt := Earliest(updatedAt, row.updatedAt);
      }
    }
    assert rows[..|rows|] == rows;
    r := Some(Combined(seconds, span, apps, categories, overlap, pending, updatedAt));
  }

  /** Some figure summed over all published days. */
  ghost function SumDays(rows: seq<DayRow>, figure: Summary -> int): int {
    if rows == [] then 0
    else
      var last := rows[|rows| - 1];
      SumDays(rows[..|rows| - 1], figure) + if last.payload.Some? then figure(last.payload.value) else 0
  }

  ghost predicate SomeDayHas(rows: seq<DayRow>, has: Summary -> bool) {
    exists i :: 0 <= i < |rows| && rows[i].payload.Some? && has(rows[i].payload.value)
  }

  /** Span, overlap and the seconds of each state are sums over the days. */
  lemma {:induction false} ReportSumsDays(rows: seq<DayRow>, s: State)
    ensures CombineDays(rows).span == SumDays(rows, (v: Summary) => v.span)
    ensures CombineDays(rows).overlap == SumDays(rows, (v: Summary) => v.overlap)
    ensures At(CombineDays(rows).seconds, s) == SumDays(rows, (v: Summary) => At(v.seconds, s))
  {
    if rows != [] {
      ReportSumsDays(rows[..|rows| - 1], s);
    } else {
      assert NO_SECONDS[s] == 0;
    }
  }

  /** So are the seconds of each application and category, listed exactly if some day lists them. */
  lemma {:induction false} ReportSumsApps(rows: seq<DayRow>, a: App, c: string)
    ensures At(CombineDays(rows).applications, a) == SumDays(rows, (v: Summary) => At(v.applications, a))
    ensures At(CombineDays(rows).categories, c) == SumDays(rows, (v: Summary) => At(v.categories, c))
    ensures a in CombineDays(rows).applications <==> SomeDayHas(rows, (v: Summary) => a in v.applications)
    ensures c in CombineDays(rows).categories <==> SomeDayHas(rows, (v: Summary) => c in v.categories)
  {
    if rows != [] {
      var before := rows[..|rows| - 1];
      ReportSumsApps(before, a, c);
      OneMoreDayHas(rows, (v: Summary) => a in v.applications);
      OneMoreDayHas(rows, (v: Summary) => c in v.categories);
    }
  }

  lemma OneMoreDayHas(rows: seq<DayRow>, has: Summary -> bool)
    requires rows != []
    ensures var (before, last) := (rows[..|rows| - 1], rows[|rows| - 1]);
      SomeDayHas(rows, has) <==> SomeDayHas(before, has) || (last.payload.Some? && has(last.payload.value))
  {
    var (before, last) := (rows[..|rows| - 1], rows[|rows| - 1]);
    if SomeDayHas(before, has) {
      var i :| 0 <= i < |before| && before[i].payload.Some? && has(before[i].payload.value);
      assert rows[i] == before[i];
    }
    if last.payload.Some? && has(last.payload.value) { assert rows[|rows| - 1] == last; }
    if SomeDayHas(rows, has) {
      var i :| 0 <= i < |rows| && rows[i].payload.Some? && has(rows[i].payload.value);
      if i < |before| { assert before[i] == rows[i]; }
    }
  }

  /** A report is pending exactly when one of its days is. */
  lemma {:induction false} PendingExactlyIfSomeDay(rows: seq<DayRow>)
    ensures CombineDays(rows).pending <==> exists i :: 0 <= i < |rows| && rows[i].dirty
  {
    if rows != [] { PendingExactlyIfSomeDay(rows[..|rows| - 1]); }
  }

  ghost predicate UpdatedAmong(rows: seq<DayRow>, t: Instant) {
    exists i :: 0 <= i < |rows| && rows[i].payload.Some? && rows[i].updatedAt == t
  }

  /** A report is as old as the oldest of its published days. */
  lemma {:induction false} AsOldAsTheOldestDay(rows: seq<DayRow>)
    ensures var at := CombineDays(rows).updatedAt;
      && (at.None? <==> forall i | 0 <= i < |rows| :: rows[i].payload.None?)
      && (at.Some? ==> UpdatedAmong(rows, at.value)
                       && forall i | 0 <= i < |rows| && rows[i].payload.Some? :: at.value <= rows[i].updatedAt)
  {
    if rows != [] {
      var (before, last) := (rows[..|rows| - 1], rows[|rows| - 1]);
      AsOldAsTheOldestDay(before);
      var (was, at) := (CombineDays(before).updatedAt, CombineDays(rows).updatedAt);
      if at.Some? {
        if last.payload.Some? && at == Some(last.updatedAt) {
          assert rows[|rows| - 1].payload.Some? && rows[|rows| - 1].updatedAt == at.value;
        } else {
          assert was == at && UpdatedAmong(before, at.value);
          var i :| 0 <= i < |before| && before[i].payload.Some? && before[i].updatedAt == at.value;
          assert rows[i] == before[i];
        }
      }
    }
  }

  ghost predicate ReportBalances(c: Combined) {
    && (forall s :: s in c.seconds && c.seconds[s] >= 0)
    && SumStates(c.seconds) == c.span
    && SumValues(c.applications) == c.seconds[ACTIVE]
    && SumValues(c.categories) == c.seconds[ACTIVE]
    && 0 <= c.overlap <= c.span
  }

  /** A report over balanced days balances: no second appears or disappears on the way. */
  lemma {:induction false} ReportConservesTime(rows: seq<DayRow>)
    requires forall i | 0 <= i < |rows| && rows[i].payload.Some? :: Balanced(rows[i].payload.value)
    ensures ReportBalances(CombineDays(rows))
  {
    if rows == [] {
      forall s: State ensures s in NO_SECONDS {
        match s case ACTIVE => case IDLE => case LOCKED => case DISCONNECTED => case UNKNOWN =>
      }
    } else {
      var (before, row) := (rows[..|rows| - 1], rows[|rows| - 1]);
      ReportConservesTime(before);
      if row.payload.Some? {
        var (c, v) := (CombineDays(before), row.payload.value);
        SumMerge(c.applications, v.applications);
        SumMerge(c.categories, v.categories);
      }
    }
  }

  // ---- The day timeline ---------------------------------------------------------------

  /** One line of the timeline: a swept segment, or an explicitly unknown stretch. */
  datatype Piece = Observed(segment: Segment) | Gap(from: Instant, to: Instant)
  {
    function Left(): Instant { if Observed? then segment.left else from }
    function Right(): Instant { if Observed? then segment.right else to }
  }

  /** The pieces follow one another from `lo` to `hi` without hole or overlap. */
  ghost predicate Tiles(ps: seq<Piece>, lo: Instant, hi: Instant) {
    && (forall i | 0 <= i < |ps| :: ps[i].Left() < ps[i].Right())
    && (forall i | 0 < i < |ps| :: ps[i - 1].Right() == ps[i].Left())
    && (if ps == [] then lo == hi else ps[0].Left() == lo && ps[|ps| - 1].Right() == hi)
  }

  /** The segments of a timeline, in order. */
  function SegmentsOf(ps: seq<Piece>): seq<Segment> {
    if ps == [] then []
    else SegmentsOf(ps[..|ps| - 1]) + if ps[|ps| - 1].Observed? then [ps[|ps| - 1].segment] else []
  }

  ghost predicate GapsUncovered(rows: seq<Interval>, lo: Instant, hi: Instant, ps: seq<Piece>) {
    forall i, t | 0 <= i < |ps| && ps[i].Gap? && ps[i].from <= t < ps[i].to :: !Covered(rows, lo, hi, t)
  }

  /** `ps` fills [lo, hi) with the segments `segs` and uncovered gaps. */
  ghost predicate Fills(rows: seq<Interval>, lo: Instant, hi: Instant, ps: seq<Piece>, segs: seq<Segment>, to: Instant) {
    Tiles(ps, lo, to) && SegmentsOf(ps) == segs && GapsUncovered(rows, lo, hi, ps)
  }

  lemma AppendSegment(rows: seq<Interval>, lo: Instant, hi: Instant, ps: seq<Piece>, segs: seq<Segment>, g: Segment)
    requires Fills(rows, lo, hi, ps, segs, g.left) && g.left < g.right
    ensures Fills(rows, lo, hi, ps + [Observed(g)], segs + [g], g.right)
  {
    assert (ps + [Observed(g)])[..|ps|] == ps;
  }

  lemma AppendGap(rows: seq<Interval>, lo: Instant, hi: Instant, ps: seq<Piece>, segs: seq<Segment>, from: Instant, to: Instant)
    requires Fills(rows, lo, hi, ps, segs, from) && from < to
    requires forall t | from <= t < to :: !Covered(rows, lo, hi, t)
    ensures Fills(rows, lo, hi, ps + [Gap(from, to)], segs, to)
  {
    assert (ps + [Gap(from, to)])[..|ps|] == ps;
    assert segs + [] == segs;
  }

  lemma GapIsUncovered(rows: seq<Interval>, lo: Instant, hi: Instant, segs: seq<Segment>, n: int,
                       from: Instant, to: Instant)
    requires Refines(rows, lo, hi, segs) && 0 <= n <= |segs|
    requires n == 0 || segs[n - 1].right <= from
    requires n == |segs| || to <= segs[n].left
    ensures forall t | from <= t < to :: !Covered(rows, lo, hi, t)
  {
    forall k | 0 <= k < |segs|
      ensures k < n ==> segs[k].right <= from
      ensures n <= k ==> to <= segs[k].left
    {
    }
    assert forall t | Covered(rows, lo, hi, t) :: InSome(segs, t);
  }

  lemma SegmentNeedsWindow(segs: seq<Segment>, lo: Instant, hi: Instant)
    requires Ordered(segs) && Within(segs, lo, hi)
    ensures segs != [] ==> lo < hi && segs[|segs| - 1].right <= hi
  {
    if segs != [] { assert segs[0].left < segs[0].right; }
  }

  /** Fill the day up to `hi`: every swept segment appears once, in order, and the rest is
      unknown exactly where nothing was observed. */
  method Timeline(rows: seq<Interval>, lo: Instant, hi: Instant) returns (ps: seq<Piece>)
    ensures if lo <= hi then Tiles(ps, lo, hi) else ps == []
    ensures Refines(rows, lo, hi, SegmentsOf(ps)) && GapsUncovered(rows, lo, hi, ps)
  {
    var segs := MergedSegments(rows, lo, hi);
    RefinedWithin(rows, lo, hi, segs);
    SegmentNeedsWindow(segs, lo, hi);
    ps := [];
    var position := lo;
    assert segs[..0] == [];
    for n := 0 to |segs|
      invariant Fills(rows, lo, hi, ps, segs[..n], position)
      invariant if n == 0 then position == lo && ps == [] else position == segs[n - 1].right
    {
      var g := segs[n];
      assert n > 0 ==> segs[n - 1].right <= g.left;
      if g.left > position {
        GapIsUncovered(rows, lo, hi, segs, n, position, g.left);
        AppendGap(rows, lo, hi, ps, segs[..n], position, g.left);
        ps := ps + [Gap(position, g.left)];
      }
      AppendSegment(rows, lo, hi, ps, segs[..n], g);
      ps := ps + [Observed(g)];
      position := g.right;
      assert segs[..n + 1] == segs[..n] + [g];
    }
    assert segs[..|segs|] == segs;
    if position < hi {
      GapIsUncovered(rows, lo, hi, segs, |segs|, position, hi);
      AppendGap(rows, lo, hi, ps, segs, position, hi);
      ps := ps + [Gap(position, hi)];
    }
  }
}
