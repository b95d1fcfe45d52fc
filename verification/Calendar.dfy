/** Report calendars.  Instants are whole microseconds of UTC; a zone is known only by
    where each of its calendar days begins and by which day holds an instant. */
module Calendar {

  type Instant = int

  function Seconds(n: int): int { n * 1_000_000 }
  function Days(n: int): int { n * 86_400_000_000 }

  /** `start(d)` is the instant local day `d` begins; `date(t)` is the local day of `t`. */
  datatype Zone = Zone(start: int -> Instant, date: Instant -> int)

  ghost predicate StartsEarlier(z: Zone, a: int, b: int) { a < b ==> z.start(a) < z.start(b) }
  ghost predicate DatedWithin(z: Zone, t: Instant) { z.start(z.date(t)) <= t < z.start(z.date(t) + 1) }

  ghost predicate ValidZone(z: Zone) {
    (forall a, b :: StartsEarlier(z, a, b)) && (forall t :: DatedWithin(z, t))
  }

  /** The server-side settings the interval store reads. */
  datatype Policy = Policy(zones: seq<Zone>, detailDays: nat, aggregateDays: nat, maxGap: int)

  ghost predicate ValidPolicy(p: Policy) {
    && |p.zones| > 0
    && (forall i | 0 <= i < |p.zones| :: ValidZone(p.zones[i]))
    && 1 <= p.detailDays <= 90
    && p.detailDays <= p.aggregateDays <= 365
    && Seconds(15) <= p.maxGap <= Seconds(60)
  }

  /** `start` never decreases. */
  lemma StartMonotone(z: Zone, a: int, b: int)
    requires ValidZone(z) && a <= b
    ensures z.start(a) <= z.start(b) && (a < b ==> z.start(a) < z.start(b))
  {
    assert StartsEarlier(z, a, b);
  }

  /** `date` inverts `start`: the only day whose half-open span holds `t` is `date(t)`. */
  lemma DateIsInverse(z: Zone, t: Instant, d: int)
    requires ValidZone(z)
    ensures z.start(d) <= t < z.start(d + 1) <==> z.date(t) == d
  {
    StartedByDate(z, d, t);
    StartedByDate(z, d + 1, t);
  }

  lemma DateMonotone(z: Zone, s: Instant, t: Instant)
    requires ValidZone(z) && s <= t
    ensures z.date(s) <= z.date(t)
  {
    StartedByDate(z, z.date(s), s);
    StartedByDate(z, z.date(s), t);
  }

  /** A day has begun by `t` exactly when it is no later than the day of `t`. */
  lemma StartedByDate(z: Zone, d: int, t: Instant)
    requires ValidZone(z)
    ensures z.start(d) <= t <==> d <= z.date(t)
  {
    var e := z.date(t);
    BeforeDayEnd(z, t);
    if d <= e {
      StartMonotone(z, d, e);
    } else {
      StartMonotone(z, e + 1, d);
    }
  }

  /** Same local date in every supported zone. */
  predicate SameDays(p: Policy, s: Instant, t: Instant) {
    forall i | 0 <= i < |p.zones| :: p.zones[i].date(s) == p.zones[i].date(t)
  }

  /** The earliest next midnight after `t` over the first `n` zones. */
  function NextMidnight(p: Policy, t: Instant, n: nat): (b: Instant)
    requires 0 < n <= |p.zones|
  {
    var own := DayEnd(p, t, n - 1);
    if n == 1 then own
    else
      var rest := NextMidnight(p, t, n - 1);
      if own < rest then own else rest
  }

  /** The next report-calendar boundary: midnight in whichever supported zone comes first. */
  function Boundary(p: Policy, t: Instant): Instant
    requires |p.zones| > 0
  {
    NextMidnight(p, t, |p.zones|)
  }

  /** The midnight that ends the day of `t` in zone `i`. */
  function DayEnd(p: Policy, t: Instant, i: nat): Instant
    requires i < |p.zones|
  {
    p.zones[i].start(p.zones[i].date(t) + 1)
  }

  lemma {:induction false} NextMidnightIsLeast(p: Policy, t: Instant, n: nat) returns (k: nat)
    requires 0 < n <= |p.zones|
    ensures forall i | 0 <= i < n :: NextMidnight(p, t, n) <= DayEnd(p, t, i)
    ensures k < n && NextMidnight(p, t, n) == DayEnd(p, t, k)
  {
    k := n - 1;
    if n > 1 {
      var r := NextMidnightIsLeast(p, t, n - 1);
      if DayEnd(p, t, r) <= DayEnd(p, t, n - 1) { k := r; }
    }
  }

  lemma BeforeDayEnd(z: Zone, t: Instant)
    requires ValidZone(z)
    ensures z.start(z.date(t)) <= t < z.start(z.date(t) + 1)
  {
    assert DatedWithin(z, t);
  }

  /** The next boundary lies strictly ahead, so a span cut there makes progress. */
  lemma BoundaryAhead(p: Policy, t: Instant)
    requires ValidPolicy(p)
    ensures t < Boundary(p, t)
  {
    var k := NextMidnightIsLeast(p, t, |p.zones|);
    BeforeDayEnd(p.zones[k], t);
  }

  lemma SameDayUntilMidnight(z: Zone, s: Instant, t: Instant)
    requires ValidZone(z) && s <= t
    ensures z.date(s) == z.date(t) <==> t < z.start(z.date(s) + 1)
  {
    BeforeDayEnd(z, s);
    DateIsInverse(z, t, z.date(s));
  }

  lemma SameDaysByEnds(p: Policy, s: Instant, t: Instant)
    requires |p.zones| > 0
    requires forall i | 0 <= i < |p.zones| :: p.zones[i].date(s) == p.zones[i].date(t) <==> t < DayEnd(p, s, i)
    ensures SameDays(p, s, t) <==> t < Boundary(p, s)
  {
    var k := NextMidnightIsLeast(p, s, |p.zones|);
  }

  /** Two instants share every local date exactly when no boundary separates them. */
  lemma SameDaysUntilBoundary(p: Policy, s: Instant, t: Instant)
    requires ValidPolicy(p) && s <= t
    ensures SameDays(p, s, t) <==> t < Boundary(p, s)
  {
    forall i | 0 <= i < |p.zones|
      ensures p.zones[i].date(s) == p.zones[i].date(t) <==> t < DayEnd(p, s, i)
    {
      SameDayUntilMidnight(p.zones[i], s, t);
    }
    SameDaysByEnds(p, s, t);
  }
}
