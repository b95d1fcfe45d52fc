/** Time is conserved: states, applications and categories add up, cutting a stored interval
    changes nothing, and daily summaries combine without loss. */
module Conservation {
  import opened Calendar
  import opened Activity
  import opened Measure
  import opened Sweep
  import opened Summaries

  // ---- Sums over the values of a map --------------------------------------------------

  ghost function SomeKey<K(!new)>(m: map<K, int>): (k: K)
    requires m != map[]
    ensures k in m
  {
    var k :| k in m; k
  }

  ghost function SumValues<K(!new)>(m: map<K, int>): int {
    if m == map[] then 0
    else
      var k := SomeKey(m);
      m[k] + SumValues(m - {k})
  }

  /** The instants attributed to one of the keys `ks`. */
  ghost function ShowingAny<K(!new)>(rows: seq<Interval>, lo: Instant, hi: Instant,
                                     want: K -> Interval -> bool, ks: set<K>): Instant -> bool {
    t => exists k :: k in ks && OwnerIs(rows, lo, hi, t, want(k))
  }

  /** Each interval answers to at most one key. */
  ghost predicate Exclusive<K(!new)>(want: K -> Interval -> bool) {
    forall j, k, r :: want(j)(r) && want(k)(r) ==> j == k
  }

  lemma OwnerKeyUnique<K(!new)>(rows: seq<Interval>, lo: Instant, hi: Instant, t: Instant,
                                want: K -> Interval -> bool, j: K, k: K)
    requires Exclusive(want)
    requires OwnerIs(rows, lo, hi, t, want(j)) && OwnerIs(rows, lo, hi, t, want(k))
    ensures j == k
  {
    var v :| Owns(rows, lo, hi, t, v) && want(j)(rows[v]);
    var w :| Owns(rows, lo, hi, t, w) && want(k)(rows[w]);
    OwnerUnique(rows, lo, hi, t, v, w);
  }

  /** Instants of the keys `ks` and those of one more key `k` are disjoint. */
  lemma OneMoreKey<K(!new)>(rows: seq<Interval>, lo: Instant, hi: Instant, want: K -> Interval -> bool,
                            ks: set<K>, k: K, t: Instant)
    requires Exclusive(want) && k !in ks
    ensures ShowingAny(rows, lo, hi, want, ks + {k})(t)
         == (Showing(rows, lo, hi, want(k))(t) || ShowingAny(rows, lo, hi, want, ks)(t))
    ensures !(Showing(rows, lo, hi, want(k))(t) && ShowingAny(rows, lo, hi, want, ks)(t))
  {
    if Showing(rows, lo, hi, want(k))(t) {
      forall j | OwnerIs(rows, lo, hi, t, want(j)) ensures j == k {
        OwnerKeyUnique(rows, lo, hi, t, want, j, k);
      }
    }
  }

  lemma OneMoreTime<K(!new)>(rows: seq<Interval>, lo: Instant, hi: Instant, want: K -> Interval -> bool,
                             ks: set<K>, k: K)
    requires Exclusive(want) && k !in ks
    ensures Count(lo, hi, ShowingAny(rows, lo, hi, want, ks + {k}))
         == Time(rows, lo, hi, want(k)) + Count(lo, hi, ShowingAny(rows, lo, hi, want, ks))
  {
    var (one, rest, all) := (Showing(rows, lo, hi, want(k)), ShowingAny(rows, lo, hi, want, ks),
                             ShowingAny(rows, lo, hi, want, ks + {k}));
    forall t | lo <= t < hi
      ensures all(t) == (one(t) || rest(t)) && !(one(t) && rest(t))
    {
      OneMoreKey(rows, lo, hi, want, ks, k, t);
    }
    CountSum(lo, hi, one, rest, all);
  }

  /** A map of per-key times sums to the time of all its keys together. */
  lemma {:induction false} SumOfTimes<K(!new)>(rows: seq<Interval>, lo: Instant, hi: Instant,
                                               want: K -> Interval -> bool, m: map<K, int>)
    requires Exclusive(want)
    requires forall k | k in m :: m[k] == Time(rows, lo, hi, want(k))
    ensures SumValues(m) == Count(lo, hi, ShowingAny(rows, lo, hi, want, m.Keys))
    decreases m.Keys
  {
    if m == map[] {
      CountNone(lo, hi, ShowingAny(rows, lo, hi, want, m.Keys));
    } else {
      var k := SomeKey(m);
      var less := m - {k};
      SumOfTimes(rows, lo, hi, want, less);
      assert m.Keys == less.Keys + {k};
      OneMoreTime(rows, lo, hi, want, less.Keys, k);
    }
  }

  /** `want` sorts exactly the ACTIVE intervals by key. */
  ghost predicate SortsActive<K(!new)>(want: K -> Interval -> bool, key: Interval -> K) {
    forall k, r :: want(k)(r) <==> r.reading.state == ACTIVE && key(r) == k
  }

  lemma ActiveHasKey<K(!new)>(rows: seq<Interval>, lo: Instant, hi: Instant, want: K -> Interval -> bool,
                              key: Interval -> K, ks: set<K>, t: Instant)
    requires SortsActive(want, key) && lo <= t < hi
    requires forall k :: k in ks <==> Time(rows, lo, hi, want(k)) > 0
    ensures ShowingAny(rows, lo, hi, want, ks)(t) == Showing(rows, lo, hi, InState(ACTIVE))(t)
  {
    if Showing(rows, lo, hi, InState(ACTIVE))(t) {
      var w :| Owns(rows, lo, hi, t, w) && InState(ACTIVE)(rows[w]);
      var k := key(rows[w]);
      assert want(k)(rows[w]);
      assert Showing(rows, lo, hi, want(k))(t);
      CountPositive(lo, hi, Showing(rows, lo, hi, want(k)));
      assert k in ks;
    }
    if ShowingAny(rows, lo, hi, want, ks)(t) {
      var k :| k in ks && OwnerIs(rows, lo, hi, t, want(k));
      var w :| Owns(rows, lo, hi, t, w) && want(k)(rows[w]);
      assert InState(ACTIVE)(rows[w]);
    }
  }

  /** Any exact breakdown of ACTIVE time sums to ACTIVE time. */
  lemma BreakdownIsActive<K(!new)>(rows: seq<Interval>, lo: Instant, hi: Instant, want: K -> Interval -> bool,
                                   key: Interval -> K, m: map<K, int>)
    requires SortsActive(want, key)
    requires forall k :: k in m <==> Time(rows, lo, hi, want(k)) > 0
    requires forall k | k in m :: m[k] == Time(rows, lo, hi, want(k))
    ensures SumValues(m) == Time(rows, lo, hi, InState(ACTIVE))
  {
    forall j, k, r | want(j)(r) && want(k)(r) ensures j == k {
      assert key(r) == j && key(r) == k;
    }
    SumOfTimes(rows, lo, hi, want, m);
    forall t | lo <= t < hi
      ensures ShowingAny(rows, lo, hi, want, m.Keys)(t) == Showing(rows, lo, hi, InState(ACTIVE))(t)
    {
      ActiveHasKey(rows, lo, hi, want, key, m.Keys, t);
    }
    CountSame(lo, hi, ShowingAny(rows, lo, hi, want, m.Keys), Showing(rows, lo, hi, InState(ACTIVE)));
  }

  lemma AppsAreActive(rows: seq<Interval>, lo: Instant, hi: Instant, v: Summary)
    requires Summarizes(rows, lo, hi, v)
    ensures SumValues(v.applications) == v.seconds[ACTIVE]
  {
    BreakdownIsActive(rows, lo, hi, InApp, AppOf, v.applications);
  }

  lemma CategoriesAreActive(rows: seq<Interval>, lo: Instant, hi: Instant, v: Summary)
    requires Summarizes(rows, lo, hi, v)
    ensures SumValues(v.categories) == v.seconds[ACTIVE]
  {
    BreakdownIsActive(rows, lo, hi, InCategory, (r: Interval) => AppOf(r).category, v.categories);
  }

  // ---- States fill the span -----------------------------------------------------------

  ghost predicate OwnerAmongFirst(rows: seq<Interval>, lo: Instant, hi: Instant, t: Instant, n: nat, w: int)
    requires n <= |rows|
  {
    && w < n && Covers(rows, lo, hi, w, t)
    && forall i | 0 <= i < n && Covers(rows, lo, hi, i, t) && i != w :: Beats(rows, w, i)
  }

  /** Every covered instant has an owner. */
  lemma {:induction false} OwnerAmong(rows: seq<Interval>, lo: Instant, hi: Instant, t: Instant, n: nat) returns (w: int)
    requires n <= |rows| && exists i :: 0 <= i < n && Covers(rows, lo, hi, i, t)
    ensures OwnerAmongFirst(rows, lo, hi, t, n, w)
    decreases n
  {
    if !Covers(rows, lo, hi, n - 1, t) {
      w := OwnerAmong(rows, lo, hi, t, n - 1);
    } else if exists i :: 0 <= i < n - 1 && Covers(rows, lo, hi, i, t) {
      w := OwnerAmong(rows, lo, hi, t, n - 1);
      if Beats(rows, n - 1, w) { w := n - 1; }
    } else {
      w := n - 1;
    }
  }

  lemma OwnerExists(rows: seq<Interval>, lo: Instant, hi: Instant, t: Instant) returns (w: int)
    requires Covered(rows, lo, hi, t)
    ensures Owns(rows, lo, hi, t, w)
  {
    w := OwnerAmong(rows, lo, hi, t, |rows|);
  }

  ghost function ShowingBelow(rows: seq<Interval>, lo: Instant, hi: Instant, n: nat): Instant -> bool {
    t => exists w :: Owns(rows, lo, hi, t, w) && Priority(rows[w].reading.state) < n
  }

  lemma NextState(rows: seq<Interval>, lo: Instant, hi: Instant, s: State)
    ensures Count(lo, hi, ShowingBelow(rows, lo, hi, Priority(s) + 1))
         == Count(lo, hi, ShowingBelow(rows, lo, hi, Priority(s))) + Time(rows, lo, hi, InState(s))
  {
    var n := Priority(s);
    forall t | lo <= t < hi
      ensures ShowingBelow(rows, lo, hi, n + 1)(t)
           == (ShowingBelow(rows, lo, hi, n)(t) || Showing(rows, lo, hi, InState(s))(t))
      ensures !(ShowingBelow(rows, lo, hi, n)(t) && Showing(rows, lo, hi, InState(s))(t))
    {
      if ShowingBelow(rows, lo, hi, n + 1)(t) {
        var w :| Owns(rows, lo, hi, t, w) && Priority(rows[w].reading.state) < n + 1;
        assert Priority(rows[w].reading.state) == n ==> InState(s)(rows[w]);
        forall v | Owns(rows, lo, hi, t, v) ensures v == w { OwnerUnique(rows, lo, hi, t, v, w); }
      }
      if Showing(rows, lo, hi, InState(s))(t) {
        var w :| Owns(rows, lo, hi, t, w) && InState(s)(rows[w]);
        assert Priority(rows[w].reading.state) == n;
      }
    }
    CountSum(lo, hi, ShowingBelow(rows, lo, hi, n), Showing(rows, lo, hi, InState(s)), ShowingBelow(rows, lo, hi, n + 1));
  }

  lemma EveryOwnerHasAState(rows: seq<Interval>, lo: Instant, hi: Instant)
    ensures Count(lo, hi, ShowingBelow(rows, lo, hi, 5)) == Count(lo, hi, CoveredAt(rows, lo, hi))
  {
    forall t | lo <= t < hi
      ensures ShowingBelow(rows, lo, hi, 5)(t) == CoveredAt(rows, lo, hi)(t)
    {
      if Covered(rows, lo, hi, t) {
        var w := OwnerExists(rows, lo, hi, t);
        assert Priority(rows[w].reading.state) < 5;
      }
    }
    CountSame(lo, hi, ShowingBelow(rows, lo, hi, 5), CoveredAt(rows, lo, hi));
  }

  lemma StatesFillCover(rows: seq<Interval>, lo: Instant, hi: Instant)
    ensures Time(rows, lo, hi, InState(ACTIVE)) + Time(rows, lo, hi, InState(IDLE))
          + Time(rows, lo, hi, InState(LOCKED)) + Time(rows, lo, hi, InState(DISCONNECTED))
          + Time(rows, lo, hi, InState(UNKNOWN)) == Count(lo, hi, CoveredAt(rows, lo, hi))
  {
    CountNone(lo, hi, ShowingBelow(rows, lo, hi, 0));
    NextState(rows, lo, hi, ACTIVE);
    NextState(rows, lo, hi, IDLE);
    NextState(rows, lo, hi, LOCKED);
    NextState(rows, lo, hi, DISCONNECTED);
    NextState(rows, lo, hi, UNKNOWN);
    EveryOwnerHasAState(rows, lo, hi);
  }

  /** The state seconds of a summary add up to the observed span exactly. */
  lemma StatesFillSpan(rows: seq<Interval>, lo: Instant, hi: Instant, v: Summary)
    requires Summarizes(rows, lo, hi, v)
    ensures SumStates(v.seconds) == v.span
  {
    StatesFillCover(rows, lo, hi);
    RemainderTime(rows, lo, hi);
  }

  lemma OverlapWithinSpan(rows: seq<Interval>, lo: Instant, hi: Instant, v: Summary)
    requires Summarizes(rows, lo, hi, v)
    ensures 0 <= v.overlap <= v.span && 0 <= v.seconds[UNKNOWN] <= v.span
  {
    forall t | Overlapping(rows, lo, hi)(t) ensures Spanned(rows, lo, hi)(t) {
      var w :| Owns(rows, lo, hi, t, w);
      assert Covers(rows, lo, hi, w, t) && Covered(rows, lo, hi, t);
    }
    CountAtMost(lo, hi, Overlapping(rows, lo, hi), Spanned(rows, lo, hi));
    StatesFillSpan(rows, lo, hi, v);
  }

  /** Everything a summary must balance. */
  ghost predicate Balanced(v: Summary)
  {
    && (forall s :: s in v.seconds && v.seconds[s] >= 0)
    && SumStates(v.seconds) == v.span
    && SumValues(v.applications) == v.seconds[ACTIVE]
    && SumValues(v.categories) == v.seconds[ACTIVE]
    && 0 <= v.overlap <= v.span
  }

  /** The covered part of a span. */
  function Coverage(span: int, unknown: int): Option<real> {
    if span == 0 then None else Some((span - unknown) as real / span as real)
  }

  /** Coverage is the share of the span spent in a known state: absent exactly for an empty span,
      between none and all of it, and all of it exactly when nothing is unknown. */
  lemma CoverageIsShare(seconds: map<State, int>, span: int)
    requires forall s :: s in seconds && seconds[s] >= 0
    requires SumStates(seconds) == span
    ensures var c := Coverage(span, seconds[UNKNOWN]);
      && (c.None? <==> span == 0)
      && (c.Some? ==> (
            && 0.0 <= c.value <= 1.0 && (c.value == 1.0 <==> seconds[UNKNOWN] == 0)
            && c.value * span as real == (seconds[ACTIVE] + seconds[IDLE] + seconds[LOCKED] + seconds[DISCONNECTED]) as real))
  {
    if span != 0 {
      var (x, y) := ((span - seconds[UNKNOWN]) as real, span as real);
      assert 0.0 <= x <= y && y > 0.0;
      ShareBounds(x, y);
    }
  }

  lemma ShareBounds(x: real, y: real)
    requires 0.0 <= x <= y && y > 0.0
    ensures 0.0 <= x / y <= 1.0 && x / y * y == x && (x / y == 1.0 <==> x == y)
  {
  }

  /** Every summary balances. */
  lemma SummaryBalances(rows: seq<Interval>, lo: Instant, hi: Instant, v: Summary)
    requires Summarizes(rows, lo, hi, v)
    ensures Balanced(v)
  {
    StatesFillSpan(rows, lo, hi, v);
    AppsAreActive(rows, lo, hi, v);
    CategoriesAreActive(rows, lo, hi, v);
    OverlapWithinSpan(rows, lo, hi, v);
  }

  // ---- Only who shows what, when, matters ---------------------------------------------

  /** One device never has two intervals over the same instant. */
  ghost predicate DevicesDisjoint(rows: seq<Interval>) {
    forall i, j | 0 <= i < |rows| && 0 <= j < |rows| && i != j && rows[i].device == rows[j].device ::
      rows[i].ended <= rows[j].started || rows[j].ended <= rows[i].started
  }

  datatype Shown = Shown(device: Device, reading: Reading)

  function ShownBy(r: Interval): Shown { Shown(r.device, r.reading) }

  /** What the rows show at instant `t`: each covering device with its reading. */
  function Shows(rows: seq<Interval>, lo: Instant, hi: Instant, t: Instant): set<Shown> {
    set i | 0 <= i < |rows| && Covers(rows, lo, hi, i, t) :: ShownBy(rows[i])
  }

  /** The two row lists show the same devices with the same readings at every instant. */
  ghost predicate SameShowing(rows: seq<Interval>, rows': seq<Interval>, lo: Instant, hi: Instant) {
    forall t :: Shows(rows, lo, hi, t) == Shows(rows', lo, hi, t)
  }

  /** Row `j` of `rows'` covers `t` with the same device and reading as row `i` of `rows`. */
  ghost predicate Echoes(rows: seq<Interval>, i: int, rows': seq<Interval>, j: int, lo: Instant, hi: Instant, t: Instant) {
    Covers(rows, lo, hi, i, t) && Covers(rows', lo, hi, j, t) && ShownBy(rows[i]) == ShownBy(rows'[j])
  }

  lemma Echo(rows: seq<Interval>, rows': seq<Interval>, lo: Instant, hi: Instant, t: Instant, i: int) returns (j: int)
    requires Covers(rows, lo, hi, i, t) && Shows(rows, lo, hi, t) == Shows(rows', lo, hi, t)
    ensures Echoes(rows, i, rows', j, lo, hi, t)
  {
    assert ShownBy(rows[i]) in Shows(rows', lo, hi, t);
    j :| 0 <= j < |rows'| && Covers(rows', lo, hi, j, t) && ShownBy(rows'[j]) == ShownBy(rows[i]);
  }

  lemma OneRowPerDevice(rows: seq<Interval>, lo: Instant, hi: Instant, i: int, j: int, t: Instant)
    requires DevicesDisjoint(rows) && Covers(rows, lo, hi, i, t) && Covers(rows, lo, hi, j, t) && i != j
    ensures rows[i].device != rows[j].device
  {
  }

  lemma EchoBeats(rows: seq<Interval>, rows': seq<Interval>, lo: Instant, hi: Instant, t: Instant,
                  w: int, w': int, i: int, j: int)
    requires Echoes(rows, w, rows', w', lo, hi, t) && Echoes(rows', j, rows, i, lo, hi, t)
    requires rows'[j].device != rows'[w'].device
    requires Owns(rows, lo, hi, t, w)
    ensures Beats(rows', w', j)
  {
  }

  /** Owners correspond: with disjoint devices the position in the list never decides. */
  lemma OwnerEchoed(rows: seq<Interval>, rows': seq<Interval>, lo: Instant, hi: Instant, t: Instant, w: int)
    returns (w': int)
    requires DevicesDisjoint(rows')
    requires Shows(rows, lo, hi, t) == Shows(rows', lo, hi, t)
    requires Owns(rows, lo, hi, t, w)
    ensures Owns(rows', lo, hi, t, w') && Echoes(rows, w, rows', w', lo, hi, t)
  {
    w' := Echo(rows, rows', lo, hi, t, w);
    forall j | Covers(rows', lo, hi, j, t) && j != w'
      ensures Beats(rows', w', j)
    {
      var i := Echo(rows', rows, lo, hi, t, j);
      OneRowPerDevice(rows', lo, hi, w', j, t);
      EchoBeats(rows, rows', lo, hi, t, w, w', i, j);
    }
  }

  lemma ContestEchoed(rows: seq<Interval>, rows': seq<Interval>, lo: Instant, hi: Instant, t: Instant, w: int, w': int)
    requires DevicesDisjoint(rows) && Shows(rows, lo, hi, t) == Shows(rows', lo, hi, t)
    requires Echoes(rows, w, rows', w', lo, hi, t) && Contested(rows, lo, hi, t, w)
    ensures Contested(rows', lo, hi, t, w')
  {
    var i :| Covers(rows, lo, hi, i, t) && i != w;
    var j := Echo(rows, rows', lo, hi, t, i);
    OneRowPerDevice(rows, lo, hi, i, w, t);
  }

  /** `want` looks only at the reading. */
  ghost predicate ByReading(want: Interval -> bool) {
    forall r: Interval, r': Interval :: r.reading == r'.reading ==> want(r) == want(r')
  }

  lemma ShowingEchoed(rows: seq<Interval>, rows': seq<Interval>, lo: Instant, hi: Instant, want: Interval -> bool, t: Instant)
    requires DevicesDisjoint(rows') && SameShowing(rows, rows', lo, hi) && ByReading(want)
    ensures Showing(rows, lo, hi, want)(t) ==> Showing(rows', lo, hi, want)(t)
  {
    if OwnerIs(rows, lo, hi, t, want) {
      var w :| Owns(rows, lo, hi, t, w) && want(rows[w]);
      var w' := OwnerEchoed(rows, rows', lo, hi, t, w);
      assert want(rows'[w']);
    }
  }

  lemma SameTime(rows: seq<Interval>, rows': seq<Interval>, lo: Instant, hi: Instant, want: Interval -> bool)
    requires DevicesDisjoint(rows) && DevicesDisjoint(rows')
    requires SameShowing(rows, rows', lo, hi) && ByReading(want)
    ensures Time(rows, lo, hi, want) == Time(rows', lo, hi, want)
  {
    forall t | lo <= t < hi
      ensures Showing(rows, lo, hi, want)(t) == Showing(rows', lo, hi, want)(t)
    {
      ShowingEchoed(rows, rows', lo, hi, want, t);
      ShowingEchoed(rows', rows, lo, hi, want, t);
    }
    CountSame(lo, hi, Showing(rows, lo, hi, want), Showing(rows', lo, hi, want));
  }

  lemma CoveredEchoed(rows: seq<Interval>, rows': seq<Interval>, lo: Instant, hi: Instant)
    requires SameShowing(rows, rows', lo, hi)
    ensures forall t :: Covered(rows, lo, hi, t) ==> Covered(rows', lo, hi, t)
  {
    forall t | Covered(rows, lo, hi, t) ensures Covered(rows', lo, hi, t) {
      var i :| Covers(rows, lo, hi, i, t);
      var j := Echo(rows, rows', lo, hi, t, i);
    }
  }

  lemma SameSpan(rows: seq<Interval>, rows': seq<Interval>, lo: Instant, hi: Instant)
    requires SameShowing(rows, rows', lo, hi)
    ensures Count(lo, hi, Spanned(rows, lo, hi)) == Count(lo, hi, Spanned(rows', lo, hi))
    ensures Count(lo, hi, Uncovered(rows, lo, hi)) == Count(lo, hi, Uncovered(rows', lo, hi))
  {
    CoveredEchoed(rows, rows', lo, hi);
    CoveredEchoed(rows', rows, lo, hi);
    CountSame(lo, hi, Spanned(rows, lo, hi), Spanned(rows', lo, hi));
    CountSame(lo, hi, Uncovered(rows, lo, hi), Uncovered(rows', lo, hi));
  }

  lemma OverlapEchoed(rows: seq<Interval>, rows': seq<Interval>, lo: Instant, hi: Instant, t: Instant)
    requires DevicesDisjoint(rows) && DevicesDisjoint(rows') && SameShowing(rows, rows', lo, hi)
    ensures Overlapping(rows, lo, hi)(t) ==> Overlapping(rows', lo, hi)(t)
  {
    if Overlapping(rows, lo, hi)(t) {
      var w :| Owns(rows, lo, hi, t, w) && Contested(rows, lo, hi, t, w);
      var w' := OwnerEchoed(rows, rows', lo, hi, t, w);
      ContestEchoed(rows, rows', lo, hi, t, w, w');
    }
  }

  /** A summary depends on its rows only through what they show at each instant: it ignores
      how intervals are cut and in which order they arrive. */
  lemma SummaryInsensitive(rows: seq<Interval>, rows': seq<Interval>, lo: Instant, hi: Instant, v: Summary)
    requires DevicesDisjoint(rows) && DevicesDisjoint(rows')
    requires SameShowing(rows, rows', lo, hi)
    requires Devices(rows) == Devices(rows') && LastSeen(rows) == LastSeen(rows')
    requires Summarizes(rows, lo, hi, v)
    ensures Summarizes(rows', lo, hi, v)
  {
    SameSpan(rows, rows', lo, hi);
    forall s: State ensures Time(rows, lo, hi, InState(s)) == Time(rows', lo, hi, InState(s)) {
      SameTime(rows, rows', lo, hi, InState(s));
    }
    forall a: App ensures Time(rows, lo, hi, InApp(a)) == Time(rows', lo, hi, InApp(a)) {
      SameTime(rows, rows', lo, hi, InApp(a));
    }
    forall c: string ensures Time(rows, lo, hi, InCategory(c)) == Time(rows', lo, hi, InCategory(c)) {
      SameTime(rows, rows', lo, hi, InCategory(c));
    }
    forall t | lo <= t < hi ensures Overlapping(rows, lo, hi)(t) == Overlapping(rows', lo, hi)(t) {
      OverlapEchoed(rows, rows', lo, hi, t);
      OverlapEchoed(rows', rows, lo, hi, t);
    }
    CountSame(lo, hi, Overlapping(rows, lo, hi), Overlapping(rows', lo, hi));
  }

  // ---- Two consequences: order and cutting --------------------------------------------

  ghost predicate SeenAmong(rows: seq<Interval>, x: Instant) {
    exists r :: r in rows && r.seen == x
  }

  lemma {:induction false} LastSeenIsLatest(rows: seq<Interval>)
    ensures LastSeen(rows).None? <==> rows == []
    ensures LastSeen(rows).Some? ==> SeenAmong(rows, LastSeen(rows).value)
    ensures LastSeen(rows).Some? ==> forall r | r in rows :: r.seen <= LastSeen(rows).value
  {
    if rows != [] {
      var (before, r) := (rows[..|rows| - 1], rows[|rows| - 1]);
      LastSeenIsLatest(before);
      assert rows == before + [r];
      if LastSeen(before).Some? && r.seen <= LastSeen(before).value {
        var q :| q in before && q.seen == LastSeen(before).value;
        assert q in rows;
      }
    }
  }

  lemma SameLastSeen(rows: seq<Interval>, rows': seq<Interval>)
    requires forall x :: SeenAmong(rows, x) <==> SeenAmong(rows', x)
    ensures LastSeen(rows) == LastSeen(rows')
  {
    LastSeenIsLatest(rows);
    LastSeenIsLatest(rows');
    if rows != [] { assert SeenAmong(rows, rows[0].seen); }
    if rows' != [] { assert SeenAmong(rows', rows'[0].seen); }
  }

  lemma ShowsMember(rows: seq<Interval>, lo: Instant, hi: Instant, t: Instant, s: Shown)
    ensures s in Shows(rows, lo, hi, t)
       <==> lo <= t < hi && exists r :: r in rows && r.started <= t < r.ended && ShownBy(r) == s
  {
    if s in Shows(rows, lo, hi, t) {
      var i :| 0 <= i < |rows| && Covers(rows, lo, hi, i, t) && ShownBy(rows[i]) == s;
      assert rows[i] in rows;
    }
    if lo <= t < hi && exists r :: r in rows && r.started <= t < r.ended && ShownBy(r) == s {
      var r :| r in rows && r.started <= t < r.ended && ShownBy(r) == s;
      var i :| 0 <= i < |rows| && rows[i] == r;
      assert Covers(rows, lo, hi, i, t);
    }
  }

  /** Whatever order the database returns ties in, the summary is the same. */
  lemma SummaryIgnoresOrder(rows: seq<Interval>, rows': seq<Interval>, lo: Instant, hi: Instant, v: Summary)
    requires forall r :: r in rows <==> r in rows'
    requires DevicesDisjoint(rows) && DevicesDisjoint(rows')
    requires Summarizes(rows, lo, hi, v)
    ensures Summarizes(rows', lo, hi, v)
  {
    forall t ensures Shows(rows, lo, hi, t) == Shows(rows', lo, hi, t) {
      forall s ensures s in Shows(rows, lo, hi, t) <==> s in Shows(rows', lo, hi, t) {
        ShowsMember(rows, lo, hi, t, s);
        ShowsMember(rows', lo, hi, t, s);
      }
    }
    SameLastSeen(rows, rows');
    assert Devices(rows) == Devices(rows');
    SummaryInsensitive(rows, rows', lo, hi, v);
  }

  /** The stored cut of one interval at an interior point `m`. */
  function Cut(r: Interval, m: Instant): seq<Interval> {
    [r.(ended := m), r.(started := m)]
  }

  /** `rows'` is `rows` with the interval `r` replaced by its two parts. */
  ghost predicate IsCut(rows: seq<Interval>, rows': seq<Interval>, r: Interval, m: Instant) {
    && r in rows && r.started < m < r.ended
    && (forall q :: q in rows' <==> (q in rows && q != r) || q in Cut(r, m))
  }

  lemma CutShows(rows: seq<Interval>, rows': seq<Interval>, r: Interval, m: Instant, lo: Instant, hi: Instant, t: Instant)
    requires IsCut(rows, rows', r, m)
    ensures Shows(rows, lo, hi, t) == Shows(rows', lo, hi, t)
  {
    var (a, b) := (Cut(r, m)[0], Cut(r, m)[1]);
    assert a in rows' && b in rows';
    forall s ensures s in Shows(rows, lo, hi, t) <==> s in Shows(rows', lo, hi, t) {
      ShowsMember(rows, lo, hi, t, s);
      ShowsMember(rows', lo, hi, t, s);
      if s in Shows(rows, lo, hi, t) {
        var q :| q in rows && q.started <= t < q.ended && ShownBy(q) == s;
        var q' := if q != r then q else if t < m then a else b;
        assert q' in rows' && q'.started <= t < q'.ended && ShownBy(q') == s;
      }
      if s in Shows(rows', lo, hi, t) {
        var q' :| q' in rows' && q'.started <= t < q'.ended && ShownBy(q') == s;
        var q := if q' in Cut(r, m) then r else q';
        assert q in rows && q.started <= t < q.ended && ShownBy(q) == s;
      }
    }
  }

  /** Cutting a stored interval at any interior point changes no total. */
  lemma SummaryIgnoresCuts(rows: seq<Interval>, rows': seq<Interval>, r: Interval, m: Instant,
                           lo: Instant, hi: Instant, v: Summary)
    requires IsCut(rows, rows', r, m) && DevicesDisjoint(rows) && DevicesDisjoint(rows')
    requires Summarizes(rows, lo, hi, v)
    ensures Summarizes(rows', lo, hi, v)
  {
    forall t ensures Shows(rows, lo, hi, t) == Shows(rows', lo, hi, t) {
      CutShows(rows, rows', r, m, lo, hi, t);
    }
    var (a, b) := (Cut(r, m)[0], Cut(r, m)[1]);
    assert a in rows' && b in rows';
    forall x ensures SeenAmong(rows, x) <==> SeenAmong(rows', x) {
      if SeenAmong(rows, x) {
        var q :| q in rows && q.seen == x;
        var q' := if q == r then a else q;
        assert q' in rows' && q'.seen == x;
      }
      if SeenAmong(rows', x) {
        var q' :| q' in rows' && q'.seen == x;
        var q := if q' in Cut(r, m) then r else q';
        assert q in rows && q.seen == x;
      }
    }
    SameLastSeen(rows, rows');
    CutDevices(rows, rows', r, m);
    SummaryInsensitive(rows, rows', lo, hi, v);
  }

  lemma CutDevices(rows: seq<Interval>, rows': seq<Interval>, r: Interval, m: Instant)
    requires IsCut(rows, rows', r, m)
    ensures Devices(rows) == Devices(rows')
  {
    var a := Cut(r, m)[0];
    assert a in rows';
    forall d ensures d in Devices(rows) <==> d in Devices(rows') {
      if d in Devices(rows) {
        var q :| q in rows && q.device == d;
        var q' := if q == r then a else q;
        assert q' in rows' && q'.device == d;
      }
      if d in Devices(rows') {
        var q' :| q' in rows' && q'.device == d;
        var q := if q' in Cut(r, m) then r else q';
        assert q in rows && q.device == d;
      }
    }
  }
}
