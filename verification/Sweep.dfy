/** Resolving overlapping intervals: the simple pointwise rule, and the endpoint sweep with a
    lazily cleaned heap that computes it. */
module Sweep {
  import opened Calendar
  import opened Activity

  // ---- The pointwise rule -------------------------------------------------------------

  /** Row `i` counts at instant `t` of the window [lo, hi). */
  predicate Covers(rows: seq<Interval>, lo: Instant, hi: Instant, i: int, t: Instant) {
    0 <= i < |rows| && lo <= t < hi && rows[i].started <= t < rows[i].ended
  }

  /** Row `i` takes precedence over row `j`: state, then device, then position. */
  predicate Beats(rows: seq<Interval>, i: int, j: int)
    requires 0 <= i < |rows| && 0 <= j < |rows|
  {
    var (p, q) := (Priority(rows[i].reading.state), Priority(rows[j].reading.state));
    p < q || (p == q && (rows[i].device < rows[j].device
                      || (rows[i].device == rows[j].device && i < j)))
  }

  /** `w` is the one row that owns instant `t`. */
  ghost predicate Owns(rows: seq<Interval>, lo: Instant, hi: Instant, t: Instant, w: int) {
    && Covers(rows, lo, hi, w, t)
    && forall i :: Covers(rows, lo, hi, i, t) && i != w ==> Beats(rows, w, i)
  }

  ghost predicate Covered(rows: seq<Interval>, lo: Instant, hi: Instant, t: Instant) {
    exists i :: Covers(rows, lo, hi, i, t)
  }

  /** A second row covers the instant that `w` owns. */
  ghost predicate Contested(rows: seq<Interval>, lo: Instant, hi: Instant, t: Instant, w: int) {
    exists i :: Covers(rows, lo, hi, i, t) && i != w
  }

  // ---- What a sweep must deliver ------------------------------------------------------

  /** A stretch [left, right) of one owner; `winner` is that row's position. */
  datatype Segment = Segment(left: Instant, right: Instant, winner: nat, overlap: bool)

  ghost predicate InSegment(g: Segment, t: Instant) { g.left <= t < g.right }

  ghost predicate Ordered(segs: seq<Segment>) {
    && (forall k | 0 <= k < |segs| :: segs[k].left < segs[k].right)
    && (forall j, k | 0 <= j < k < |segs| :: segs[j].right <= segs[k].left)
  }

  ghost predicate Owned(rows: seq<Interval>, lo: Instant, hi: Instant, g: Segment) {
    forall t | InSegment(g, t) ::
      && Owns(rows, lo, hi, t, g.winner)
      && (g.overlap <==> Contested(rows, lo, hi, t, g.winner))
  }

  ghost predicate InSome(segs: seq<Segment>, t: Instant) {
    exists k :: 0 <= k < |segs| && InSegment(segs[k], t)
  }

  /** `segs` is exactly the pointwise rule over the window, cut into ordered stretches. */
  ghost predicate Refines(rows: seq<Interval>, lo: Instant, hi: Instant, segs: seq<Segment>) {
    && Ordered(segs)
    && (forall k | 0 <= k < |segs| :: Owned(rows, lo, hi, segs[k]))
    && (forall t | Covered(rows, lo, hi, t) :: InSome(segs, t))
  }

  // ---- Endpoint events ----------------------------------------------------------------

  datatype Event = Event(opening: bool, row: nat)

  function Left(r: Interval, lo: Instant): Instant { if lo < r.started then r.started else lo }
  function Right(r: Interval, hi: Instant): Instant { if hi < r.ended then hi else r.ended }

  predicate Live(rows: seq<Interval>, lo: Instant, hi: Instant, i: int) {
    0 <= i < |rows| && Left(rows[i], lo) < Right(rows[i], hi)
  }

  type Events = map<Instant, seq<Event>>

  function Add(events: Events, at: Instant, e: Event): Events {
    events[at := (if at in events then events[at] else []) + [e]]
  }

  ghost predicate Logged(events: Events, at: Instant, e: Event) {
    at in events && e in events[at]
  }

  /** The table holds the two clipped endpoints of each live row among the first `n`. */
  ghost predicate Tabulates(rows: seq<Interval>, lo: Instant, hi: Instant, events: Events, n: int)
    requires 0 <= n <= |rows|
  {
    && (forall at, e :: Logged(events, at, e) ==>
          && e.row < n && Live(rows, lo, hi, e.row)
          && at == if e.opening then Left(rows[e.row], lo) else Right(rows[e.row], hi))
    && (forall i | 0 <= i < n && Live(rows, lo, hi, i) ::
          && Logged(events, Left(rows[i], lo), Event(true, i))
          && Logged(events, Right(rows[i], hi), Event(false, i)))
  }

  lemma LoggedAfterAdd(events: Events, at: Instant, e: Event, at': Instant, e': Event)
    ensures Logged(Add(events, at, e), at', e') <==> Logged(events, at', e') || (at' == at && e' == e)
  {
  }

  method EndpointEvents(rows: seq<Interval>, lo: Instant, hi: Instant) returns (events: Events)
    ensures Tabulates(rows, lo, hi, events, |rows|)
  {
    events := map[];
    for i := 0 to |rows|
      invariant Tabulates(rows, lo, hi, events, i)
    {
      var left, right := Left(rows[i], lo), Right(rows[i], hi);
      if left < right {
        ghost var before := events;
        events := Add(events, left, Event(true, i));
        ghost var half := events;
        events := Add(events, right, Event(false, i));
        forall at, e
          ensures Logged(events, at, e) <==>
            Logged(before, at, e) || (at == left && e == Event(true, i)) || (at == right && e == Event(false, i))
        {
          LoggedAfterAdd(before, left, Event(true, i), at, e);
          LoggedAfterAdd(half, right, Event(false, i), at, e);
        }
      }
    }
  }

  // ---- Sorting ------------------------------------------------------------------------

  ghost predicate Ascending(ps: seq<int>) {
    forall a, b | 0 <= a < b < |ps| :: ps[a] < ps[b]
  }

  function InsertPoint(ps: seq<int>, x: int): (r: seq<int>)
    requires Ascending(ps) && x !in ps
    ensures Ascending(r) && forall p :: p in r <==> p in ps || p == x
  {
    if ps == [] then [x]
    else if x < ps[0] then
      var r := [x] + ps;
      assert forall b | 0 < b < |r| :: r[b] == ps[b - 1];
      r
    else
      var rest := InsertPoint(ps[1..], x);
      assert forall p :: p in ps <==> p == ps[0] || p in ps[1..];
      assert forall b | 0 <= b < |rest| :: ps[0] < rest[b] by {
        assert forall b | 0 <= b < |rest| :: rest[b] in rest;
      }
      [ps[0]] + rest
  }

  lemma SomeMember<T>(s: set<T>) returns (x: T)
    requires s != {}
    ensures x in s
  {
    x :| x in s;
  }

  method SortedPoints(s: set<int>) returns (points: seq<int>)
    ensures Ascending(points) && forall p :: p in points <==> p in s
  {
    points := [];
    var rest := s;
    while rest != {}
      invariant Ascending(points)
      invariant forall p :: p in points <==> p in s && p !in rest
      invariant forall p | p in rest :: p in s
    {
      ghost var some := SomeMember(rest);
      var x :| x in rest;
      points := InsertPoint(points, x);
      rest := rest - {x};
    }
  }

  // ---- The heap: least key first, entries of closed rows removed only when on top ------

  ghost predicate HeapOrdered(rows: seq<Interval>, heap: seq<nat>) {
    && (forall a | 0 <= a < |heap| :: heap[a] < |rows|)
    && (forall a, b | 0 <= a < b < |heap| :: heap[a] == heap[b] || Beats(rows, heap[a], heap[b]))
  }

  function Push(rows: seq<Interval>, heap: seq<nat>, i: nat): (r: seq<nat>)
    requires i < |rows| && HeapOrdered(rows, heap)
    ensures HeapOrdered(rows, r) && forall x :: x in r <==> x in heap || x == i
  {
    if heap == [] then [i]
    else if Beats(rows, i, heap[0]) then
      var r := [i] + heap;
      assert forall b | 0 < b < |r| :: r[b] == heap[b - 1];
      r
    else
      var rest := Push(rows, heap[1..], i);
      assert forall x :: x in heap <==> x == heap[0] || x in heap[1..];
      assert forall b | 0 <= b < |rest| :: heap[0] == rest[b] || Beats(rows, heap[0], rest[b]) by {
        assert forall b | 0 <= b < |rest| :: rest[b] in rest;
      }
      [heap[0]] + rest
  }

  /** Drop closed rows from the top until the least live row surfaces. */
  method Surface(rows: seq<Interval>, heap: seq<nat>, active: set<nat>) returns (clean: seq<nat>)
    requires HeapOrdered(rows, heap) && active != {} && forall i | i in active :: i in heap
    ensures HeapOrdered(rows, clean) && forall i | i in active :: i in clean
    ensures |clean| > 0 && clean[0] in active
    ensures forall i | i in active && i != clean[0] :: Beats(rows, clean[0], i)
  {
    clean := heap;
    var some :| some in active;
    while clean[0] !in active
      invariant HeapOrdered(rows, clean) && forall i | i in active :: i in clean
      invariant |clean| > 0
      decreases |clean|
    {
      assert forall x :: x in clean <==> x == clean[0] || x in clean[1..];
      assert some in clean[1..];
      clean := clean[1..];
    }
  }

  // ---- The sweep ----------------------------------------------------------------------

  lemma CoversClipped(rows: seq<Interval>, lo: Instant, hi: Instant, i: int, t: Instant)
    requires 0 <= i < |rows|
    ensures Covers(rows, lo, hi, i, t) <==> Left(rows[i], lo) <= t < Right(rows[i], hi)
  {
  }

  /** Between two neighbouring endpoints the covering rows do not change. */
  lemma SteadyBetween(rows: seq<Interval>, lo: Instant, hi: Instant, events: Events,
                      points: seq<int>, k: int, i: int, t: Instant)
    requires Tabulates(rows, lo, hi, events, |rows|)
    requires Ascending(points) && forall p :: p in points <==> p in events.Keys
    requires 0 < k < |points| && points[k - 1] <= t < points[k]
    ensures Covers(rows, lo, hi, i, t) <==> Covers(rows, lo, hi, i, points[k - 1])
  {
    if 0 <= i < |rows| && Live(rows, lo, hi, i) {
      var l, r := Left(rows[i], lo), Right(rows[i], hi);
      assert Logged(events, l, Event(true, i)) && Logged(events, r, Event(false, i));
      assert l in points && r in points;
      var a :| 0 <= a < |points| && points[a] == l;
      var b :| 0 <= b < |points| && points[b] == r;
      assert a < k <==> l <= t;
      assert b < k <==> r <= t;
    }
  }

  lemma NothingBeforeFirst(rows: seq<Interval>, lo: Instant, hi: Instant, events: Events,
                           points: seq<int>, t: Instant)
    requires Tabulates(rows, lo, hi, events, |rows|)
    requires Ascending(points) && forall p :: p in points <==> p in events.Keys
    requires Covered(rows, lo, hi, t)
    ensures |points| > 0 && points[0] <= t < points[|points| - 1]
  {
    var i :| Covers(rows, lo, hi, i, t);
    assert Live(rows, lo, hi, i);
    var l, r := Left(rows[i], lo), Right(rows[i], hi);
    assert Logged(events, l, Event(true, i)) && Logged(events, r, Event(false, i));
    assert l in points && r in points;
  }

  ghost predicate ActiveAt(rows: seq<Interval>, lo: Instant, hi: Instant, active: set<nat>, t: Instant) {
    forall i :: i in active <==> Covers(rows, lo, hi, i, t)
  }

  /** Process the events of one endpoint. */
  method PassPoint(rows: seq<Interval>, lo: Instant, hi: Instant, ghost events: Events,
                   point: Instant, list: seq<Event>, active: set<nat>, heap: seq<nat>)
    returns (active': set<nat>, heap': seq<nat>)
    requires Tabulates(rows, lo, hi, events, |rows|) && point in events && events[point] == list
    requires HeapOrdered(rows, heap) && forall i | i in active :: i in heap && i < |rows|
    ensures HeapOrdered(rows, heap') && forall i | i in active' :: i in heap' && i < |rows|
    ensures forall i: nat :: i in active' <==>
              i < |rows| && if i in active then Right(rows[i], hi) != point || !Live(rows, lo, hi, i)
                            else Left(rows[i], lo) == point && Live(rows, lo, hi, i)
  {
    active', heap' := active, heap;
    for j := 0 to |list|
      invariant HeapOrdered(rows, heap') && forall i | i in active' :: i in heap' && i < |rows|
      invariant forall i :: i in active' <==>
                  (i in active && Event(false, i) !in list[..j]) || Event(true, i) in list[..j]
    {
      var e := list[j];
      assert Logged(events, point, e);
      assert list[..j + 1] == list[..j] + [e];
      forall f | f in list[..j] && f.row == e.row ensures f == e {
        assert Logged(events, point, f);
      }
      if e.opening {
        active' := active' + {e.row};
        heap' := Push(rows, heap', e.row);
      } else {
        active' := active' - {e.row};
      }
    }
    assert list[..|list|] == list;
    forall i: nat, o | Event(o, i) in list
      ensures i < |rows| && Live(rows, lo, hi, i) && point == if o then Left(rows[i], lo) else Right(rows[i], hi)
    {
      assert Logged(events, point, Event(o, i));
    }
    forall i: nat | i < |rows| && Live(rows, lo, hi, i)
      ensures Left(rows[i], lo) == point ==> Event(true, i) in list
      ensures Right(rows[i], hi) == point ==> Event(false, i) in list
    {
      assert Logged(events, Left(rows[i], lo), Event(true, i));
      assert Logged(events, Right(rows[i], hi), Event(false, i));
    }
  }

  lemma PassedPoint(rows: seq<Interval>, lo: Instant, hi: Instant, events: Events, points: seq<int>,
                    k: int, before: set<nat>, after: set<nat>)
    requires Tabulates(rows, lo, hi, events, |rows|)
    requires Ascending(points) && forall p :: p in points <==> p in events.Keys
    requires 0 <= k < |points|
    requires if k == 0 then before == {} else ActiveAt(rows, lo, hi, before, points[k - 1])
    requires forall i: nat :: i in after <==>
               i < |rows| && if i in before then Right(rows[i], hi) != points[k] || !Live(rows, lo, hi, i)
                             else Left(rows[i], lo) == points[k] && Live(rows, lo, hi, i)
    ensures ActiveAt(rows, lo, hi, after, points[k])
  {
    forall i: nat | i < |rows|
      ensures i in after <==> Covers(rows, lo, hi, i, points[k])
    {
      CoversClipped(rows, lo, hi, i, points[k]);
      if k > 0 { CoversClipped(rows, lo, hi, i, points[k - 1]); }
      if Live(rows, lo, hi, i) {
        var l, r := Left(rows[i], lo), Right(rows[i], hi);
        assert Logged(events, l, Event(true, i)) && Logged(events, r, Event(false, i));
        assert l in points && r in points;
        var a :| 0 <= a < |points| && points[a] == l;
        var b :| 0 <= b < |points| && points[b] == r;
      }
    }
  }

  /** The stretch up to the next endpoint belongs to the least row of the active set. */
  lemma StretchIsOwned(rows: seq<Interval>, lo: Instant, hi: Instant, events: Events, points: seq<int>,
                       k: int, active: set<nat>, w: nat)
    requires Tabulates(rows, lo, hi, events, |rows|)
    requires Ascending(points) && forall p :: p in points <==> p in events.Keys
    requires 0 < k < |points| && ActiveAt(rows, lo, hi, active, points[k - 1])
    requires w in active && forall i: nat | i in active && i != w :: w < |rows| && i < |rows| && Beats(rows, w, i)
    ensures Owned(rows, lo, hi, Segment(points[k - 1], points[k], w, |active| > 1))
  {
    assert |active| > 1 <==> exists i: nat :: i in active && i != w by {
      var others := active - {w};
      assert active == others + {w};
      if exists i: nat :: i in active && i != w {
        var i: nat :| i in active && i != w;
        assert i in others;
      } else {
        assert others == {};
      }
    }
    forall t | points[k - 1] <= t < points[k]
      ensures Owns(rows, lo, hi, t, w)
      ensures |active| > 1 <==> Contested(rows, lo, hi, t, w)
    {
      forall i
        ensures Covers(rows, lo, hi, i, t) <==> i in active
      {
        SteadyBetween(rows, lo, hi, events, points, k, i, t);
      }
      if |active| > 1 {
        var i: nat :| i in active && i != w;
        assert Covers(rows, lo, hi, i, t);
      }
    }
  }

  /** Everything covered before endpoint `k` lies in some segment already emitted. */
  ghost predicate DoneUpTo(rows: seq<Interval>, lo: Instant, hi: Instant, segs: seq<Segment>, bound: Instant) {
    && Ordered(segs)
    && (forall j | 0 <= j < |segs| :: segs[j].right <= bound && Owned(rows, lo, hi, segs[j]))
    && (forall t | Covered(rows, lo, hi, t) && t < bound :: InSome(segs, t))
  }

  lemma Extend(rows: seq<Interval>, lo: Instant, hi: Instant, segs: seq<Segment>, g: Segment)
    requires DoneUpTo(rows, lo, hi, segs, g.left) && g.left < g.right && Owned(rows, lo, hi, g)
    ensures DoneUpTo(rows, lo, hi, segs + [g], g.right)
  {
    var segs' := segs + [g];
    forall t | Covered(rows, lo, hi, t) && t < g.right
      ensures InSome(segs', t)
    {
      if t < g.left {
        var j :| 0 <= j < |segs| && InSegment(segs[j], t);
        assert InSegment(segs'[j], t);
      } else {
        assert InSegment(segs'[|segs|], t);
      }
    }
  }

  /** Sweep the endpoints once; the result refines the pointwise rule. */
  method MergedSegments(rows: seq<Interval>, lo: Instant, hi: Instant) returns (segs: seq<Segment>)
    ensures Refines(rows, lo, hi, segs)
  {
    var events := EndpointEvents(rows, lo, hi);
    var points := SortedPoints(events.Keys);
    var active: set<nat>, heap: seq<nat> := {}, [];
    segs := [];
    forall t | Covered(rows, lo, hi, t)
      ensures |points| > 0 && points[0] <= t < points[|points| - 1]
    {
      NothingBeforeFirst(rows, lo, hi, events, points, t);
    }
    for k := 0 to |points|
      invariant HeapOrdered(rows, heap) && forall i | i in active :: i in heap && i < |rows|
      invariant if k == 0 then active == {} && segs == [] else ActiveAt(rows, lo, hi, active, points[k - 1])
      invariant k > 0 ==> DoneUpTo(rows, lo, hi, segs, points[k - 1])
    {
      var point := points[k];
      if k > 0 && points[k - 1] < point && active != {} {
        heap := Surface(rows, heap, active);
        StretchIsOwned(rows, lo, hi, events, points, k, active, heap[0]);
        var g := Segment(points[k - 1], point, heap[0], |active| > 1);
        Extend(rows, lo, hi, segs, g);
        segs := segs + [g];
      } else if k > 0 {
        IdleStretch(rows, lo, hi, events, points, k, active, segs);
      }
      ghost var before := active;
      active, heap := PassPoint(rows, lo, hi, events, point, events[point], active, heap);
      PassedPoint(rows, lo, hi, events, points, k, before, active);
    }
  }

  lemma IdleStretch(rows: seq<Interval>, lo: Instant, hi: Instant, events: Events, points: seq<int>,
                    k: int, active: set<nat>, segs: seq<Segment>)
    requires Tabulates(rows, lo, hi, events, |rows|)
    requires Ascending(points) && forall p :: p in points <==> p in events.Keys
    requires 0 < k < |points| && ActiveAt(rows, lo, hi, active, points[k - 1]) && active == {}
    requires DoneUpTo(rows, lo, hi, segs, points[k - 1])
    ensures DoneUpTo(rows, lo, hi, segs, points[k])
  {
    forall t | Covered(rows, lo, hi, t) && t < points[k]
      ensures InSome(segs, t)
    {
      var i :| Covers(rows, lo, hi, i, t);
      if points[k - 1] <= t {
        SteadyBetween(rows, lo, hi, events, points, k, i, t);
      }
    }
  }
}
