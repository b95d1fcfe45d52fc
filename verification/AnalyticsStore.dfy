/** The activity analytics store: ingestion, the rebuild worker and retention, updating the
    tables in place.  Each method is tied to the specification functions, about which `Tiling`,
    `Freshness`, `Rollups` and `Answers` prove what reports rely on. */
module AnalyticsStore {
  import opened Calendar
  import opened Activity
  import opened Text
  import opened Summaries
  import opened Recorder
  import opened Freshness
  import opened Rollups
  import opened RowOrder
  import opened Sweep

  // ---- Queries with a limit -----------------------------------------------------------

  /** What a query orders by, most significant first. */
  datatype Rank = Rank(first: int, second: int, text: string)

  predicate NotAfter(a: Rank, b: Rank) {
    a.first < b.first || (a.first == b.first && (a.second < b.second || (a.second == b.second && Order(a.text, b.text) <= 0)))
  }

  lemma RanksOrdered(a: Rank, b: Rank, c: Rank)
    ensures NotAfter(a, a) && (NotAfter(a, b) || NotAfter(b, a))
    ensures NotAfter(a, b) && NotAfter(b, c) ==> NotAfter(a, c)
  {
    OrderZero(a.text, a.text);
    OrderFlip(a.text, b.text);
    if Order(a.text, b.text) <= 0 && Order(b.text, c.text) <= 0 { OrderTransitive(a.text, b.text, c.text); }
  }

  /** `batch` holds the first `limit` candidates in rank order (all of them if there are fewer). */
  ghost predicate IsFirstBatch<K(!new)>(ranks: map<K, Rank>, limit: nat, batch: set<K>) {
    && batch <= ranks.Keys
    && |batch| == (if |ranks| < limit then |ranks| else limit)
    && (forall a, b | a in batch && b in ranks && b !in batch :: NotAfter(ranks[a], ranks[b]))
  }

  ghost predicate IsFirst<K(!new)>(ranks: map<K, Rank>, rest: set<K>, k: K) {
    k in rest && forall j | j in rest && j in ranks && k in ranks :: NotAfter(ranks[k], ranks[j])
  }

  method First<K(==,!new)>(ranks: map<K, Rank>, rest: set<K>) returns (k: K)
    requires rest != {} && rest <= ranks.Keys
    ensures IsFirst(ranks, rest, k)
  {
    ghost var some := SomeMember(rest);
    k :| k in rest;
    var todo := rest - {k};
    RanksOrdered(ranks[k], ranks[k], ranks[k]);
    while todo != {}
      invariant todo <= rest && k in rest && k !in todo
      invariant forall j | j in rest && j !in todo :: NotAfter(ranks[k], ranks[j])
    {
      ghost var some' := SomeMember(todo);
      var j :| j in todo;
      todo := todo - {j};
      forall i | i in rest ensures NotAfter(ranks[j], ranks[k]) && NotAfter(ranks[k], ranks[i]) ==> NotAfter(ranks[j], ranks[i]) {
        RanksOrdered(ranks[j], ranks[k], ranks[i]);
      }
      RanksOrdered(ranks[j], ranks[k], ranks[k]);
      if NotAfter(ranks[j], ranks[k]) { k := j; }
    }
  }

  method FirstBatch<K(==,!new)>(ranks: map<K, Rank>, limit: nat) returns (batch: set<K>)
    ensures IsFirstBatch(ranks, limit, batch)
  {
    batch := {};
    var rest := ranks.Keys;
    while rest != {} && |batch| < limit
      invariant batch !! rest && batch + rest == ranks.Keys && |batch| + |rest| == |ranks| && |batch| <= limit
      invariant forall a, b | a in batch && b in rest :: NotAfter(ranks[a], ranks[b])
      decreases rest
    {
      var k := First(ranks, rest);
      batch := batch + {k};
      rest := rest - {k};
    }
  }

  // ---- Reading the intervals of one day -----------------------------------------------

  method SelectRows(p: Policy, intervals: map<nat, Interval>, k: Key) returns (rows: seq<Interval>)
    ensures Enumerates(rows, Touching(p, intervals, k)) && |rows| == |Touching(p, intervals, k)|
  {
    var found := Touching(p, intervals, k);
    rows := [];
    ghost var ids: seq<nat> := [];
    var rest := found.Keys;
    while rest != {}
      invariant ReadSoFar(ids, found, rest, rows)
      decreases rest
    {
      ghost var some := SomeMember(rest);
      var n :| n in rest;
      var at := Placed(rows, found[n]);
      ReadOneMore(ids, found, rest, rows, n);
      ids := InsertAt(ids, at, n);
      rows := InsertAt(rows, at, found[n]);
      rest := rest - {n};
    }
    assert found - rest == found;
  }

  /** The days waiting for a rebuild in a supported zone, longest untouched first. */
  function Pending(p: Policy, days: map<Key, DayRow>): map<Key, Rank> {
    map k | k in days && days[k].dirty && k.zone < |p.zones| :: Rank(days[k].updatedAt, k.day, k.user)
  }

  /** Day `j` comes before day `k` in the queue, or level with it: by update time, then day, then user. */
  ghost predicate WaitsNoLonger(days: map<Key, DayRow>, k: Key, j: Key)
    requires k in days && j in days
  {
    && days[j].updatedAt <= days[k].updatedAt
    && (days[j].updatedAt == days[k].updatedAt ==> j.day <= k.day && (j.day == k.day ==> Order(j.user, k.user) <= 0))
  }

  lemma BatchWaitsLongest(p: Policy, days: map<Key, DayRow>, limit: nat, batch: set<Key>)
    requires IsFirstBatch(Pending(p, days), limit, batch)
    ensures |batch| <= limit && forall k | k in batch :: k in days && days[k].dirty && k.zone < |p.zones|
    ensures forall k | k in days && days[k].dirty && k.zone < |p.zones| && k !in batch ::
      |batch| == limit && forall j | j in batch :: WaitsNoLonger(days, k, j)
  {
    var ranks := Pending(p, days);
    forall k | k in days && days[k].dirty && k.zone < |p.zones| && k !in batch
      ensures |batch| == limit && forall j | j in batch :: WaitsNoLonger(days, k, j)
    {
      assert k in ranks;
      if |batch| == |ranks| { SameSize(batch, ranks.Keys); }
    }
  }

  lemma {:induction false} SameSize<T>(s: set<T>, t: set<T>)
    requires s <= t && |s| == |t|
    ensures s == t
  {
    if s != {} {
      var x := SomeMember(s);
      SameSize(s - {x}, t - {x});
    }
  }

  /** What a rebuild of day `k` at `when` must leave in its row. */
  ghost predicate Rebuilt(p: Policy, intervals: map<nat, Interval>, was: DayRow, k: Key, when: Instant, row: DayRow) {
    && k.zone < |p.zones|
    && row.updatedAt == when
    && if |Touching(p, intervals, k)| > 20_000 then row.payload == was.payload && row.dirty == was.dirty
       else row.payload.Some? && !row.dirty && SummaryOfDay(p, intervals, k, when, row.payload.value)
  }

  // ---- The store ----------------------------------------------------------------------

  class AnalyticsStore {
    var intervals: map<nat, Interval>
    var nextId: nat
    var cursors: map<Device, Cursor>
    var days: map<Key, DayRow>

    function Contents(): Store
      reads this
    {
      Store(intervals, nextId, cursors, days)
    }

    constructor ()
      ensures Contents() == Store(map[], 0, map[], map[])
    {
      intervals, nextId, cursors, days := map[], 0, map[], map[];
    }

    method Add(i: Interval) returns (id: nat)
      modifies this`intervals, this`nextId
      ensures Contents() == Insert(old(Contents()), i) && id == old(nextId)
    {
      id := nextId;
      intervals := intervals[id := i];
      nextId := nextId + 1;
    }

    /** Mark every local day from `a` to `b`, zone by zone. */
    method Dirty(p: Policy, user: Option<string>, a: Instant, b: Instant)
      modifies this`days
      ensures Contents() == MarkDirty(p, old(Contents()), user, a, b)
    {
      if user.None? { return; }
      var values: set<Key> := {};
      for z := 0 to |p.zones|
        invariant forall k :: k in values <==>
          (k.user == user.value && k.zone < z && p.zones[k.zone].date(a) <= k.day <= p.zones[k.zone].date(b))
      {
        var day, last := p.zones[z].date(a), p.zones[z].date(b);
        ghost var before := values;
        while day <= last
          invariant p.zones[z].date(a) <= day && (day <= last + 1 || day == p.zones[z].date(a))
          invariant forall k :: k in values <==> k in before || (k.user == user.value && k.zone == z && p.zones[z].date(a) <= k.day < day)
          decreases last - day
        {
          values := values + {Key(user.value, z, day)};
          day := day + 1;
        }
      }
      days := MarkDays(days, values, a);
      assert values == DayKeys(p, user, a, b);
    }

    /** Account for the time since the last sample, splitting at every report boundary. */
    method SplitUpTo(p: Policy, id: nat, from: Instant, when: Instant, gap: bool, attributed: bool) returns (last: nat)
      requires ValidPolicy(p) && id in intervals
      modifies this`intervals, this`nextId, this`days
      ensures var w := WalkTo(p, Walk(old(Contents()), id, from), when, gap, attributed);
        Contents() == w.store && last == w.previous && last in intervals
    {
      var start := from;
      last := id;
      while start < when
        invariant last in intervals && cursors == old(cursors)
        invariant WalkTo(p, Walk(Contents(), last, start), when, gap, attributed)
               == WalkTo(p, Walk(old(Contents()), id, from), when, gap, attributed)
        decreases when - start
      {
        ghost var w := Walk(Contents(), last, start);
        BoundaryAhead(p, start);
        var boundary := Boundary(p, start);
        var end := if when < boundary then when else boundary;
        var previous := intervals[last];
        if gap {
          var added := Add(UnknownSince(previous, attributed, start, end));
          Dirty(p, if attributed then previous.reading.user else None, start, end);
        } else {
          if previous.ended == start && previous.started < boundary {
            intervals := intervals[last := previous.(ended := end)];
          } else {
            last := Add(previous.(started := start, ended := end));
          }
          Dirty(p, previous.reading.user, start, end);
          if end == boundary && end < when {
            last := Add(previous.(started := end, ended := end));
          }
        }
        start := end;
        assert Walk(Contents(), last, start) == Step(p, w, when, gap, attributed);
      }
    }

    /** Record one accepted observation. */
    method RecordObservation(p: Policy, device: Device, b: Sample)
      requires ValidPolicy(p)
      modifies this
      ensures Contents() == Record(p, old(Contents()), device, b)
    {
      if Ignored(Contents(), device, b) { return; }
      var previous := Previous(Contents(), device);
      var last := if device in cursors then cursors[device].last else b.when;
      if previous.Some? {
        var gap := LongGap(p, last, b.when);
        var attributed := Attributable(intervals[previous.value], b, last);
        var id := SplitUpTo(p, previous.value, GapStart(p, last, b.when), b.when, gap, attributed);
        previous := Some(id);
      }
      assert (Contents(), previous) == Settle(p, old(Contents()), device, b);
      var id;
      if previous.Some? && Continues(p, intervals[previous.value], last, b) {
        id := previous.value;
        intervals := intervals[id := intervals[id].(seen := b.when)];
      } else {
        id := Add(Interval(device, ReadingOf(b), b.when, b.when, b.when));
      }
      cursors := cursors[device := Cursor(Some(id), b.id, b.when, b.user, b.state)];
      Dirty(p, b.user, b.when, b.when);
    }

    /** Rebuild one locked day from its stored intervals. */
    method RebuildDay(p: Policy, k: Key, when: Instant)
      requires k in days && k.zone < |p.zones|
      modifies this`days
      ensures k in days && days == old(days)[k := days[k]] && Rebuilt(p, intervals, old(days)[k], k, when, days[k])
    {
      var rows := SelectRows(p, intervals, k);
      if |rows| > LIMIT {
        days := days[k := days[k].(updatedAt := when)];
      } else {
        var v := Summarize(rows, DayStart(p, k), DayEndAt(p, k, when));
        days := days[k := DayRow(Some(v), false, when)];
      }
    }

    /** Publish the first `batchSize` dirty days; a batch outside its bounds is refused. */
    method RebuildDaily(p: Policy, when: Instant, batchSize: int) returns (done: Option<set<Key>>)
      modifies this`days
      ensures done.None? <==> !(1 <= batchSize <= 256)
      ensures done.None? ==> days == old(days)
      ensures done.Some? ==> days.Keys == old(days).Keys && |done.value| <= batchSize
      ensures done.Some? ==> forall k | k in done.value :: k in old(days) && old(days)[k].dirty && k.zone < |p.zones|
      ensures done.Some? ==> forall k | k in old(days) && old(days)[k].dirty && k.zone < |p.zones| && k !in done.value ::
        |done.value| == batchSize && forall j | j in done.value :: WaitsNoLonger(old(days), k, j)
      ensures done.Some? ==> forall k | k in days ::
        if k in done.value then Rebuilt(p, intervals, old(days)[k], k, when, days[k]) else days[k] == old(days)[k]
    {
      if !(1 <= batchSize <= 256) { return None; }
      var batch := FirstBatch(Pending(p, days), batchSize);
      BatchWaitsLongest(p, days, batchSize, batch);
      var queue := batch;
      while queue != {}
        invariant queue <= batch && days.Keys == old(days).Keys
        invariant forall k | k in days ::
          if k in batch - queue then Rebuilt(p, intervals, old(days)[k], k, when, days[k]) else days[k] == old(days)[k]
        decreases queue
      {
        ghost var some := SomeMember(queue);
        var k :| k in queue;
        RebuildDay(p, k, when);
        queue := queue - {k};
      }
      done := Some(batch);
    }

    /** Delete at most `batchSize` old intervals, expired days and expired cursors, oldest first. */
    method RetainAnalytics(p: Policy, when: Instant, batchSize: int) returns (deleted: Option<nat>)
      requires ValidPolicy(p)
      modifies this
      ensures deleted.None? <==> !(1 <= batchSize <= 1000)
      ensures deleted.None? ==> Contents() == old(Contents())
      ensures deleted.Some? ==> exists victims, staleDays, staleCursors ::
        && Contents() == Retained(old(Contents()), victims, staleDays, staleCursors) && deleted.value == |victims|
        && IsFirstBatch(Expired(p, old(Contents()), when), batchSize, victims)
        && IsFirstBatch(ExpiredDays(p, old(Contents()), when), batchSize, staleDays)
        && IsFirstBatch(ExpiredCursors(p, old(Contents()), when), batchSize, staleCursors)
    {
      if !(1 <= batchSize <= 1000) { return None; }
      var s := Contents();
      var victims := FirstBatch(Expired(p, s, when), batchSize);
      intervals := intervals - victims;
      var staleDays := FirstBatch(ExpiredDays(p, s, when), batchSize);
      days := days - staleDays;
      var staleCursors := FirstBatch(ExpiredCursors(p, s, when), batchSize);
      cursors := map d | d in cursors && d !in staleCursors :: Forget(cursors[d], victims);
      deleted := Some(|victims|);
      assert Contents() == Retained(s, victims, staleDays, staleCursors);
    }
  }

  function Expired(p: Policy, s: Store, when: Instant): map<nat, Rank>
    requires |p.zones| > 0
  {
    map n | n in s.intervals && Deletable(p, s, when, s.intervals[n]) :: Rank(s.intervals[n].ended, 0, "")
  }

  function ExpiredDays(p: Policy, s: Store, when: Instant): map<Key, Rank> {
    map k | k in s.days && StaleDay(p, when, k) :: Rank(k.day, 0, "")
  }

  /** Expired cursors carry no order. */
  function ExpiredCursors(p: Policy, s: Store, when: Instant): map<Device, Rank> {
    map d | d in s.cursors && StaleCursor(p, when, s.cursors[d]) :: Rank(0, 0, "")
  }

  // ---- What retention leaves, said outright --------------------------------------------

  ghost predicate Expires(p: Policy, s: Store, when: Instant, i: Interval)
  {
    && (forall n | 0 <= n < |p.zones| :: i.ended < p.zones[n].start(p.zones[n].date(when) - p.detailDays))
    && (forall k | k in s.days && i.reading.user == Some(k.user) :: !s.days[k].dirty)
  }

  lemma ExpiredExactly(p: Policy, s: Store, when: Instant)
    requires |p.zones| > 0
    ensures forall n :: n in Expired(p, s, when) <==> n in s.intervals && Expires(p, s, when, s.intervals[n])
  {
    forall n | n in s.intervals ensures n in Expired(p, s, when) <==> Expires(p, s, when, s.intervals[n]) {
      DeletableExactly(p, s, when, s.intervals[n]);
    }
  }

  lemma FullBatch<K(!new)>(ranks: map<K, Rank>, limit: nat, batch: set<K>, k: K)
    requires IsFirstBatch(ranks, limit, batch) && k in ranks && k !in batch
    ensures |batch| == limit && forall j | j in batch :: NotAfter(ranks[j], ranks[k])
  {
    if |batch| == |ranks| { SameSize(batch, ranks.Keys); }
  }

  /** Only intervals that expire go, the earliest ended first, and no more than a batch; the others
      stay as they are. */
  lemma IntervalsExpireOldestFirst(p: Policy, s: Store, when: Instant, limit: nat, victims: set<nat>, staleDays: set<Key>,
                                   staleCursors: set<Device>)
    requires |p.zones| > 0 && IsFirstBatch(Expired(p, s, when), limit, victims)
    ensures var left := Retained(s, victims, staleDays, staleCursors).intervals;
      && (forall n :: n in left <==> n in s.intervals && n !in victims) && (forall n | n in left :: left[n] == s.intervals[n])
      && |victims| <= limit && (forall n | n in victims :: n in s.intervals && Expires(p, s, when, s.intervals[n]))
      && (forall n | n in left && Expires(p, s, when, left[n]) ::
            |victims| == limit && forall m | m in victims :: s.intervals[m].ended <= left[n].ended)
  {
    var (ranks, left) := (Expired(p, s, when), s.intervals - victims);
    ExpiredExactly(p, s, when);
    forall n | n in left && Expires(p, s, when, left[n])
      ensures |victims| == limit && forall m | m in victims :: s.intervals[m].ended <= left[n].ended
    {
      FullBatch(ranks, limit, victims, n);
      assert forall m | m in victims :: NotAfter(ranks[m], ranks[n]);
    }
  }

  /** Only days that ended, in UTC, longer ago than aggregates are kept go, the earliest first. */
  lemma DaysExpireOldestFirst(p: Policy, s: Store, when: Instant, limit: nat, victims: set<nat>, staleDays: set<Key>,
                              staleCursors: set<Device>)
    requires IsFirstBatch(ExpiredDays(p, s, when), limit, staleDays)
    ensures var (left, bound) := (Retained(s, victims, staleDays, staleCursors).days, when - Days(p.aggregateDays));
      && (forall k :: k in left <==> k in s.days && k !in staleDays) && (forall k | k in left :: left[k] == s.days[k])
      && |staleDays| <= limit && (forall k | k in staleDays :: k in s.days && Days(k.day + 1) <= bound)
      && (forall k | k in left && Days(k.day + 1) <= bound :: |staleDays| == limit && forall j | j in staleDays :: j.day <= k.day)
  {
    var ranks := ExpiredDays(p, s, when);
    forall k | k in s.days ensures k in ranks <==> Days(k.day + 1) <= when - Days(p.aggregateDays) {
      StaleExactly(p, when, k);
    }
    if |staleDays| == |ranks| { SameSize(staleDays, ranks.Keys); }
  }

  /** Only cursors unused for longer than aggregates are kept go; a cursor that stays forgets an
      interval exactly when that was deleted, and nothing else about it changes. */
  lemma CursorsExpire(p: Policy, s: Store, when: Instant, limit: nat, victims: set<nat>, staleDays: set<Key>,
                      staleCursors: set<Device>)
    requires IsFirstBatch(ExpiredCursors(p, s, when), limit, staleCursors)
    ensures var (left, bound) := (Retained(s, victims, staleDays, staleCursors).cursors, when - Days(p.aggregateDays));
      && (forall d :: d in left <==> d in s.cursors && d !in staleCursors)
      && (forall d | d in left ::
            && left[d] == s.cursors[d].(interval := left[d].interval)
            && (if s.cursors[d].interval.Some? && s.cursors[d].interval.value in victims then left[d].interval == None
                else left[d].interval == s.cursors[d].interval))
      && |staleCursors| <= limit && (forall d | d in staleCursors :: d in s.cursors && s.cursors[d].last < bound)
      && (forall d | d in left && left[d].last < bound :: |staleCursors| == limit)
  {
    var ranks := ExpiredCursors(p, s, when);
    if |staleCursors| == |ranks| { SameSize(staleCursors, ranks.Keys); }
  }

  // ---- The methods are steps of the ledger --------------------------------------------

  /** Rebuilding a day is the ledger's lock, read and commit. */
  lemma RebuildIsThreeSteps(p: Policy, g: Ledger, k: Key, when: Instant, row: DayRow)
    requires ValidPolicy(p) && k in g.store.days && g.store.days[k].dirty && k !in g.locks
    requires Rebuilt(p, g.store.intervals, g.store.days[k], k, when, row)
    ensures Enabled(p, g, LockDay(k, when))
    ensures var payload := if |Touching(p, g.store.intervals, k)| > LIMIT then None else row.payload;
      var g1 := Next(p, g, LockDay(k, when));
      && Enabled(p, g1, ReadDay(k, payload))
      && var g2 := Next(p, g1, ReadDay(k, payload));
      && Enabled(p, g2, CommitDay(k))
      && Next(p, g2, CommitDay(k)) == g.(store := g.store.(days := g.store.days[k := row]))
  {
    var g1 := Next(p, g, LockDay(k, when));
    var payload := if |Touching(p, g.store.intervals, k)| > LIMIT then None else row.payload;
    var g2 := Next(p, g1, ReadDay(k, payload));
    assert Next(p, g2, CommitDay(k)).locks == g.locks;
  }

  /** What the retention job deletes, in whatever batches, the ledger allows it to delete, also
      while rebuilds hold rows: only a held row itself is waited for. */
  lemma RetentionIsOneStep(p: Policy, g: Ledger, victims: set<nat>, staleDays: set<Key>, staleCursors: set<Device>, when: Instant)
    requires ValidPolicy(p) && g.now <= when && staleDays !! g.locks.Keys
    requires victims <= Expired(p, g.store, when).Keys
    requires staleDays <= ExpiredDays(p, g.store, when).Keys
    requires staleCursors <= ExpiredCursors(p, g.store, when).Keys
    ensures var e := Retain(victims, staleDays, staleCursors, when);
      Enabled(p, g, e) && Next(p, g, e).store == Retained(g.store, victims, staleDays, staleCursors)
  {
    forall n | n in victims ensures n in Expired(p, g.store, when) {}
    forall k | k in staleDays ensures k in ExpiredDays(p, g.store, when) {}
    forall d | d in staleCursors ensures d in ExpiredCursors(p, g.store, when) {}
  }
}
