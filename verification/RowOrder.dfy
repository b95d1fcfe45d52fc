/** Reading a selection of intervals row by row into start order. */
module RowOrder {
  import opened Activity
  import opened Rollups
  import opened Sweep

  function Placed(rows: seq<Interval>, i: Interval): (at: nat)
    ensures at <= |rows|
  {
    if rows == [] || i.started < rows[0].started then 0 else 1 + Placed(rows[1..], i)
  }

  lemma {:induction false} PlacedSplits(rows: seq<Interval>, i: Interval)
    requires ByStart(rows)
    ensures var at := Placed(rows, i);
      && (forall j | 0 <= j < at :: rows[j].started <= i.started)
      && (forall j | at <= j < |rows| :: i.started <= rows[j].started)
  {
    if rows != [] && i.started >= rows[0].started {
      PlacedSplits(rows[1..], i);
    }
  }

  function InsertAt<T>(xs: seq<T>, at: nat, x: T): (r: seq<T>)
    requires at <= |xs|
    ensures |r| == |xs| + 1 && r[at] == x
    ensures forall j | 0 <= j < at :: r[j] == xs[j]
    ensures forall j | at < j < |r| :: r[j] == xs[j - 1]
  {
    xs[..at] + [x] + xs[at..]
  }

  lemma InsertMembers<T>(xs: seq<T>, at: nat, x: T)
    requires at <= |xs|
    ensures forall y :: y in InsertAt(xs, at, x) <==> y == x || y in xs
  {
    assert xs == xs[..at] + xs[at..];
  }

  lemma InsertLists(ids: seq<nat>, m: map<nat, Interval>, at: nat, n: nat, i: Interval)
    requires Lists(ids, m) && n !in m && at <= |ids|
    ensures Lists(InsertAt(ids, at, n), m[n := i])
  {
    InsertMembers(ids, at, n);
    forall k | 0 <= k < |ids| ensures ids[k] != n { assert ids[k] in ids; }
  }

  lemma InsertByStart(rows: seq<Interval>, i: Interval)
    requires ByStart(rows)
    ensures ByStart(InsertAt(rows, Placed(rows, i), i))
  {
    PlacedSplits(rows, i);
  }

  lemma InsertReads(ids: seq<nat>, m: map<nat, Interval>, rows: seq<Interval>, at: nat, n: nat, i: Interval)
    requires Reads(ids, m, rows) && n !in m && at <= |rows|
    ensures Reads(InsertAt(ids, at, n), m[n := i], InsertAt(rows, at, i))
  {
    InsertLists(ids, m, at, n, i);
    forall k | 0 <= k < |ids| ensures ids[k] in m { assert ids[k] in ids; }
  }

  /** `rows` reads everything found except `rest`, in start order. */
  ghost predicate ReadSoFar(ids: seq<nat>, found: map<nat, Interval>, rest: set<nat>, rows: seq<Interval>) {
    rest <= found.Keys && Reads(ids, found - rest, rows) && ByStart(rows) && |rows| + |rest| == |found|
  }

  lemma ReadOneMore(ids: seq<nat>, found: map<nat, Interval>, rest: set<nat>, rows: seq<Interval>, n: nat)
    requires ReadSoFar(ids, found, rest, rows) && n in rest
    ensures var at := Placed(rows, found[n]);
      ReadSoFar(InsertAt(ids, at, n), found, rest - {n}, InsertAt(rows, at, found[n]))
  {
    InsertReads(ids, found - rest, rows, Placed(rows, found[n]), n, found[n]);
    InsertByStart(rows, found[n]);
    assert found - (rest - {n}) == (found - rest)[n := found[n]];
  }

  lemma {:induction false} ReadRest(ids: seq<nat>, found: map<nat, Interval>, rest: set<nat>, rows: seq<Interval>)
    returns (all: seq<Interval>)
    requires ReadSoFar(ids, found, rest, rows)
    ensures Enumerates(all, found)
    decreases rest
  {
    if rest == {} {
      assert found - rest == found;
      all := rows;
    } else {
      var n := SomeMember(rest);
      var at := Placed(rows, found[n]);
      ReadOneMore(ids, found, rest, rows, n);
      all := ReadRest(InsertAt(ids, at, n), found, rest - {n}, InsertAt(rows, at, found[n]));
    }
  }

  /** Every selection can be read. */
  lemma RowsExist(found: map<nat, Interval>) returns (rows: seq<Interval>)
    ensures Enumerates(rows, found)
  {
    assert found - found.Keys == map[];
    rows := ReadRest([], found, found.Keys, []);
  }
}
