/** The account name a summary displays: the first one in row order.  Rows come by start only, so
    rows that start together may come in either order. */
module Logins {
  import opened Calendar
  import opened Activity

  datatype Row = Row(started: Instant, login: Option<string>)

  /** An empty name is no name. */
  predicate Named(r: Row) { r.login.Some? && r.login.value != "" }

  function DisplayedLogin(rows: seq<Row>): Option<string> {
    if rows == [] then None else if Named(rows[0]) then rows[0].login else DisplayedLogin(rows[1..])
  }

  ghost predicate ByStart(rows: seq<Row>) {
    forall i, j | 0 <= i < j < |rows| :: rows[i].started <= rows[j].started
  }

  /** `r` is named, and nothing named starts earlier. */
  ghost predicate Earliest(rows: seq<Row>, r: Row) {
    r in rows && Named(r) && forall q | q in rows && Named(q) :: r.started <= q.started
  }

  /** All rows that may come first carry the same name. */
  ghost predicate EarliestAgree(rows: seq<Row>) {
    forall r, q | Earliest(rows, r) && Earliest(rows, q) :: r.login == q.login
  }

  ghost predicate SameInAnyOrder(rows: seq<Row>) {
    forall other: seq<Row> | multiset(other) == multiset(rows) && ByStart(other) ::
      DisplayedLogin(other) == DisplayedLogin(rows)
  }

  lemma {:induction false} DisplayedIsEarliest(rows: seq<Row>) returns (r: Row)
    requires ByStart(rows) && exists q :: q in rows && Named(q)
    ensures Earliest(rows, r) && DisplayedLogin(rows) == r.login
  {
    assert rows == [rows[0]] + rows[1..];
    if Named(rows[0]) {
      r := rows[0];
    } else {
      var q :| q in rows && Named(q);
      assert q in rows[1..];
      r := DisplayedIsEarliest(rows[1..]);
    }
  }

  /** The displayed account is never an empty text, and is missing exactly if no row has one. */
  lemma {:induction false} DisplaysSomeName(rows: seq<Row>)
    ensures DisplayedLogin(rows) != Some("")
    ensures DisplayedLogin(rows).None? <==> forall i | 0 <= i < |rows| :: rows[i].login.None? || rows[i].login == Some("")
  {
    if rows != [] { DisplaysSomeName(rows[1..]); }
  }

  lemma {:induction false} NobodyNamed(rows: seq<Row>)
    requires forall q | q in rows :: !Named(q)
    ensures DisplayedLogin(rows) == None
  {
    if rows != [] { NobodyNamed(rows[1..]); }
  }

  lemma SameRows(rows: seq<Row>, other: seq<Row>)
    requires multiset(other) == multiset(rows)
    ensures forall q :: q in other <==> q in rows
  {
    forall q ensures q in other <==> q in rows {
      assert q in multiset(other) <==> q in multiset(rows);
    }
  }

  lemma AgreeingRows(rows: seq<Row>, other: seq<Row>)
    requires ByStart(rows) && EarliestAgree(rows) && multiset(other) == multiset(rows) && ByStart(other)
    ensures DisplayedLogin(other) == DisplayedLogin(rows)
  {
    SameRows(rows, other);
    if exists q :: q in rows && Named(q) {
      var q :| q in rows && Named(q);
      var r := DisplayedIsEarliest(rows);
      var r' := DisplayedIsEarliest(other);
      assert Earliest(rows, r');
    } else {
      NobodyNamed(rows);
      NobodyNamed(other);
    }
  }

  /** Nothing from `from` on starts before `r`, and everything before it does. */
  function StartOf(rows: seq<Row>, r: Row): (at: nat)
    ensures at <= |rows|
  {
    if rows == [] || r.started <= rows[0].started then 0 else 1 + StartOf(rows[1..], r)
  }

  lemma {:induction false} StartSplits(rows: seq<Row>, r: Row)
    requires ByStart(rows)
    ensures var at := StartOf(rows, r);
      && (forall j | 0 <= j < at :: rows[j].started < r.started)
      && (forall j | at <= j < |rows| :: r.started <= rows[j].started)
  {
    if rows != [] && r.started > rows[0].started { StartSplits(rows[1..], r); }
  }

  lemma {:induction false} SkipUnnamed(before: seq<Row>, rest: seq<Row>)
    requires forall j | 0 <= j < |before| :: !Named(before[j])
    ensures DisplayedLogin(before + rest) == DisplayedLogin(rest)
  {
    if before == [] {
      assert before + rest == rest;
    } else {
      assert (before + rest)[1..] == before[1..] + rest;
      SkipUnnamed(before[1..], rest);
    }
  }

  lemma RemoveOne(rows: seq<Row>, r: Row) returns (rest: seq<Row>)
    requires ByStart(rows) && r in rows
    ensures ByStart(rest) && multiset(rest) + multiset{r} == multiset(rows)
  {
    var i :| 0 <= i < |rows| && rows[i] == r;
    rest := rows[..i] + rows[i + 1..];
    assert rows == rows[..i] + [r] + rows[i + 1..];
  }

  lemma PutBetween(before: seq<Row>, r: Row, after: seq<Row>)
    requires ByStart(before + after)
    requires forall j | 0 <= j < |before| :: before[j].started <= r.started
    requires forall j | 0 <= j < |after| :: r.started <= after[j].started
    ensures ByStart(before + ([r] + after))
    ensures multiset(before + ([r] + after)) == multiset(before + after) + multiset{r}
  {
    var (all, put, n) := (before + after, before + ([r] + after), |before|);
    forall j | 0 <= j < |put| && j != n ensures put[j] == all[if j < n then j else j - 1] {
    }
    forall j | 0 <= j < |after| ensures put[n + 1 + j] == after[j] {
    }
  }

  lemma NoneNamedBefore(rows: seq<Row>, before: seq<Row>, r: Row)
    requires Earliest(rows, r) && forall j | 0 <= j < |before| :: before[j].started < r.started && before[j] in rows
    ensures forall j | 0 <= j < |before| :: !Named(before[j])
  {
  }

  /** Any earliest row can come first of all named ones. */
  lemma CanBeDisplayed(rows: seq<Row>, r: Row) returns (other: seq<Row>)
    requires ByStart(rows) && Earliest(rows, r)
    ensures multiset(other) == multiset(rows) && ByStart(other) && DisplayedLogin(other) == r.login
  {
    var rest := RemoveOne(rows, r);
    var at := StartOf(rest, r);
    StartSplits(rest, r);
    var (before, after) := (rest[..at], rest[at..]);
    assert rest == before + after;
    PutBetween(before, r, after);
    other := before + ([r] + after);
    SameRows(rows, other);
    assert forall j | 0 <= j < |before| :: before[j] in other;
    NoneNamedBefore(rows, before, r);
    SkipUnnamed(before, [r] + after);
  }

  /** The displayed account depends on the order of rows that start together exactly when two rows
      that may come first carry different names. */
  lemma LoginStableExactlyWhenEarliestAgree(rows: seq<Row>)
    requires ByStart(rows)
    ensures SameInAnyOrder(rows) <==> EarliestAgree(rows)
  {
    if EarliestAgree(rows) {
      forall other: seq<Row> | multiset(other) == multiset(rows) && ByStart(other)
        ensures DisplayedLogin(other) == DisplayedLogin(rows)
      {
        AgreeingRows(rows, other);
      }
    } else {
      var r, q :| Earliest(rows, r) && Earliest(rows, q) && r.login != q.login;
      var other := CanBeDisplayed(rows, r);
      var another := CanBeDisplayed(rows, q);
    }
  }
}
