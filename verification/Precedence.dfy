/** Which of several overlapping rows counts, said outright: ACTIVE wins, then IDLE, LOCKED,
    DISCONNECTED and UNKNOWN; among rows of one state the least device, then the first row. */
module Precedence {
  import opened Calendar
  import opened Activity
  import opened Measure
  import opened Sweep
  import opened Summaries
  import opened Conservation

  ghost predicate ShowsState(rows: seq<Interval>, lo: Instant, hi: Instant, t: Instant, s: State) {
    exists i :: Covers(rows, lo, hi, i, t) && rows[i].reading.state == s
  }

  /** Some row shows `s` at `t`, and none shows anything that wins over it. */
  ghost predicate Wins(rows: seq<Interval>, lo: Instant, hi: Instant, t: Instant, s: State) {
    && ShowsState(rows, lo, hi, t, s)
    && (s != ACTIVE ==> !ShowsState(rows, lo, hi, t, ACTIVE))
    && (s in {LOCKED, DISCONNECTED, UNKNOWN} ==> !ShowsState(rows, lo, hi, t, IDLE))
    && (s in {DISCONNECTED, UNKNOWN} ==> !ShowsState(rows, lo, hi, t, LOCKED))
    && (s == UNKNOWN ==> !ShowsState(rows, lo, hi, t, DISCONNECTED))
  }

  /** Of the rows of its state that cover `t`, row `w` has the least device and comes first. */
  ghost predicate LeastOfItsState(rows: seq<Interval>, lo: Instant, hi: Instant, t: Instant, w: int)
    requires 0 <= w < |rows|
  {
    forall i | Covers(rows, lo, hi, i, t) && rows[i].reading.state == rows[w].reading.state ::
      rows[w].device < rows[i].device || (rows[w].device == rows[i].device && w <= i)
  }

  lemma OwnerWins(rows: seq<Interval>, lo: Instant, hi: Instant, t: Instant, w: int)
    requires Owns(rows, lo, hi, t, w)
    ensures Wins(rows, lo, hi, t, rows[w].reading.state) && LeastOfItsState(rows, lo, hi, t, w)
  {
    forall i | Covers(rows, lo, hi, i, t) && i != w ensures Beats(rows, w, i) {
    }
  }

  lemma WinnerOwns(rows: seq<Interval>, lo: Instant, hi: Instant, t: Instant, w: int)
    requires Covers(rows, lo, hi, w, t) && Wins(rows, lo, hi, t, rows[w].reading.state) && LeastOfItsState(rows, lo, hi, t, w)
    ensures Owns(rows, lo, hi, t, w)
  {
    forall i | Covers(rows, lo, hi, i, t) && i != w ensures Beats(rows, w, i) {
      assert ShowsState(rows, lo, hi, t, rows[i].reading.state);
    }
  }

  /** The pointwise rule of the sweep is that order, and nothing else. */
  lemma OwnsExactlyIfItWins(rows: seq<Interval>, lo: Instant, hi: Instant, t: Instant, w: int)
    requires Covers(rows, lo, hi, w, t)
    ensures Owns(rows, lo, hi, t, w) <==>
      Wins(rows, lo, hi, t, rows[w].reading.state) && LeastOfItsState(rows, lo, hi, t, w)
  {
    if Owns(rows, lo, hi, t, w) { OwnerWins(rows, lo, hi, t, w); }
    if Wins(rows, lo, hi, t, rows[w].reading.state) && LeastOfItsState(rows, lo, hi, t, w) { WinnerOwns(rows, lo, hi, t, w); }
  }

  /** At each instant of a swept segment the winner covers it and shows the winning state. */
  lemma SegmentWinner(rows: seq<Interval>, lo: Instant, hi: Instant, segs: seq<Segment>, k: nat, t: Instant)
    requires Refines(rows, lo, hi, segs) && k < |segs| && InSegment(segs[k], t)
    ensures var w := segs[k].winner;
      && Covers(rows, lo, hi, w, t) && Wins(rows, lo, hi, t, rows[w].reading.state) && LeastOfItsState(rows, lo, hi, t, w)
      && (segs[k].overlap <==> exists i :: Covers(rows, lo, hi, i, t) && i != w)
  {
    assert Owned(rows, lo, hi, segs[k]);
    OwnerWins(rows, lo, hi, t, segs[k].winner);
  }

  ghost function WinningAt(rows: seq<Interval>, lo: Instant, hi: Instant, s: State): Instant -> bool {
    t => Wins(rows, lo, hi, t, s)
  }

  lemma ShowingExactlyIfItWins(rows: seq<Interval>, lo: Instant, hi: Instant, s: State, t: Instant)
    ensures Showing(rows, lo, hi, InState(s))(t) == Wins(rows, lo, hi, t, s)
  {
    if Showing(rows, lo, hi, InState(s))(t) {
      var w :| Owns(rows, lo, hi, t, w) && InState(s)(rows[w]);
      OwnerWins(rows, lo, hi, t, w);
    }
    if Wins(rows, lo, hi, t, s) {
      var w := OwnerExists(rows, lo, hi, t);
      OwnerWins(rows, lo, hi, t, w);
      assert ShowsState(rows, lo, hi, t, rows[w].reading.state);
    }
  }

  /** The seconds of a state are the instants at which it wins: of ACTIVE, all at which some row
      shows it; of UNKNOWN also the silent ones inside the span. */
  lemma SecondsAreWins(rows: seq<Interval>, lo: Instant, hi: Instant, v: Summary, s: State)
    requires Summarizes(rows, lo, hi, v)
    ensures v.seconds[s] == Count(lo, hi, WinningAt(rows, lo, hi, s))
                            + if s == UNKNOWN then Count(lo, hi, Uncovered(rows, lo, hi)) else 0
  {
    forall t | lo <= t < hi ensures Showing(rows, lo, hi, InState(s))(t) == WinningAt(rows, lo, hi, s)(t) {
      ShowingExactlyIfItWins(rows, lo, hi, s, t);
    }
    CountSame(lo, hi, Showing(rows, lo, hi, InState(s)), WinningAt(rows, lo, hi, s));
  }
}
