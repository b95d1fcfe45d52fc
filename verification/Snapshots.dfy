/** Activity snapshots: of the accepted observations only the material changes are stored, and the
    current projection always is the latest accepted one. */
module Snapshots {
  import opened Calendar
  import opened Activity

  // ---- Observations -------------------------------------------------------------------

  datatype Browser = Browser(family: string, origin: Option<string>, domain: Option<string>, sensor: string, version: Option<string>)

  /** What the semantic hash covers; the hash is taken to be injective. */
  datatype Meaning = Meaning(state: State, user: Option<string>, process: Option<string>, category: Option<string>, browser: Option<Browser>)

  datatype Observation = Observation(
    id: nat, at: Instant, state: State, idleSeconds: Option<nat>,
    user: Option<string>, process: Option<string>, category: Option<string>, browser: Option<Browser>)

  /** An interactive session counts as idle from the policy's threshold on. */
  function EffectiveState(o: Observation, threshold: int): State {
    if (o.state == ACTIVE || o.state == IDLE) && o.idleSeconds.Some? then
      (if o.idleSeconds.value >= threshold then IDLE else ACTIVE)
    else o.state
  }

  /** The stored projection of an accepted observation. */
  datatype Projection = Projection(at: Instant, meaning: Meaning)

  function Project(o: Observation, threshold: int): Projection {
    Projection(o.at, Meaning(EffectiveState(o, threshold), o.user, o.process, o.category, o.browser))
  }

  /** The pointer row: the snapshot it names (by position), the latest projection, and when the
      device was last heard. */
  datatype Pointer = Pointer(snapshot: nat, projection: Option<Projection>, heard: Instant)

  datatype Context = Context(snapshots: seq<Projection>, current: Option<Pointer>, keys: set<nat>)

  ghost predicate PointerValid(c: Context) { c.current.Some? ==> c.current.value.snapshot < |c.snapshots| }

  datatype Verdict = Invalid | Unchanged | Stored(snapshot: Projection)

  predicate InBounds(threshold: int, at: Instant, received: Instant) {
    60 <= threshold <= 3600 && received - Days(1) <= at <= received + Seconds(300)
  }

  /** The time of the newest observation already reflected in the pointer. */
  function LatestAt(c: Context): Option<Instant>
    requires PointerValid(c)
  {
    match c.current
    case None => None
    case Some(p) => Some(if p.projection.Some? then p.projection.value.at else c.snapshots[p.snapshot].at)
  }

  predicate Late(c: Context, o: Observation)
    requires PointerValid(c)
  {
    LatestAt(c).Some? && o.at <= LatestAt(c).value
  }

  /** The observation becomes the device's current activity. */
  predicate Accepts(c: Context, o: Observation, threshold: int, received: Instant)
    requires PointerValid(c)
  {
    InBounds(threshold, o.at, received) && !Late(c, o) && o.id !in c.keys
  }

  function Later(a: Instant, b: Instant): Instant { if a < b then b else a }

  /** A snapshot moves the pointer only if it was collected strictly later. */
  function Advance(c: Context, n: nat, received: Instant): Pointer
    requires PointerValid(c) && n < |c.snapshots|
  {
    match c.current
    case None => Pointer(n, None, received)
    case Some(p) =>
      var heard := Later(p.heard, received);
      if c.snapshots[n].at <= c.snapshots[p.snapshot].at then p.(heard := heard) else p.(snapshot := n, heard := heard)
  }

  /** Accepting an observation: a new snapshot only if its meaning differs from the current one. */
  function Accept(c: Context, o: Observation, threshold: int, received: Instant): (Context, Verdict)
    requires PointerValid(c)
  {
    var shown := Project(o, threshold);
    if c.current.Some? && c.snapshots[c.current.value.snapshot].meaning == shown.meaning then
      var p := c.current.value;
      (c.(current := Some(p.(projection := Some(shown), heard := Later(p.heard, received)))), Unchanged)
    else
      var added := c.(snapshots := c.snapshots + [shown], keys := c.keys + {o.id});
      var p := Advance(added, |c.snapshots|, received);
      (added.(current := Some(p.(projection := Some(shown)))), Stored(shown))
  }

  function Ingest(c: Context, o: Observation, threshold: int, received: Instant): (Context, Verdict)
    requires PointerValid(c)
  {
    if !InBounds(threshold, o.at, received) then (c, Invalid)
    else if Late(c, o) then
      if o.at == LatestAt(c).value then (c.(current := Some(c.current.value.(heard := Later(c.current.value.heard, received)))), Unchanged)
      else (c, Unchanged)
    else if o.id in c.keys then (c, Unchanged)
    else Accept(c, o, threshold, received)
  }

  // ---- Run-length compression ---------------------------------------------------------

  /** Keep the first observation of every stretch of equal meaning. */
  function Compress(h: seq<Projection>): seq<Projection> {
    if |h| <= 1 then h
    else if h[|h| - 1].meaning == h[|h| - 2].meaning then Compress(h[..|h| - 1])
    else Compress(h[..|h| - 1]) + [h[|h| - 1]]
  }

  ghost predicate Ascending(h: seq<Projection>) { forall i, j | 0 <= i < j < |h| :: h[i].at < h[j].at }

  /** The stored state is the compression of the accepted history `h`. */
  ghost predicate Reflects(c: Context, h: seq<Projection>) {
    && Ascending(h) && c.snapshots == Compress(h)
    && (h == [] ==> c.current == None)
    && (h != [] ==>
          && c.current.Some? && |c.snapshots| > 0
          && c.current.value.snapshot == |c.snapshots| - 1
          && c.current.value.projection == Some(h[|h| - 1]))
  }

  lemma {:induction false} CompressLast(h: seq<Projection>)
    requires h != []
    ensures var s := Compress(h); s != [] && s[|s| - 1].meaning == h[|h| - 1].meaning
  {
    if |h| > 1 && h[|h| - 1].meaning == h[|h| - 2].meaning { CompressLast(h[..|h| - 1]); }
  }

  lemma {:induction false} CompressFrom(h: seq<Projection>, k: nat)
    requires k < |Compress(h)|
    ensures Compress(h)[k] in h
  {
    if |h| > 1 {
      var before := h[..|h| - 1];
      if k < |Compress(before)| { CompressFrom(before, k); }
    }
  }

  /** Snapshots are in time order, and neighbours never mean the same. */
  lemma {:induction false} CompressionIsTight(h: seq<Projection>)
    requires Ascending(h)
    ensures Ascending(Compress(h))
    ensures forall k | 0 < k < |Compress(h)| :: Compress(h)[k].meaning != Compress(h)[k - 1].meaning
  {
    if |h| > 1 {
      var (n, before) := (|h| - 1, h[..|h| - 1]);
      CompressionIsTight(before);
      CompressLast(before);
      forall k | 0 <= k < |Compress(before)| ensures Compress(before)[k].at < h[n].at {
        CompressFrom(before, k);
      }
    }
  }

  /** Snapshot `k` is the newest one at or before `t`. */
  ghost predicate NewestAt(s: seq<Projection>, k: nat, t: Instant) {
    k < |s| && s[k].at <= t && (k + 1 < |s| ==> t < s[k + 1].at)
  }

  /** Nothing is lost: every accepted observation means what the newest snapshot at its time says. */
  lemma {:induction false} CompressionIsLossless(h: seq<Projection>, i: nat) returns (k: nat)
    requires Ascending(h) && i < |h|
    ensures NewestAt(Compress(h), k, h[i].at) && Compress(h)[k].meaning == h[i].meaning
  {
    var (n, s) := (|h| - 1, Compress(h));
    if |h| == 1 {
      k := 0;
    } else {
      var before := h[..n];
      CompressLast(before);
      if i < n {
        k := CompressionIsLossless(before, i);
      } else if h[n].meaning == h[n - 1].meaning {
        k := CompressionIsLossless(before, n - 1);
        LastIsNewest(before, k);
      } else {
        k := |s| - 1;
      }
    }
  }

  lemma LastIsNewest(h: seq<Projection>, k: nat)
    requires Ascending(h) && h != [] && NewestAt(Compress(h), k, h[|h| - 1].at)
    ensures k == |Compress(h)| - 1
  {
    forall j | 0 <= j < |Compress(h)| ensures Compress(h)[j].at <= h[|h| - 1].at {
      CompressFrom(h, j);
    }
  }

  // ---- Ingestion ----------------------------------------------------------------------

  /** The history after one more observation. */
  function Heard(c: Context, h: seq<Projection>, o: Observation, threshold: int, received: Instant): seq<Projection>
    requires PointerValid(c)
  {
    if Accepts(c, o, threshold, received) then h + [Project(o, threshold)] else h
  }

  lemma CompressSnoc(h: seq<Projection>, x: Projection)
    ensures Compress(h + [x])
         == if h != [] && h[|h| - 1].meaning == x.meaning then Compress(h) else Compress(h) + [x]
  {
    assert (h + [x])[..|h|] == h;
  }

  lemma FirstAccepted(c: Context, o: Observation, threshold: int, received: Instant)
    requires PointerValid(c) && Reflects(c, [])
    ensures var c' := Accept(c, o, threshold, received).0;
      PointerValid(c') && Reflects(c', [Project(o, threshold)])
  {
  }

  /** A later observation of the same meaning only moves the projection. */
  lemma SameMeaningAccepted(c: Context, h: seq<Projection>, o: Observation, threshold: int, received: Instant)
    requires PointerValid(c) && Reflects(c, h) && h != [] && h[|h| - 1].at < o.at
    requires h[|h| - 1].meaning == Project(o, threshold).meaning
    ensures var c' := Accept(c, o, threshold, received).0;
      PointerValid(c') && Reflects(c', h + [Project(o, threshold)])
  {
    CompressLast(h);
    CompressSnoc(h, Project(o, threshold));
  }

  /** A later observation of another meaning becomes a snapshot, and the pointer moves to it. */
  lemma ChangeAccepted(c: Context, h: seq<Projection>, o: Observation, threshold: int, received: Instant)
    requires PointerValid(c) && Reflects(c, h) && h != [] && h[|h| - 1].at < o.at
    requires h[|h| - 1].meaning != Project(o, threshold).meaning
    ensures var c' := Accept(c, o, threshold, received).0;
      PointerValid(c') && Reflects(c', h + [Project(o, threshold)])
  {
    CompressLast(h);
    CompressSnoc(h, Project(o, threshold));
    CompressFrom(h, |Compress(h)| - 1);
    assert c.snapshots[|c.snapshots| - 1].at < o.at;
  }

  /** Each observation keeps the stored state the compression of what was accepted. */
  lemma IngestReflects(c: Context, h: seq<Projection>, o: Observation, threshold: int, received: Instant)
    requires PointerValid(c) && Reflects(c, h)
    ensures var c' := Ingest(c, o, threshold, received).0;
      PointerValid(c') && Reflects(c', Heard(c, h, o, threshold, received))
  {
    if Accepts(c, o, threshold, received) {
      if h == [] {
        FirstAccepted(c, o, threshold, received);
        assert h + [Project(o, threshold)] == [Project(o, threshold)];
      } else if h[|h| - 1].meaning == Project(o, threshold).meaning {
        SameMeaningAccepted(c, h, o, threshold, received);
      } else {
        ChangeAccepted(c, h, o, threshold, received);
      }
    }
  }

  // ---- What one observation does, said outright ---------------------------------------

  predicate Interactive(s: State) { s == ACTIVE || s == IDLE }

  /** An observation is accepted exactly if the threshold and its time are within bounds, it is later
      than everything accepted before, and no stored snapshot came from it; it is then shown with
      its own fields, an interactive session as IDLE exactly from the threshold on. */
  lemma ObservationAccepted(c: Context, h: seq<Projection>, o: Observation, threshold: int, received: Instant)
    requires PointerValid(c) && Reflects(c, h)
    ensures var (c', _) := Ingest(c, o, threshold, received);
      var h' := Heard(c, h, o, threshold, received);
      if 60 <= threshold <= 3600 && received - Days(1) <= o.at <= received + Seconds(300)
         && (h != [] ==> h[|h| - 1].at < o.at) && o.id !in c.keys
      then
        && |h'| == |h| + 1 && h' == h + [h'[|h|]] && c'.current.Some? && c'.current.value.projection == Some(h'[|h|])
        && var x := h'[|h|];
        && x.at == o.at && x.meaning.user == o.user && x.meaning.process == o.process
        && x.meaning.category == o.category && x.meaning.browser == o.browser
        && (if Interactive(o.state) && o.idleSeconds.Some?
            then (x.meaning.state == IDLE <==> threshold <= o.idleSeconds.value) && Interactive(x.meaning.state)
            else x.meaning.state == o.state)
      else h' == h && c'.snapshots == c.snapshots && c'.keys == c.keys
  {
    IngestReflects(c, h, o, threshold, received);
  }

  lemma CurrentMeaning(c: Context, h: seq<Projection>)
    requires PointerValid(c) && Reflects(c, h)
    ensures h == [] <==> c.current.None?
    ensures h != [] ==> c.snapshots[c.current.value.snapshot].meaning == h[|h| - 1].meaning && LatestAt(c) == Some(h[|h| - 1].at)
  {
    if h != [] { CompressLast(h); }
  }

  /** Its verdict tells which: refused out of bounds, a new snapshot exactly for an accepted change of
      meaning, and then its id is remembered; otherwise nothing new is stored. */
  lemma ObservationVerdict(c: Context, h: seq<Projection>, o: Observation, threshold: int, received: Instant)
    requires PointerValid(c) && Reflects(c, h)
    ensures var (c', verdict) := Ingest(c, o, threshold, received);
      var h' := Heard(c, h, o, threshold, received);
      && (verdict.Invalid? <==> !(60 <= threshold <= 3600 && received - Days(1) <= o.at <= received + Seconds(300)))
      && (verdict.Stored? <==> |h'| > |h| && (h == [] || h[|h| - 1].meaning != h'[|h|].meaning))
      && (if verdict.Stored? then c'.keys == c.keys + {o.id} && c'.snapshots == c.snapshots + [verdict.snapshot] && verdict.snapshot == h'[|h|]
          else c'.keys == c.keys && c'.snapshots == c.snapshots)
  {
    CurrentMeaning(c, h);
  }

  /** The device counts as heard at the arrival of any observation that is not older than what is
      shown and not a repetition of a stored one, and is never heard earlier than before. */
  lemma ObservationHeard(c: Context, h: seq<Projection>, o: Observation, threshold: int, received: Instant)
    requires PointerValid(c) && Reflects(c, h)
    ensures h == [] && Ingest(c, o, threshold, received).0.current.Some? ==>
      Ingest(c, o, threshold, received).0.current.value.heard == received
    ensures h != [] ==>
      var c' := Ingest(c, o, threshold, received).0;
      var live := 60 <= threshold <= 3600 && received - Days(1) <= o.at <= received + Seconds(300)
                  && (o.at == h[|h| - 1].at || (h[|h| - 1].at < o.at && o.id !in c.keys));
      c'.current.Some?
      && (if live then c.current.value.heard <= c'.current.value.heard && received <= c'.current.value.heard
                       && c'.current.value.heard in {c.current.value.heard, received}
          else c'.current.value.heard == c.current.value.heard)
  {
    CurrentMeaning(c, h);
  }

  /** The pointer never goes back: neither the snapshot it names nor the projection it shows. */
  lemma PointerAdvances(c: Context, h: seq<Projection>, o: Observation, threshold: int, received: Instant)
    requires PointerValid(c) && Reflects(c, h) && c.current.Some?
    ensures var c' := Ingest(c, o, threshold, received).0;
      && c'.current.Some?
      && c'.current.value.snapshot < |c'.snapshots|
      && c.snapshots[c.current.value.snapshot].at <= c'.snapshots[c'.current.value.snapshot].at
      && LatestAt(c).value <= LatestAt(c').value
      && c.current.value.heard <= c'.current.value.heard
  {
    IngestReflects(c, h, o, threshold, received);
    CompressFrom(h, |Compress(h)| - 1);
  }

  datatype Arrival = Arrival(observation: Observation, threshold: int, received: Instant)

  /** The stored state and the accepted history after a sequence of arrivals. */
  function After(arrivals: seq<Arrival>): (r: (Context, seq<Projection>))
    ensures PointerValid(r.0) && Reflects(r.0, r.1)
  {
    if arrivals == [] then (Context([], None, {}), [])
    else
      var ((c, h), a) := (After(arrivals[..|arrivals| - 1]), arrivals[|arrivals| - 1]);
      IngestReflects(c, h, a.observation, a.threshold, a.received);
      (Ingest(c, a.observation, a.threshold, a.received).0, Heard(c, h, a.observation, a.threshold, a.received))
  }

  /** For every sequence of arrivals: snapshots tighten and lose nothing, and the projection shown
      is the latest accepted observation. */
  lemma StoredIsCompressedHistory(arrivals: seq<Arrival>, i: nat) returns (k: nat)
    requires i < |After(arrivals).1|
    ensures var (c, h) := After(arrivals);
      && NewestAt(c.snapshots, k, h[i].at) && c.snapshots[k].meaning == h[i].meaning
      && (forall j | 0 < j < |c.snapshots| ::
            c.snapshots[j - 1].at < c.snapshots[j].at && c.snapshots[j].meaning != c.snapshots[j - 1].meaning)
      && c.current.Some? && c.current.value.projection == Some(h[|h| - 1])
  {
    var (c, h) := After(arrivals);
    CompressionIsTight(h);
    k := CompressionIsLossless(h, i);
  }

  // ---- The pointer of any profile -----------------------------------------------------

  /** A collection completes: its snapshot, by position, and when the server heard of it. */
  datatype Offer = Offer(snapshot: nat, received: Instant)

  ghost predicate Offerable(snapshots: seq<Projection>, offers: seq<Offer>) {
    forall i | 0 <= i < |offers| :: offers[i].snapshot < |snapshots|
  }

  /** The pointer after snapshots were offered to it in the order their collections completed. */
  function Offered(snapshots: seq<Projection>, offers: seq<Offer>): (r: Option<Pointer>)
    requires Offerable(snapshots, offers)
    ensures r.Some? ==> r.value.snapshot < |snapshots|
  {
    if offers == [] then None
    else
      var last := offers[|offers| - 1];
      Some(Advance(Context(snapshots, Offered(snapshots, offers[..|offers| - 1]), {}), last.snapshot, last.received))
  }

  /** `j` is the first offer of a snapshot that none was collected later than. */
  ghost predicate FirstNewest(snapshots: seq<Projection>, offers: seq<Offer>, j: nat)
    requires Offerable(snapshots, offers)
  {
    && j < |offers|
    && (forall i | 0 <= i < |offers| :: snapshots[offers[i].snapshot].at <= snapshots[offers[j].snapshot].at)
    && (forall i | 0 <= i < j :: snapshots[offers[i].snapshot].at < snapshots[offers[j].snapshot].at)
  }

  /** In whatever order collections complete, the current row names the newest snapshot, the first
      such one if several are equally new, and was heard at the latest arrival. */
  lemma {:induction false} PointerNamesFirstNewest(snapshots: seq<Projection>, offers: seq<Offer>) returns (j: nat)
    requires Offerable(snapshots, offers) && offers != []
    ensures var p := Offered(snapshots, offers).value;
      && FirstNewest(snapshots, offers, j) && p.snapshot == offers[j].snapshot
      && (forall i | 0 <= i < |offers| :: offers[i].received <= p.heard)
      && (exists i :: 0 <= i < |offers| && offers[i].received == p.heard)
  {
    var n := |offers| - 1;
    if n == 0 {
      j := 0;
      assert offers[0].received == Offered(snapshots, offers).value.heard;
    } else {
      var before := offers[..n];
      j := PointerNamesFirstNewest(snapshots, before);
      var was := Offered(snapshots, before).value;
      var i :| 0 <= i < |before| && before[i].received == was.heard;
      assert offers[i].received == was.heard && offers[n].received <= Offered(snapshots, offers).value.heard;
      if snapshots[was.snapshot].at < snapshots[offers[n].snapshot].at { j := n; }
    }
  }

  // ---- The device's rows, updated in place --------------------------------------------

  class ActivityContext {
    var snapshots: seq<Projection>
    var current: Option<Pointer>
    var keys: set<nat>

    function Contents(): Context
      reads this
    {
      Context(snapshots, current, keys)
    }

    constructor ()
      ensures Contents() == Context([], None, {})
    {
      snapshots, current, keys := [], None, {};
    }

    method IngestActivityObservation(o: Observation, threshold: int, received: Instant) returns (verdict: Verdict)
      requires PointerValid(Contents())
      modifies this
      ensures (Contents(), verdict) == Ingest(old(Contents()), o, threshold, received)
    {
      if !InBounds(threshold, o.at, received) { return Invalid; }
      var latest := LatestAt(Contents());
      if latest.Some? && o.at <= latest.value {
        if latest.value == o.at && received > current.value.heard {
          current := Some(current.value.(heard := received));
        }
        return Unchanged;
      }
      if o.id in keys { return Unchanged; }
      var shown := Project(o, threshold);
      if current.Some? && snapshots[current.value.snapshot].meaning == shown.meaning {
        var heard := if received > current.value.heard then received else current.value.heard;
        current := Some(current.value.(projection := Some(shown), heard := heard));
        return Unchanged;
      }
      keys := keys + {o.id};
      snapshots := snapshots + [shown];
      current := Some(Advance(Contents(), |snapshots| - 1, received));
      current := Some(current.value.(projection := Some(shown)));
      verdict := Stored(shown);
    }
  }
}
