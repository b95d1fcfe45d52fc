/** The update adapter's two journals.  Each call is one or two journal transactions around an
    HTTP exchange during which any other process may run its own. */
module Journals {
  import opened Activity

  // ---- Terminal reports ---------------------------------------------------------------

  /** What a terminal report says; it is the identity of its record. */
  datatype Claim = Claim(operation: string, status: string, version: string, code: string)

  datatype Report = Report(claim: Claim, key: nat, delivered: Option<int>)

  /** Position of the first record that makes the claim. */
  function FindClaim(journal: seq<Report>, c: Claim): (r: Option<nat>)
    ensures r.Some? ==> r.value < |journal| && journal[r.value].claim == c && forall j | 0 <= j < r.value :: journal[j].claim != c
    ensures r.None? <==> forall i | 0 <= i < |journal| :: journal[i].claim != c
  {
    if journal == [] then None
    else if journal[0].claim == c then Some(0)
    else match FindClaim(journal[1..], c) case None => None case Some(i) => Some(i + 1)
  }

  function FindKey(journal: seq<Report>, key: nat): (r: Option<nat>)
    ensures r.Some? ==> r.value < |journal| && journal[r.value].key == key && forall j | 0 <= j < r.value :: journal[j].key != key
    ensures r.None? <==> forall i | 0 <= i < |journal| :: journal[i].key != key
  {
    if journal == [] then None
    else if journal[0].key == key then Some(0)
    else match FindKey(journal[1..], key) case None => None case Some(i) => Some(i + 1)
  }

  /** Load the record of a claim, creating it with a new key if there is none. */
  function LoadOrCreate(journal: seq<Report>, c: Claim, newKey: nat): (r: (seq<Report>, Report))
    ensures r.1.claim == c && r.1 in r.0 && journal <= r.0
    ensures (exists i :: 0 <= i < |journal| && journal[i].claim == c) ==> r.0 == journal
    ensures r.0 != journal ==> r.0 == journal + [r.1] && r.1.key == newKey && r.1.delivered.None?
  {
    match FindClaim(journal, c)
    case Some(i) => (journal, journal[i])
    case None => (journal + [Report(c, newKey, None)], Report(c, newKey, None))
  }

  /** Merge a confirmed delivery into the journal as it is now. */
  function Deliver(journal: seq<Report>, sent: Report, now: int): (r: Option<seq<Report>>)
    ensures r.Some? ==> |r.value| == |journal|
  {
    match FindKey(journal, sent.key)
    case None => None
    case Some(i) =>
      if journal[i].claim != sent.claim then None
      else if journal[i].delivered.Some? then Some(journal)
      else Some(journal[i := journal[i].(delivered := Some(now))])
  }

  // ---- Scheduled handoffs -------------------------------------------------------------

  datatype Handoff = Handoff(operation: string, target: string, rollback: string, acked: Option<int>)

  function PairOf(h: Handoff): (string, string) { (h.target, h.rollback) }

  function FindHandoff(records: seq<Handoff>, operation: string): (r: Option<nat>)
    ensures r.Some? ==> r.value < |records| && records[r.value].operation == operation
                        && forall j | 0 <= j < r.value :: records[j].operation != operation
    ensures r.None? <==> forall i | 0 <= i < |records| :: records[i].operation != operation
  {
    if records == [] then None
    else if records[0].operation == operation then Some(0)
    else match FindHandoff(records[1..], operation) case None => None case Some(i) => Some(i + 1)
  }

  /** Only the last hundred handoffs are written back. */
  function Newest(records: seq<Handoff>): seq<Handoff> {
    if |records| <= 100 then records else records[|records| - 100..]
  }

  /** Record a scheduled handoff; a different pair for a known operation is refused. */
  function RecordHandoff(records: seq<Handoff>, h: Handoff): Option<seq<Handoff>> {
    match FindHandoff(records, h.operation)
    case None => Some(Newest(records + [h]))
    case Some(i) => if PairOf(records[i]) == PairOf(h) then Some(records) else None
  }

  /** Merge a confirmed acknowledgement, provided the record still is the one acknowledged. */
  function Acknowledge(records: seq<Handoff>, sent: Handoff, now: int): Option<seq<Handoff>> {
    match FindHandoff(records, sent.operation)
    case None => None
    case Some(i) =>
      if PairOf(records[i]) != PairOf(sent) then None
      else if records[i].acked.Some? then Some(records)
      else Some(Newest(records[i := records[i].(acked := Some(now))]))
  }

  // ---- The same, said outright --------------------------------------------------------

  /** Record `i` is the first with this key. */
  predicate HasKeyFirst(journal: seq<Report>, key: nat, i: int) {
    0 <= i < |journal| && journal[i].key == key && forall j | 0 <= j < i :: journal[j].key != key
  }

  predicate RecordedFirst(records: seq<Handoff>, operation: string, i: int) {
    0 <= i < |records| && records[i].operation == operation && forall j | 0 <= j < i :: records[j].operation != operation
  }

  /** The first record with the sent key makes the sent claim. */
  ghost predicate Confirms(journal: seq<Report>, sent: Report) {
    exists i :: HasKeyFirst(journal, sent.key, i) && journal[i].claim == sent.claim
  }

  /** A confirmed delivery is merged exactly if the record with its key makes its claim; that record
      then has a delivery time, the earlier one if it had one, and every other is as it was. */
  lemma DeliverExactly(journal: seq<Report>, sent: Report, now: int)
    ensures Deliver(journal, sent, now).Some? <==> Confirms(journal, sent)
    ensures Confirms(journal, sent) ==>
      var after := Deliver(journal, sent, now).value;
      |after| == |journal| && forall i | 0 <= i < |journal| ::
        if HasKeyFirst(journal, sent.key, i)
        then after[i] == Report(journal[i].claim, journal[i].key, if journal[i].delivered.Some? then journal[i].delivered else Some(now))
        else after[i] == journal[i]
  {
    var at := FindKey(journal, sent.key);
    if at.Some? { assert HasKeyFirst(journal, sent.key, at.value); }
  }

  /** A handoff is refused exactly if its operation is recorded with another pair; a known one changes
      nothing; a new one becomes the last record, before it the newest ninety-nine. */
  lemma RecordHandoffExactly(records: seq<Handoff>, h: Handoff)
    ensures var r := RecordHandoff(records, h);
      && (r.None? <==> exists i :: RecordedFirst(records, h.operation, i) && (records[i].target != h.target || records[i].rollback != h.rollback))
      && (r.Some? && (exists i :: 0 <= i < |records| && records[i].operation == h.operation) ==> r.value == records)
      && ((forall i | 0 <= i < |records| :: records[i].operation != h.operation) ==>
            && r.Some? && |r.value| == (if |records| < 99 then |records| else 99) + 1 && r.value[|r.value| - 1] == h
            && forall j | 0 <= j < |r.value| - 1 :: r.value[j] == records[|records| - (|r.value| - 1) + j])
  {
    var at := FindHandoff(records, h.operation);
    if at.Some? { assert RecordedFirst(records, h.operation, at.value); }
  }

  /** The record of the acknowledged operation has the acknowledged pair. */
  ghost predicate Acknowledges(records: seq<Handoff>, sent: Handoff) {
    exists i :: RecordedFirst(records, sent.operation, i) && records[i].target == sent.target && records[i].rollback == sent.rollback
  }

  /** An acknowledgement is merged exactly then; that record has a receipt, the earlier one if it had
      one, and every other is as it was. */
  lemma AcknowledgeExactly(records: seq<Handoff>, sent: Handoff, now: int)
    requires |records| <= 100
    ensures Acknowledge(records, sent, now).Some? <==> Acknowledges(records, sent)
    ensures Acknowledges(records, sent) ==>
      var after := Acknowledge(records, sent, now).value;
      |after| == |records| && forall i | 0 <= i < |records| ::
        if RecordedFirst(records, sent.operation, i)
        then after[i] == Handoff(records[i].operation, records[i].target, records[i].rollback,
                                 if records[i].acked.Some? then records[i].acked else Some(now))
        else after[i] == records[i]
  {
    var at := FindHandoff(records, sent.operation);
    if at.Some? { assert RecordedFirst(records, sent.operation, at.value); }
  }

  // ---- The adapter of one process -----------------------------------------------------

  /** The journals are shared files; a transaction reads and rewrites them whole. */
  class JournalFiles {
    var reports: seq<Report>
    var handoffs: seq<Handoff>

    /** First transaction of a report: fix the record, and its key, before anything is sent. */
    method BeginReport(c: Claim, newKey: nat) returns (record: Report, alreadyDelivered: bool)
      modifies this`reports
      ensures (reports, record) == LoadOrCreate(old(reports), c, newKey)
      ensures alreadyDelivered <==> record.delivered.Some?
    {
      for i := 0 to |reports|
        invariant forall j | 0 <= j < i :: reports[j].claim != c
        invariant reports == old(reports)
      {
        if reports[i].claim == c {
          FirstClaim(reports, c, i);
          return reports[i], reports[i].delivered.Some?;
        }
      }
      record := Report(c, newKey, None);
      reports := reports + [record];
      alreadyDelivered := false;
    }

    /** Second transaction, after the server confirmed: reload, bind the identity, merge. */
    method FinishReport(sent: Report, now: int) returns (done: bool)
      modifies this`reports
      ensures done <==> Confirms(old(reports), sent)
      ensures |reports| == |old(reports)| && forall i | 0 <= i < |reports| ::
        reports[i] == if !done || !HasKeyFirst(old(reports), sent.key, i) then old(reports)[i]
                      else old(reports)[i].(delivered := if old(reports)[i].delivered.Some? then old(reports)[i].delivered else Some(now))
      ensures reports == if done then Deliver(old(reports), sent, now).value else old(reports)
    {
      for i := 0 to |reports|
        invariant forall j | 0 <= j < i :: reports[j].key != sent.key
        invariant reports == old(reports)
      {
        if reports[i].key == sent.key {
          FirstKey(reports, sent.key, i);
          DeliverExactly(reports, sent, now);
          assert HasKeyFirst(reports, sent.key, i);
          if reports[i].claim != sent.claim { return false; }
          var delivered := if reports[i].delivered.Some? then reports[i].delivered else Some(now);
          reports := reports[i := reports[i].(delivered := delivered)];
          return true;
        }
      }
      done := false;
    }

    /** First transaction of a handoff. */
    method BeginHandoff(h: Handoff) returns (known: bool)
      modifies this`handoffs
      ensures known <==> forall i | RecordedFirst(old(handoffs), h.operation, i) ::
        old(handoffs)[i].target == h.target && old(handoffs)[i].rollback == h.rollback
      ensures handoffs == if known then RecordHandoff(old(handoffs), h).value else old(handoffs)
    {
      var at := FindHandoff(handoffs, h.operation);
      RecordHandoffExactly(handoffs, h);
      if at.None? {
        handoffs := Newest(handoffs + [h]);
        return true;
      }
      known := handoffs[at.value].target == h.target && handoffs[at.value].rollback == h.rollback;
    }

    /** Transaction after a confirmed acknowledgement. */
    method FinishHandoff(sent: Handoff, now: int) returns (done: bool)
      modifies this`handoffs
      ensures |old(handoffs)| <= 100 ==> (done <==> Acknowledges(old(handoffs), sent))
      ensures done <==> Acknowledge(old(handoffs), sent, now).Some?
      ensures handoffs == if done then Acknowledge(old(handoffs), sent, now).value else old(handoffs)
    {
      var at := FindHandoff(handoffs, sent.operation);
      if |handoffs| <= 100 { AcknowledgeExactly(handoffs, sent, now); }
      if at.None? || PairOf(handoffs[at.value]) != PairOf(sent) { return false; }
      if handoffs[at.value].acked.None? {
        handoffs := Newest(handoffs[at.value := handoffs[at.value].(acked := Some(now))]);
      }
      done := true;
    }
  }

  lemma {:induction false} FirstClaim(journal: seq<Report>, c: Claim, i: nat)
    requires i < |journal| && journal[i].claim == c && forall j | 0 <= j < i :: journal[j].claim != c
    ensures FindClaim(journal, c) == Some(i)
  {
    if i > 0 { FirstClaim(journal[1..], c, i - 1); }
  }

  lemma {:induction false} FirstKey(journal: seq<Report>, key: nat, i: nat)
    requires i < |journal| && journal[i].key == key && forall j | 0 <= j < i :: journal[j].key != key
    ensures FindKey(journal, key) == Some(i)
  {
    if i > 0 { FirstKey(journal[1..], key, i - 1); }
  }

  // ---- All processes together ---------------------------------------------------------

  /** Both journals, what each process has in flight, every (claim, key) ever sent, and every
      (operation, pair) the server ever acknowledged. */
  datatype World = World(
    reports: seq<Report>, sending: map<nat, Report>, sends: set<(Claim, nat)>,
    handoffs: seq<Handoff>, acking: map<nat, Handoff>, confirmed: set<(string, (string, string))>)

  datatype Action =
    | SendReport(process: nat, claim: Claim, newKey: nat)
    | ReportDone(process: nat, ok: bool, now: int)
    | Schedule(handoff: Handoff)
    | SendAck(process: nat, operation: string)
    | AckDone(process: nat, ok: bool, now: int)
    | Die(process: nat)

  ghost predicate Enabled(w: World, a: Action) {
    match a
    case SendReport(p, c, k) =>
      p !in w.sending && (forall i | 0 <= i < |w.reports| :: w.reports[i].key != k)
    case ReportDone(p, _, _) => p in w.sending
    case Schedule(h) => h.acked.None?
    case SendAck(p, _) => p !in w.acking
    case AckDone(p, _, _) => p in w.acking
    case Die(p) => true
  }

  ghost function Next(w: World, a: Action): World
    requires Enabled(w, a)
  {
    match a
    case SendReport(p, c, k) =>
      var (journal, record) := LoadOrCreate(w.reports, c, k);
      if record.delivered.Some? then w.(reports := journal)
      else w.(reports := journal, sending := w.sending[p := record], sends := w.sends + {(c, record.key)})
    case ReportDone(p, ok, now) =>
      var merged := if ok then Deliver(w.reports, w.sending[p], now) else None;
      w.(reports := if merged.Some? then merged.value else w.reports, sending := w.sending - {p})
    case Schedule(h) =>
      var r := RecordHandoff(w.handoffs, h);
      if r.Some? then w.(handoffs := r.value) else w
    case SendAck(p, operation) =>
      var at := FindHandoff(w.handoffs, operation);
      if at.None? || w.handoffs[at.value].acked.Some? then w
      else w.(acking := w.acking[p := w.handoffs[at.value]])
    case AckDone(p, ok, now) =>
      var sent := w.acking[p];
      var merged := if ok then Acknowledge(w.handoffs, sent, now) else None;
      w.(handoffs := if merged.Some? then merged.value else w.handoffs, acking := w.acking - {p},
         confirmed := if ok then w.confirmed + {(sent.operation, PairOf(sent))} else w.confirmed)
    case Die(p) => w.(sending := w.sending - {p}, acking := w.acking - {p})
  }

  // ---- What interleaving cannot break -------------------------------------------------

  ghost predicate DistinctReports(journal: seq<Report>) {
    forall i, j | 0 <= i < j < |journal| :: journal[i].claim != journal[j].claim && journal[i].key != journal[j].key
  }

  ghost predicate Listed(journal: seq<Report>, c: Claim, key: nat) {
    exists i :: 0 <= i < |journal| && journal[i].claim == c && journal[i].key == key
  }

  ghost predicate DistinctHandoffs(records: seq<Handoff>) {
    |records| <= 100 && forall i, j | 0 <= i < j < |records| :: records[i].operation != records[j].operation
  }

  ghost predicate ReportInv(w: World) {
    && DistinctReports(w.reports)
    && (forall c, k | (c, k) in w.sends :: Listed(w.reports, c, k))
    && (forall p | p in w.sending :: (w.sending[p].claim, w.sending[p].key) in w.sends)
  }

  ghost predicate HandoffInv(w: World) {
    && DistinctHandoffs(w.handoffs)
    && (forall i | 0 <= i < |w.handoffs| && w.handoffs[i].acked.Some? ::
          (w.handoffs[i].operation, PairOf(w.handoffs[i])) in w.confirmed)
  }

  /** The journal only grows, and a record changes only by being marked delivered once. */
  ghost predicate ReportsGrow(before: seq<Report>, after: seq<Report>) {
    |before| <= |after|
    && forall i | 0 <= i < |before| ::
         after[i].claim == before[i].claim && after[i].key == before[i].key
         && (before[i].delivered.Some? ==> after[i].delivered == before[i].delivered)
  }

  /** A handoff that is still there has the pair it was recorded with, and keeps its receipt. */
  ghost predicate HandoffsFixed(before: seq<Handoff>, after: seq<Handoff>) {
    forall i, j | 0 <= i < |before| && 0 <= j < |after| && before[i].operation == after[j].operation ::
      PairOf(before[i]) == PairOf(after[j]) && (before[i].acked.Some? ==> after[j].acked == before[i].acked)
  }

  lemma GrowthKeepsListed(before: seq<Report>, after: seq<Report>, c: Claim, k: nat)
    requires ReportsGrow(before, after) && Listed(before, c, k)
    ensures Listed(after, c, k)
  {
    var i :| 0 <= i < |before| && before[i].claim == c && before[i].key == k;
    assert after[i].claim == c && after[i].key == k;
  }

  lemma GrowthTransitive(a: seq<Report>, b: seq<Report>, c: seq<Report>)
    requires ReportsGrow(a, b) && ReportsGrow(b, c)
    ensures ReportsGrow(a, c)
  {
  }

  lemma CreateKept(journal: seq<Report>, c: Claim, newKey: nat)
    requires DistinctReports(journal) && forall i | 0 <= i < |journal| :: journal[i].key != newKey
    ensures var (journal', record) := LoadOrCreate(journal, c, newKey);
      DistinctReports(journal') && ReportsGrow(journal, journal') && Listed(journal', c, record.key)
  {
    var (journal', record) := LoadOrCreate(journal, c, newKey);
    var i :| 0 <= i < |journal'| && journal'[i] == record;
    assert journal'[i].claim == c && journal'[i].key == record.key;
  }

  lemma DeliverKept(journal: seq<Report>, sent: Report, now: int)
    requires DistinctReports(journal)
    ensures var r := Deliver(journal, sent, now);
      r.Some? ==> (DistinctReports(r.value) && ReportsGrow(journal, r.value))
  {
  }

  lemma ListedKept(w: World, w': World, more: set<(Claim, nat)>)
    requires ReportInv(w) && ReportsGrow(w.reports, w'.reports) && w'.sends == w.sends + more
    requires forall c, k | (c, k) in more :: Listed(w'.reports, c, k)
    ensures forall c, k | (c, k) in w'.sends :: Listed(w'.reports, c, k)
  {
    forall c, k | (c, k) in w'.sends ensures Listed(w'.reports, c, k) {
      if (c, k) in w.sends { GrowthKeepsListed(w.reports, w'.reports, c, k); }
    }
  }

  lemma SendKept(w: World, a: Action)
    requires ReportInv(w) && Enabled(w, a) && a.SendReport?
    ensures ReportInv(Next(w, a)) && ReportsGrow(w.reports, Next(w, a).reports)
  {
    CreateKept(w.reports, a.claim, a.newKey);
    var record := LoadOrCreate(w.reports, a.claim, a.newKey).1;
    ListedKept(w, Next(w, a), if record.delivered.Some? then {} else {(a.claim, record.key)});
  }

  lemma DoneKept(w: World, a: Action)
    requires ReportInv(w) && Enabled(w, a) && a.ReportDone?
    ensures ReportInv(Next(w, a)) && ReportsGrow(w.reports, Next(w, a).reports)
  {
    DeliverKept(w.reports, w.sending[a.process], a.now);
    ListedKept(w, Next(w, a), {});
  }

  lemma OthersKept(w: World, a: Action)
    requires ReportInv(w) && Enabled(w, a) && !a.SendReport? && !a.ReportDone?
    ensures ReportInv(Next(w, a)) && Next(w, a).reports == w.reports
  {
    assert Next(w, a).sends == w.sends;
  }

  lemma ReportsKept(w: World, a: Action)
    requires ReportInv(w) && Enabled(w, a)
    ensures ReportInv(Next(w, a)) && ReportsGrow(w.reports, Next(w, a).reports)
  {
    if a.SendReport? {
      SendKept(w, a);
    } else if a.ReportDone? {
      DoneKept(w, a);
    } else {
      OthersKept(w, a);
    }
  }

  lemma HandoffsKept(w: World, a: Action)
    requires HandoffInv(w) && Enabled(w, a)
    ensures HandoffInv(Next(w, a)) && HandoffsFixed(w.handoffs, Next(w, a).handoffs)
  {
    var w' := Next(w, a);
    if a.Schedule? {
      ScheduleKept(w.handoffs, a.handoff);
    } else if a.AckDone? {
      AckKept(w.handoffs, w.acking[a.process], a.now);
    }
  }

  lemma AppendKept(records: seq<Handoff>, h: Handoff)
    requires DistinctHandoffs(records) && forall i | 0 <= i < |records| :: records[i].operation != h.operation
    ensures HandoffsFixed(records, records + [h])
    ensures forall i, j | 0 <= i < j <= |records| :: (records + [h])[i].operation != (records + [h])[j].operation
  {
    forall i, j | 0 <= i < |records| && 0 <= j <= |records| && records[i].operation == (records + [h])[j].operation
      ensures i == j
    {
    }
  }

  lemma NewestKept(records: seq<Handoff>, h: Handoff)
    requires DistinctHandoffs(records) && forall i | 0 <= i < |records| :: records[i].operation != h.operation
    ensures DistinctHandoffs(Newest(records + [h])) && HandoffsFixed(records, Newest(records + [h]))
    ensures forall i | 0 <= i < |Newest(records + [h])| :: Newest(records + [h])[i] in records + [h]
  {
    var (all, kept) := (records + [h], Newest(records + [h]));
    AppendKept(records, h);
    forall i | 0 <= i < |kept| ensures kept[i] == all[i + (|all| - |kept|)] {
    }
  }

  lemma ScheduleKept(records: seq<Handoff>, h: Handoff)
    requires DistinctHandoffs(records) && h.acked.None?
    ensures var r := RecordHandoff(records, h);
      r.Some? ==> (DistinctHandoffs(r.value) && HandoffsFixed(records, r.value)
                   && (forall i | 0 <= i < |r.value| && r.value[i].acked.Some? :: r.value[i] in records))
  {
    if FindHandoff(records, h.operation).None? { NewestKept(records, h); }
  }

  lemma AckKept(records: seq<Handoff>, sent: Handoff, now: int)
    requires DistinctHandoffs(records)
    ensures var r := Acknowledge(records, sent, now);
      r.Some? ==> (DistinctHandoffs(r.value) && HandoffsFixed(records, r.value)
                   && (forall i | 0 <= i < |r.value| && r.value[i].acked.Some? ::
                         r.value[i] in records || (r.value[i].operation == sent.operation && PairOf(r.value[i]) == PairOf(sent))))
  {
  }

  ghost predicate StepAt(ws: seq<World>, as': seq<Action>, i: nat)
    requires |ws| == |as'| + 1 && i < |as'|
  {
    Enabled(ws[i], as'[i]) && ws[i + 1] == Next(ws[i], as'[i])
  }

  ghost predicate Run(ws: seq<World>, as': seq<Action>) {
    && |ws| == |as'| + 1 && ReportInv(ws[0]) && HandoffInv(ws[0])
    && forall i: nat | i < |as'| :: StepAt(ws, as', i)
  }

  lemma {:induction false} RunKeeps(ws: seq<World>, as': seq<Action>, i: nat)
    requires Run(ws, as') && i < |ws|
    ensures ReportInv(ws[i]) && HandoffInv(ws[i])
  {
    if i > 0 {
      RunKeeps(ws, as', i - 1);
      assert StepAt(ws, as', i - 1);
      ReportsKept(ws[i - 1], as'[i - 1]);
      HandoffsKept(ws[i - 1], as'[i - 1]);
    }
  }

  lemma GrowOnce(ws: seq<World>, as': seq<Action>, i: nat)
    requires Run(ws, as') && i < |as'|
    ensures ReportsGrow(ws[i].reports, ws[i + 1].reports)
  {
    RunKeeps(ws, as', i);
    assert StepAt(ws, as', i);
    ReportsKept(ws[i], as'[i]);
  }

  lemma {:induction false} ReportsGrowAlong(ws: seq<World>, as': seq<Action>, i: nat, j: nat)
    requires Run(ws, as') && i <= j < |ws|
    ensures ReportsGrow(ws[i].reports, ws[j].reports)
    decreases j - i
  {
    if i < j {
      ReportsGrowAlong(ws, as', i, j - 1);
      GrowOnce(ws, as', j - 1);
      GrowthTransitive(ws[i].reports, ws[j - 1].reports, ws[j].reports);
    }
  }

  lemma {:induction false} SendsGrow(ws: seq<World>, as': seq<Action>, i: nat, j: nat)
    requires Run(ws, as') && i <= j < |ws|
    ensures ws[i].sends <= ws[j].sends
    decreases j - i
  {
    if i < j {
      SendsGrow(ws, as', i, j - 1);
      assert StepAt(ws, as', j - 1);
    }
  }

  /** Idempotency keys are stable: over a whole run of any processes, whatever dies in between,
      one claim is only ever sent under one key, and that key is in the journal. */
  lemma OneKeyPerClaim(ws: seq<World>, as': seq<Action>, i: nat, j: nat, c: Claim, k: nat, k': nat)
    requires Run(ws, as') && i <= j < |ws| && (c, k) in ws[i].sends && (c, k') in ws[j].sends
    ensures k == k' && Listed(ws[i].reports, c, k)
  {
    RunKeeps(ws, as', i);
    RunKeeps(ws, as', j);
    SendsGrow(ws, as', i, j);
    assert Listed(ws[j].reports, c, k) && Listed(ws[j].reports, c, k');
    var m :| 0 <= m < |ws[j].reports| && ws[j].reports[m].claim == c && ws[j].reports[m].key == k;
    var n :| 0 <= n < |ws[j].reports| && ws[j].reports[n].claim == c && ws[j].reports[n].key == k';
    assert m == n;
  }

  /** A receipt, once written, is never rewritten. */
  lemma DeliveredForGood(ws: seq<World>, as': seq<Action>, i: nat, j: nat, n: nat)
    requires Run(ws, as') && i <= j < |ws| && n < |ws[i].reports| && ws[i].reports[n].delivered.Some?
    ensures n < |ws[j].reports| && ws[j].reports[n] == ws[i].reports[n]
  {
    ReportsGrowAlong(ws, as', i, j);
  }

  /** A scheduled handoff keeps its pair and its receipt as long as it is retained, and a receipt
      is only ever written on the pair the server acknowledged. */
  lemma HandoffsBound(ws: seq<World>, as': seq<Action>, i: nat, m: nat, n: nat)
    requires Run(ws, as') && i < |as'| && m < |ws[i].handoffs| && n < |ws[i + 1].handoffs|
    requires ws[i].handoffs[m].operation == ws[i + 1].handoffs[n].operation
    ensures PairOf(ws[i].handoffs[m]) == PairOf(ws[i + 1].handoffs[n])
    ensures ws[i].handoffs[m].acked.Some? ==> ws[i + 1].handoffs[n].acked == ws[i].handoffs[m].acked
    ensures var h := ws[i + 1].handoffs[n];
      h.acked.Some? ==> (h.operation, PairOf(h)) in ws[i + 1].confirmed
  {
    RunKeeps(ws, as', i);
    assert StepAt(ws, as', i);
    HandoffsKept(ws[i], as'[i]);
  }

  ghost predicate Holds(records: seq<Handoff>, operation: string) {
    exists n :: 0 <= n < |records| && records[n].operation == operation
  }

  /** Over any stretch of a run in which the operation stays recorded. */
  lemma {:induction false} HandoffsBoundAlong(ws: seq<World>, as': seq<Action>, i: nat, j: nat, m: nat, n: nat)
    requires Run(ws, as') && i <= j < |ws| && m < |ws[i].handoffs| && n < |ws[j].handoffs|
    requires ws[i].handoffs[m].operation == ws[j].handoffs[n].operation
    requires forall k | i <= k <= j :: Holds(ws[k].handoffs, ws[i].handoffs[m].operation)
    ensures PairOf(ws[i].handoffs[m]) == PairOf(ws[j].handoffs[n])
    ensures ws[i].handoffs[m].acked.Some? ==> ws[j].handoffs[n].acked == ws[i].handoffs[m].acked
    decreases j - i
  {
    if i == j {
      RunKeeps(ws, as', i);
    } else {
      assert Holds(ws[i + 1].handoffs, ws[i].handoffs[m].operation);
      var l :| 0 <= l < |ws[i + 1].handoffs| && ws[i + 1].handoffs[l].operation == ws[i].handoffs[m].operation;
      HandoffsBound(ws, as', i, m, l);
      HandoffsBoundAlong(ws, as', i + 1, j, l, n);
    }
  }

  // ---- What is confirmed is not sent again --------------------------------------------

  /** Some record makes the claim, and was delivered. */
  ghost predicate DeliveredClaim(journal: seq<Report>, c: Claim, i: nat) {
    i < |journal| && journal[i].claim == c && journal[i].delivered.Some?
  }

  lemma ConfirmedIsDelivered(ws: seq<World>, as': seq<Action>, i: nat) returns (n: nat)
    requires Run(ws, as') && i < |as'| && as'[i].ReportDone? && as'[i].ok && as'[i].process in ws[i].sending
    ensures DeliveredClaim(ws[i + 1].reports, ws[i].sending[as'[i].process].claim, n)
  {
    RunKeeps(ws, as', i);
    assert StepAt(ws, as', i);
    var sent := ws[i].sending[as'[i].process];
    assert Listed(ws[i].reports, sent.claim, sent.key);
    n :| 0 <= n < |ws[i].reports| && ws[i].reports[n].claim == sent.claim && ws[i].reports[n].key == sent.key;
    assert HasKeyFirst(ws[i].reports, sent.key, n);
    DeliverExactly(ws[i].reports, sent, as'[i].now);
  }

  lemma DeliveredSendsNothing(w: World, a: Action, c: Claim, n: nat)
    requires ReportInv(w) && DeliveredClaim(w.reports, c, n) && a.SendReport? && a.claim == c && Enabled(w, a)
    ensures Next(w, a).sends == w.sends && Next(w, a).sending == w.sending
  {
    FirstClaim(w.reports, c, n);
  }

  /** Once the server's confirmation of a claim has been taken in, no process ever sends that claim
      again. */
  lemma ConfirmedNeverSentAgain(ws: seq<World>, as': seq<Action>, i: nat, j: nat)
    requires Run(ws, as') && i < j < |as'| && as'[i].ReportDone? && as'[i].ok && as'[i].process in ws[i].sending
    requires as'[j].SendReport? && as'[j].claim == ws[i].sending[as'[i].process].claim
    ensures ws[j + 1].sends == ws[j].sends && ws[j + 1].sending == ws[j].sending
  {
    var n := ConfirmedIsDelivered(ws, as', i);
    DeliveredForGood(ws, as', i + 1, j, n);
    RunKeeps(ws, as', j);
    assert StepAt(ws, as', j);
    DeliveredSendsNothing(ws[j], as'[j], as'[j].claim, n);
  }

  /** An undelivered claim is sent, under the key then in the journal, whenever a report of it is begun. */
  lemma UndeliveredIsSent(w: World, a: Action)
    requires ReportInv(w) && a.SendReport? && Enabled(w, a) && forall i :: !DeliveredClaim(w.reports, a.claim, i)
    ensures var w' := Next(w, a);
      && a.process in w'.sending && w'.sending[a.process].claim == a.claim
      && (a.claim, w'.sending[a.process].key) in w'.sends && w'.sending[a.process] in w'.reports
  {
    var at := FindClaim(w.reports, a.claim);
    if at.Some? { assert !DeliveredClaim(w.reports, a.claim, at.value); }
  }

  lemma OnlyRecord(records: seq<Handoff>, operation: string, n: nat)
    requires DistinctHandoffs(records) && n < |records| && records[n].operation == operation
    ensures RecordedFirst(records, operation, n) && FindHandoff(records, operation) == Some(n)
  {
  }

  /** A confirmed acknowledgement leaves a receipt, if the operation is still recorded with its pair. */
  lemma AcknowledgedHasReceipt(ws: seq<World>, as': seq<Action>, i: nat, n: nat)
    requires Run(ws, as') && i < |as'| && as'[i].AckDone? && as'[i].ok && as'[i].process in ws[i].acking
    requires n < |ws[i].handoffs|
    requires var sent := ws[i].acking[as'[i].process];
      ws[i].handoffs[n].operation == sent.operation && PairOf(ws[i].handoffs[n]) == PairOf(sent)
    ensures n < |ws[i + 1].handoffs| && ws[i + 1].handoffs[n].operation == ws[i].handoffs[n].operation
    ensures ws[i + 1].handoffs[n].acked.Some?
  {
    RunKeeps(ws, as', i);
    assert StepAt(ws, as', i);
    var sent := ws[i].acking[as'[i].process];
    OnlyRecord(ws[i].handoffs, sent.operation, n);
    AcknowledgeExactly(ws[i].handoffs, sent, as'[i].now);
  }

  /** From then on, for as long as the operation stays recorded, no acknowledgement of it is sent. */
  lemma AcknowledgedNeverSentAgain(ws: seq<World>, as': seq<Action>, i: nat, j: nat, m: nat)
    requires Run(ws, as') && i <= j < |as'| && m < |ws[i].handoffs| && ws[i].handoffs[m].acked.Some?
    requires as'[j].SendAck? && as'[j].operation == ws[i].handoffs[m].operation
    requires forall k | i <= k <= j :: Holds(ws[k].handoffs, ws[i].handoffs[m].operation)
    ensures ws[j + 1].acking == ws[j].acking
  {
    assert Holds(ws[j].handoffs, ws[i].handoffs[m].operation);
    var n :| 0 <= n < |ws[j].handoffs| && ws[j].handoffs[n].operation == ws[i].handoffs[m].operation;
    HandoffsBoundAlong(ws, as', i, j, m, n);
    RunKeeps(ws, as', j);
    assert StepAt(ws, as', j);
    OnlyRecord(ws[j].handoffs, as'[j].operation, n);
  }
}
