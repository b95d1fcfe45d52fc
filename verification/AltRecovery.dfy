/** However often the worker dies, a rerun finishes the update, or the rollback, as if it had
    never been interrupted; and the restarted agent reports exactly that. */
module AltRecovery {
  import opened Activity
  import opened AltWorker
  import opened AltSafety

  // ---- Running an activation to its end -----------------------------------------------

  function Rank(s: Sys): nat {
    match s.pc
    case Begin => 20
    case Check(_) => 19
    case Quarantine(_, _, _) => 18
    case Place(_, _, _) => 17
    case Select(_, _, _) => 16
    case Commit(_, _, _, _) => 15
    case Restore(_) => 14
    case FailHistory(_) => if s.disk.history.Bad? then 13 else 12
    case History(_, _, _) => if s.disk.history.Bad? then 11 else 10
    case Unlink(_) => 9
    case Reject(_) => 3
    case ClearMark(_) => 2
    case WriteMark(_) => 1
    case RollBegin => 8
    case RollCommit(_) => 7
    case RollMark(_) => 6
    case RollUnlink => 5
    case RollDrop => 4
    case RollReject => 3
    case RollClearMark => 2
    case RollWriteMark => 1
    case _ => 0
  }

  lemma StepDescends(s: Sys)
    requires !Resting(s.pc)
    ensures Rank(Next(s, Step)) < Rank(s)
  {
  }

  /** Every activation without faults returns. */
  function RunOut(s: Sys): (r: Sys)
    ensures Resting(r.pc)
    decreases Rank(s)
  {
    if Resting(s.pc) then s
    else
      StepDescends(s);
      RunOut(Next(s, Step))
  }

  /** Activate the update worker if a request is waiting, after whatever happened before. */
  function Rerun(s: Sys): Sys {
    var t := Next(s, Crash);
    if t.disk.pending == Absent then t else RunOut(Next(t, StartUpdate))
  }

  /** Activate the rollback worker if a rollback request is waiting. */
  function RerunRollback(s: Sys): Sys {
    var t := Next(s, Crash);
    if t.disk.rollback == Absent then t else RunOut(Next(t, StartRollback))
  }

  // ---- History keeps one record per operation -----------------------------------------

  ghost predicate Mentions(h: seq<Item>, operation: string) {
    exists i :: 0 <= i < |h| && OperationOf(h[i]) == Some(operation)
  }

  lemma {:induction false} WithoutMentions(h: seq<Item>, operation: string)
    ensures !Mentions(Without(h, operation), operation)
  {
    if h != [] { WithoutMentions(h[..|h| - 1], operation); }
  }

  lemma {:induction false} WithoutNothing(h: seq<Item>, operation: string)
    requires !Mentions(h, operation)
    ensures Without(h, operation) == h
  {
    if h != [] {
      var before := h[..|h| - 1];
      forall i | 0 <= i < |before| ensures OperationOf(before[i]) != Some(operation) {
        assert before[i] == h[i];
      }
      assert OperationOf(h[|h| - 1]) != Some(operation);
      WithoutNothing(before, operation);
      assert h == before + [h[|h| - 1]];
    }
  }

  lemma KeptMentions(h: seq<Item>, n: nat, operation: string)
    requires !Mentions(h, operation)
    ensures !Mentions(LastOnes(h, n), operation)
  {
    var k := LastOnes(h, n);
    forall i | 0 <= i < |k| ensures OperationOf(k[i]) != Some(operation) {
      assert k[i] == h[i + (|h| - |k|)];
    }
  }

  /** The record of an operation is last, it is the only one, and writing it again changes nothing. */
  lemma RecordedOnce(h: Leaf<seq<Item>>, e: Item)
    requires e.Entry?
    ensures var r := Recorded(h, e);
      && 0 < |r| <= 100 && r[|r| - 1] == e
      && !Mentions(r[..|r| - 1], e.operation)
      && Recorded(Good(r), e) == r
  {
    var old' := if h.Good? then h.value else [];
    var kept := LastOnes(Without(old', e.operation), 99);
    WithoutMentions(old', e.operation);
    KeptMentions(Without(old', e.operation), 99, e.operation);
    var r := kept + [e];
    assert r[..|r| - 1] == kept;
    WithoutNothing(kept, e.operation);
    assert Without(r, e.operation) == kept;
  }

  /** Everything else keeps its place: filtering keeps all records of other operations, in order, */
  lemma {:induction false} WithoutKeepsOthers(h: seq<Item>, operation: string, x: Item)
    ensures multiset(Without(h, operation))[x] == if OperationOf(x) == Some(operation) then 0 else multiset(h)[x]
  {
    if h != [] {
      var (before, last) := (h[..|h| - 1], h[|h| - 1]);
      WithoutKeepsOthers(before, operation, x);
      assert h == before + [last];
    }
  }

  lemma {:induction false} WithoutConcat(g: seq<Item>, h: seq<Item>, operation: string)
    ensures Without(g + h, operation) == Without(g, operation) + Without(h, operation)
  {
    if h == [] {
      assert g + h == g;
    } else {
      var (before, last) := (h[..|h| - 1], h[|h| - 1]);
      assert (g + h)[..|g + h| - 1] == g + before;
      WithoutConcat(g, before, operation);
    }
  }

  /** and of them the newest ninety-nine stay before the new one. */
  lemma RecordedKeepsOthers(h: Leaf<seq<Item>>, e: Item)
    requires e.Entry?
    ensures var (r, others) := (Recorded(h, e), if h.Good? then Without(h.value, e.operation) else []);
      && |r| == (if |others| < 99 then |others| else 99) + 1
      && r[..|r| - 1] == others[|others| - (|r| - 1)..]
  {
  }

  /** A history with room that does not mention the operation simply grows by its record. */
  lemma RecordedAppends(h: seq<Item>, e: Item)
    requires e.Entry? && |h| < 100 && !Mentions(h, e.operation)
    ensures Recorded(Good(h), e) == h + [e]
  {
    WithoutNothing(h, e.operation);
  }

  // ---- The update ---------------------------------------------------------------------

  /** A valid request for a version other than the running one. */
  ghost predicate Ready(d: Disk, req: Request, m: Manifest, cur: Selector) {
    && d.pending == Good(req) && Bundle(d, req) == Some(m) && d.current == Good(cur)
    && Selects(d.trees, cur) && cur.version != m.version && !d.previous.Bad?
  }

  function Installed(d: Disk, m: Manifest): map<string, Tree> { d.trees[m.version := Tree(Some(m), m.files)] }

  function SuccessEntry(req: Request, m: Manifest, cur: Selector): Item {
    Entry(req.operation, m.version, true, Some(cur.version))
  }

  /** The disk of a finished update. */
  function Updated(d: Disk, req: Request, m: Manifest, cur: Selector): Disk {
    d.(current := Good(SelectorOf(m)), previous := Good(cur), trees := Installed(d, m), pending := Absent,
       history := Good(Recorded(d.history, SuccessEntry(req, m, cur))))
  }

  /** Not yet committed: only the candidate's directory and the rollback selector may have moved. */
  ghost predicate Preparing(d0: Disk, m: Manifest, cur: Selector, d: Disk) {
    && d == d0.(trees := d.trees, previous := d.previous)
    && (d.previous == d0.previous || d.previous == Good(cur))
    && (d.trees == d0.trees || d.trees == d0.trees - {m.version} || d.trees == Installed(d0, m))
  }

  /** Committed: only the history record and the removal of the request may be missing. */
  ghost predicate Committed(d0: Disk, req: Request, m: Manifest, cur: Selector, d: Disk) {
    && d == Updated(d0, req, m, cur).(history := d.history, pending := Good(req))
    && (d.history == d0.history || (d0.history.Bad? && d.history == Absent)
        || d.history == Good(Recorded(d0.history, SuccessEntry(req, m, cur))))
  }

  ghost predicate PreparingAt(d0: Disk, req: Request, m: Manifest, cur: Selector, d: Disk, pc: Pc) {
    match pc
    case Idle => true
    case Begin => true
    case Check(r) => r == req
    case Quarantine(r, m', c) => (r, m', c) == (req, m, cur) && d.trees == d0.trees
    case Place(r, m', c) => (r, m', c) == (req, m, cur) && d.trees == d0.trees - {m.version}
    case Select(r, m', c) => (r, m', c) == (req, m, cur) && d.trees == Installed(d0, m)
    case Commit(r, m', c, _) => (r, m', c) == (req, m, cur) && d.trees == Installed(d0, m) && d.previous == Good(cur)
    case _ => false
  }

  ghost predicate CommittedAt(d0: Disk, req: Request, m: Manifest, cur: Selector, d: Disk, pc: Pc) {
    match pc
    case Idle => true
    case Begin => true
    case Check(r) => r == req
    case Select(r, m', c) => (r, m', c) == (req, m, SelectorOf(m))
    case History(r, m', prev) => (r, m', prev) == (req, m, cur)
    case Unlink(v) => v == m.version && d.history == Good(Recorded(d0.history, SuccessEntry(req, m, cur)))
    case _ => false
  }

  /** Everything an interrupted and restarted update can have done so far. */
  ghost predicate OnTheWay(d0: Disk, req: Request, m: Manifest, cur: Selector, s: Sys) {
    || (Preparing(d0, m, cur, s.disk) && PreparingAt(d0, req, m, cur, s.disk, s.pc))
    || (Committed(d0, req, m, cur, s.disk) && CommittedAt(d0, req, m, cur, s.disk, s.pc))
    || (s.disk == Updated(d0, req, m, cur) && (s.pc == Idle || s.pc == Returned(true, m.version)))
  }

  lemma BundleMatches(d: Disk, req: Request, m: Manifest)
    requires Bundle(d, req) == Some(m)
    ensures m.version == req.version && WellShaped(m.files) && Matches(Tree(Some(m), m.files), m)
  {
  }

  lemma CheckWhilePreparing(d0: Disk, req: Request, m: Manifest, cur: Selector, d: Disk)
    requires Ready(d0, req, m, cur) && Preparing(d0, m, cur, d)
    ensures PreparingAt(d0, req, m, cur, d, AfterChecks(d, req)) && !AfterChecks(d, req).Idle?
    ensures AfterChecks(d, req).Quarantine? || AfterChecks(d, req).Place? || AfterChecks(d, req).Select?
  {
    BundleMatches(d0, req, m);
    OtherTree(d0.trees, d.trees, cur, m.version);
    if m.version in d.trees && Matches(d.trees[m.version], m) {
      assert d.trees == Installed(d0, m);
    }
    if m.version !in d.trees { assert d.trees == d0.trees - {m.version}; }
  }

  lemma CheckOnceCommitted(d0: Disk, req: Request, m: Manifest, cur: Selector, d: Disk)
    requires Ready(d0, req, m, cur) && Committed(d0, req, m, cur, d)
    ensures AfterChecks(d, req) == Select(req, m, SelectorOf(m))
    ensures ReplayConsistent(d, SelectorOf(m))
  {
    BundleMatches(d0, req, m);
    MatchedIsSelected(d.trees, m);
    OtherTree(d0.trees, d.trees, cur, m.version);
  }

  lemma PreparingStep(d0: Disk, req: Request, m: Manifest, cur: Selector, s: Sys)
    requires Ready(d0, req, m, cur) && !Resting(s.pc)
    requires Preparing(d0, m, cur, s.disk) && PreparingAt(d0, req, m, cur, s.disk, s.pc)
    ensures OnTheWay(d0, req, m, cur, Next(s, Step))
  {
    if s.pc.Check? { CheckWhilePreparing(d0, req, m, cur, s.disk); }
    if s.pc.Place? { assert (d0.trees - {m.version})[m.version := Tree(Some(m), m.files)] == Installed(d0, m); }
  }

  lemma CommittedStep(d0: Disk, req: Request, m: Manifest, cur: Selector, s: Sys)
    requires Ready(d0, req, m, cur) && !Resting(s.pc)
    requires Committed(d0, req, m, cur, s.disk) && CommittedAt(d0, req, m, cur, s.disk, s.pc)
    ensures OnTheWay(d0, req, m, cur, Next(s, Step))
  {
    CheckOnceCommitted(d0, req, m, cur, s.disk);
    RecordedOnce(d0.history, SuccessEntry(req, m, cur));
  }

  predicate Interruption(a: Action) { a.StartUpdate? || a.Step? || a.Crash? }

  lemma OnTheWayKeeps(d0: Disk, req: Request, m: Manifest, cur: Selector, s: Sys, a: Action)
    requires Ready(d0, req, m, cur) && OnTheWay(d0, req, m, cur, s) && Enabled(s, a) && Interruption(a)
    ensures OnTheWay(d0, req, m, cur, Next(s, a))
  {
    if a.Step? {
      if Preparing(d0, m, cur, s.disk) && PreparingAt(d0, req, m, cur, s.disk, s.pc) {
        PreparingStep(d0, req, m, cur, s);
      } else {
        CommittedStep(d0, req, m, cur, s);
      }
    }
  }

  lemma {:induction false} RunOutFinishes(d0: Disk, req: Request, m: Manifest, cur: Selector, s: Sys)
    requires Ready(d0, req, m, cur) && OnTheWay(d0, req, m, cur, s) && s.pc != Idle
    ensures RunOut(s).disk == Updated(d0, req, m, cur) && RunOut(s).pc == Returned(true, m.version)
    decreases Rank(s)
  {
    if !Resting(s.pc) {
      StepDescends(s);
      OnTheWayKeeps(d0, req, m, cur, s, Step);
      StepNeverIdles(s);
      RunOutFinishes(d0, req, m, cur, Next(s, Step));
    }
  }

  lemma StepNeverIdles(s: Sys)
    requires !Resting(s.pc)
    ensures Next(s, Step).pc != Idle
  {
  }

  /** `s` is what is left after some activations of the update worker, each of which may have died
      at any point. */
  ghost predicate Interrupted(d0: Disk, ss: seq<Sys>, as': seq<Action>) {
    && |ss| == |as'| + 1 && ss[0].disk == d0 && ss[0].pc == Idle
    && forall i: nat | i < |as'| :: StepAt(ss, as', i) && Interruption(as'[i])
  }

  lemma {:induction false} InterruptedOnTheWay(d0: Disk, req: Request, m: Manifest, cur: Selector,
                                               ss: seq<Sys>, as': seq<Action>, i: nat)
    requires Ready(d0, req, m, cur) && Interrupted(d0, ss, as') && i < |ss|
    ensures OnTheWay(d0, req, m, cur, ss[i])
  {
    if i > 0 {
      InterruptedOnTheWay(d0, req, m, cur, ss, as', i - 1);
      assert StepAt(ss, as', i - 1);
      OnTheWayKeeps(d0, req, m, cur, ss[i - 1], as'[i - 1]);
    }
  }

  /** Crash idempotence: after any number of crashes at any points, one undisturbed rerun leaves
      exactly the disk of an uninterrupted update: candidate selected and installed, the old
      selector kept for rollback, one history record, no request. */
  lemma UpdateSurvivesCrashes(d0: Disk, req: Request, m: Manifest, cur: Selector, ss: seq<Sys>, as': seq<Action>)
    requires Ready(d0, req, m, cur) && Interrupted(d0, ss, as')
    ensures Rerun(ss[|ss| - 1]).disk == Updated(d0, req, m, cur) == Rerun(ss[0]).disk
    ensures Selects(Updated(d0, req, m, cur).trees, SelectorOf(m))
  {
    InterruptedOnTheWay(d0, req, m, cur, ss, as', |ss| - 1);
    FinishFrom(d0, req, m, cur, ss[|ss| - 1]);
    FinishFrom(d0, req, m, cur, ss[0]);
    BundleMatches(d0, req, m);
    MatchedIsSelected(Updated(d0, req, m, cur).trees, m);
  }

  lemma FinishFrom(d0: Disk, req: Request, m: Manifest, cur: Selector, s: Sys)
    requires Ready(d0, req, m, cur) && OnTheWay(d0, req, m, cur, s)
    ensures Rerun(s).disk == Updated(d0, req, m, cur)
  {
    var t := Next(s, Crash);
    OnTheWayKeeps(d0, req, m, cur, s, Crash);
    if t.disk.pending != Absent {
      OnTheWayKeeps(d0, req, m, cur, t, StartUpdate);
      RunOutFinishes(d0, req, m, cur, Next(t, StartUpdate));
    }
  }

  // ---- The rollback -------------------------------------------------------------------

  /** An authorized request while the crashed release is still selected. */
  ghost predicate ReadyToRollBack(d: Disk, r: RollbackRequest) {
    Authorized(d) && d.rollback == Good(r) && d.current == Good(r.crashed)
  }

  /** The disk of a finished rollback, up to the spent rollback selector. */
  function RolledBackTo(d: Disk, r: RollbackRequest): Disk {
    d.(current := Good(r.rollback), previous := Absent, rollback := Absent,
       failedLaunch := Good(RolledBackMark(r)))
  }

  ghost predicate RollingBack(d0: Disk, r: RollbackRequest, s: Sys) {
    || (s.disk == d0 && (s.pc == Idle || s.pc == RollBegin || s.pc == RollCommit(r)))
    || (s.disk == d0.(current := Good(r.rollback), failedLaunch := s.disk.failedLaunch)
        && (s.disk.failedLaunch == d0.failedLaunch || s.disk.failedLaunch == RolledBackTo(d0, r).failedLaunch)
        && (s.pc == Idle || s.pc == RollBegin || s.pc == RollMark(r)
            || (s.pc == RollUnlink && s.disk.failedLaunch == RolledBackTo(d0, r).failedLaunch)))
    || (s.disk == RolledBackTo(d0, r).(previous := Good(r.rollback)) && (s.pc == Idle || s.pc == RollDrop))
    || (s.disk == RolledBackTo(d0, r) && (s.pc == Idle || s.pc == RollReturned(true)))
  }

  predicate RollbackInterruption(a: Action) { a.StartRollback? || a.Step? || a.Crash? }

  ghost predicate RollbackInterrupted(d0: Disk, ss: seq<Sys>, as': seq<Action>) {
    && |ss| == |as'| + 1 && ss[0].disk == d0 && ss[0].pc == Idle
    && forall i: nat | i < |as'| :: StepAt(ss, as', i) && RollbackInterruption(as'[i])
  }

  lemma RollingBackKeeps(d0: Disk, r: RollbackRequest, s: Sys, a: Action)
    requires ReadyToRollBack(d0, r) && RollingBack(d0, r, s) && Enabled(s, a) && RollbackInterruption(a)
    ensures RollingBack(d0, r, Next(s, a))
    ensures RollbackCommits(s, a) ==> s.disk == d0
    ensures s.disk.current != d0.current ==> Next(s, a).disk.current == s.disk.current && !RollbackCommits(s, a)
  {
  }

  lemma {:induction false} RollbackInterruptedKeeps(d0: Disk, r: RollbackRequest, ss: seq<Sys>, as': seq<Action>, i: nat)
    requires ReadyToRollBack(d0, r) && RollbackInterrupted(d0, ss, as') && i < |ss|
    ensures RollingBack(d0, r, ss[i])
  {
    if i > 0 {
      RollbackInterruptedKeeps(d0, r, ss, as', i - 1);
      assert StepAt(ss, as', i - 1);
      RollingBackKeeps(d0, r, ss[i - 1], as'[i - 1]);
    }
  }

  lemma {:induction false} RunOutRollsBack(d0: Disk, r: RollbackRequest, s: Sys)
    requires ReadyToRollBack(d0, r) && RollingBack(d0, r, s) && s.pc != Idle
    ensures RunOut(s).disk == RolledBackTo(d0, r) && RunOut(s).pc == RollReturned(true)
    decreases Rank(s)
  {
    if !Resting(s.pc) {
      StepDescends(s);
      RollingBackKeeps(d0, r, s, Step);
      StepNeverIdles(s);
      RunOutRollsBack(d0, r, Next(s, Step));
    }
  }

  /** The last activation died between removing the request and removing the spent selector. */
  predicate DiedBeforeTheLastRemoval(d: Disk) { d.rollback == Absent && d.previous != Absent }

  /** After any number of crashes a rerun completes the rollback.  The spent selector, then naming
      the release already running, is left over exactly if nothing is left to rerun for it. */
  lemma RollbackSurvivesCrashes(d0: Disk, r: RollbackRequest, ss: seq<Sys>, as': seq<Action>)
    requires ReadyToRollBack(d0, r) && RollbackInterrupted(d0, ss, as')
    ensures var s := ss[|ss| - 1];
      RerunRollback(s).disk == if DiedBeforeTheLastRemoval(s.disk) then RolledBackTo(d0, r).(previous := Good(r.rollback))
                               else RolledBackTo(d0, r)
    ensures RerunRollback(ss[0]).disk == RolledBackTo(d0, r)
  {
    RollbackInterruptedKeeps(d0, r, ss, as', |ss| - 1);
    FinishRollback(d0, r, ss[|ss| - 1]);
    FinishRollback(d0, r, ss[0]);
  }

  lemma FinishRollback(d0: Disk, r: RollbackRequest, s: Sys)
    requires ReadyToRollBack(d0, r) && RollingBack(d0, r, s)
    ensures RerunRollback(s).disk == if DiedBeforeTheLastRemoval(s.disk) then RolledBackTo(d0, r).(previous := Good(r.rollback))
                                     else RolledBackTo(d0, r)
  {
    var t := Next(s, Crash);
    RollingBackKeeps(d0, r, s, Crash);
    if t.disk.rollback != Absent {
      RollingBackKeeps(d0, r, t, StartRollback);
      RunOutRollsBack(d0, r, Next(t, StartRollback));
    }
  }

  lemma MovedStays(d0: Disk, r: RollbackRequest, ss: seq<Sys>, as': seq<Action>, k: nat)
    requires ReadyToRollBack(d0, r) && RollbackInterrupted(d0, ss, as') && k < |as'|
    ensures RollbackCommits(ss[k], as'[k]) ==> ss[k + 1].disk.current == Good(r.rollback) != d0.current
    ensures ss[k].disk.current != d0.current ==>
      ss[k + 1].disk.current == ss[k].disk.current && !RollbackCommits(ss[k], as'[k])
  {
    RollbackInterruptedKeeps(d0, r, ss, as', k);
    assert StepAt(ss, as', k);
    RollingBackKeeps(d0, r, ss[k], as'[k]);
  }

  /** However the replays go, the selector moves once. */
  lemma {:induction false} RollbackCommitsOnce(d0: Disk, r: RollbackRequest, ss: seq<Sys>, as': seq<Action>, i: nat, j: nat)
    requires ReadyToRollBack(d0, r) && RollbackInterrupted(d0, ss, as') && i < j < |as'|
    requires RollbackCommits(ss[i], as'[i])
    ensures !RollbackCommits(ss[j], as'[j]) && ss[j].disk.current == Good(r.rollback) != d0.current
    decreases j - i
  {
    if i + 1 < j { RollbackCommitsOnce(d0, r, ss, as', i, j - 1); }
    MovedStays(d0, r, ss, as', j - 1);
    MovedStays(d0, r, ss, as', j);
  }

  // ---- The startup report -------------------------------------------------------------

  datatype Status = Failed | RolledBack | Applied

  datatype Outcome = Outcome(operation: string, status: Status, version: string)

  /** The newest usable record that says something about the running version, newest first. */
  function StartupOutcome(history: seq<Item>, running: string, mark: Option<LaunchMark>): Option<Outcome> {
    if history == [] then None
    else
      var last := history[|history| - 1];
      match last
      case Junk(_) => StartupOutcome(history[..|history| - 1], running, mark)
      case Entry(operation, version, success, _) =>
        if !success then Some(Outcome(operation, Failed, version))
        else if mark == Some(LaunchMark(STARTUP_CRASH_ROLLBACK, version, Some(running))) then
          Some(Outcome(operation, RolledBack, running))
        else if version == running then Some(Outcome(operation, Applied, running))
        else StartupOutcome(history[..|history| - 1], running, mark)
  }

  function MarkOf(d: Disk): Option<LaunchMark> { if d.failedLaunch.Good? then Some(d.failedLaunch.value) else None }

  /** What the restarted agent reports; unreadable files read as empty. */
  function ReportOf(d: Disk, running: string): Option<Outcome> {
    StartupOutcome(if d.history.Good? then d.history.value else [], running, MarkOf(d))
  }

  /** The record says nothing about the running version: it has no operation, or is a success of
      another version that no rollback to the running one followed. */
  ghost predicate Silent(x: Item, running: string, mark: Option<LaunchMark>) {
    x.Junk? || (x.success && x.version != running && mark != Some(LaunchMark(STARTUP_CRASH_ROLLBACK, x.version, Some(running))))
  }

  /** What a record that is not silent says: a failure is reported with the version that failed; a
      success with the running version, as rolled back if the marker says so. */
  ghost predicate Says(x: Item, running: string, mark: Option<LaunchMark>, o: Outcome) {
    && x.Entry? && o.operation == x.operation
    && (if !x.success then o.status == Failed && o.version == x.version
        else if mark == Some(LaunchMark(STARTUP_CRASH_ROLLBACK, x.version, Some(running))) then o.status == RolledBack && o.version == running
        else x.version == running && o.status == Applied && o.version == running)
  }

  ghost predicate NewestToSay(h: seq<Item>, i: nat, running: string, mark: Option<LaunchMark>, o: Outcome) {
    i < |h| && Says(h[i], running, mark, o) && forall k | i < k < |h| :: Silent(h[k], running, mark)
  }

  /** The report is what the newest record that is not silent says, and there is none exactly if all
      are silent. */
  lemma {:induction false} ReportExactly(h: seq<Item>, running: string, mark: Option<LaunchMark>, o: Outcome)
    ensures StartupOutcome(h, running, mark) == Some(o) <==> exists i :: NewestToSay(h, i, running, mark, o)
    ensures StartupOutcome(h, running, mark) == None <==> forall i | 0 <= i < |h| :: Silent(h[i], running, mark)
  {
    if h != [] {
      var (n, before) := (|h| - 1, h[..|h| - 1]);
      ReportExactly(before, running, mark, o);
      if Silent(h[n], running, mark) {
        forall i: nat ensures NewestToSay(h, i, running, mark, o) <==> NewestToSay(before, i, running, mark, o) {
          NewestBefore(h, i, running, mark, o);
        }
        forall i | 0 <= i < n ensures h[i] == before[i] {}
      } else if Says(h[n], running, mark, o) {
        assert NewestToSay(h, n, running, mark, o);
      } else {
        forall i: nat ensures !NewestToSay(h, i, running, mark, o) {
          NotTheNewest(h, i, running, mark, o);
        }
      }
    }
  }

  lemma NotTheNewest(h: seq<Item>, i: nat, running: string, mark: Option<LaunchMark>, o: Outcome)
    requires h != [] && !Silent(h[|h| - 1], running, mark) && !Says(h[|h| - 1], running, mark, o)
    ensures !NewestToSay(h, i, running, mark, o)
  {
  }

  lemma NewestBefore(h: seq<Item>, i: nat, running: string, mark: Option<LaunchMark>, o: Outcome)
    requires h != [] && Silent(h[|h| - 1], running, mark)
    ensures NewestToSay(h, i, running, mark, o) <==> NewestToSay(h[..|h| - 1], i, running, mark, o)
  {
    var (n, before) := (|h| - 1, h[..|h| - 1]);
    forall k | 0 <= k < n ensures h[k] == before[k] {}
    if i == n {
      assert !Says(h[n], running, mark, o);
    }
  }

  /** A failure that is the newest usable record is reported whatever runs and whatever marker lies there. */
  lemma FailureReported(h: seq<Item>, i: nat, running: string, mark: Option<LaunchMark>)
    requires i < |h| && h[i].Entry? && !h[i].success && forall k | i < k < |h| :: h[k].Junk?
    ensures StartupOutcome(h, running, mark) == Some(Outcome(h[i].operation, Failed, h[i].version))
  {
    var o := Outcome(h[i].operation, Failed, h[i].version);
    ReportExactly(h, running, mark, o);
    assert NewestToSay(h, i, running, mark, o);
  }

  /** Records without an operation never hide an older one. */
  lemma {:induction false} JunkSkipped(h: seq<Item>, i: nat, running: string, mark: Option<LaunchMark>)
    requires i < |h| && forall k | i < k < |h| :: h[k].Junk?
    ensures StartupOutcome(h, running, mark) == StartupOutcome(h[..i + 1], running, mark)
  {
    if i + 1 == |h| {
      assert h[..i + 1] == h;
    } else {
      var before := h[..|h| - 1];
      JunkSkipped(before, i, running, mark);
      assert before[..i + 1] == h[..i + 1];
    }
  }

  /** Installer and reporter agree on an update, however often it died: once the new version runs,
      the report is this operation, applied, whatever stale marker an older rollback left - unless
      that marker claims a rollback from this very version to itself, which no writer produces. */
  lemma UpdateReported(d0: Disk, req: Request, m: Manifest, cur: Selector, ss: seq<Sys>, as': seq<Action>)
    requires Ready(d0, req, m, cur) && Interrupted(d0, ss, as')
    ensures var d := Rerun(ss[|ss| - 1]).disk;
      && d.current == Good(SelectorOf(m))
      && (ReportOf(d, m.version) == Some(Outcome(req.operation, Applied, req.version))
          <==> MarkOf(d0) != Some(LaunchMark(STARTUP_CRASH_ROLLBACK, req.version, Some(req.version))))
  {
    UpdateSurvivesCrashes(d0, req, m, cur, ss, as');
    BundleMatches(d0, req, m);
    RecordedOnce(d0.history, SuccessEntry(req, m, cur));
  }

  /** The record at `i` installed `version`, and nothing usable was recorded since. */
  ghost predicate InstalledLast(h: Leaf<seq<Item>>, i: nat, operation: string, version: string) {
    && h.Good? && i < |h.value|
    && h.value[i].Entry? && h.value[i].success && h.value[i].operation == operation && h.value[i].version == version
    && forall k | i < k < |h.value| :: h.value[k].Junk?
  }

  /** And on a rollback, however often it died: if the newest usable record is the update that is
      being rolled back, the report is that operation, rolled back to the version now running. */
  lemma RollbackReported(d0: Disk, r: RollbackRequest, operation: string, i: nat, ss: seq<Sys>, as': seq<Action>)
    requires ReadyToRollBack(d0, r) && RollbackInterrupted(d0, ss, as')
    requires InstalledLast(d0.history, i, operation, r.crashed.version)
    ensures var d := RerunRollback(ss[|ss| - 1]).disk;
      && d.current == Good(r.rollback)
      && ReportOf(d, r.rollback.version) == Some(Outcome(operation, RolledBack, r.rollback.version))
  {
    RollbackSurvivesCrashes(d0, r, ss, as');
    var (h, mark) := (d0.history.value, Some(RolledBackMark(r)));
    JunkSkipped(h, i, r.rollback.version, mark);
    assert h[..i + 1][i] == h[i];
  }

  // ---- The launcher's part ------------------------------------------------------------

  /** How far the launcher got before the root service stopped it; its own two writes, unlike the
      request, are not atomic. */
  datatype Progress = AfterRequest | DuringHistory | AfterHistory | DuringMark | AfterMark

  /** The request, a history record without an operation, and a marker that is not yet terminal. */
  function LauncherAsks(d: Disk, r: RollbackRequest, p: Progress): Disk {
    var asked := d.(rollback := Good(r));
    var noted := asked.(history := Good(LastOnes((if d.history.Good? then d.history.value else []) + [Junk(None)], 100)));
    match p
    case AfterRequest => asked
    case DuringHistory => asked.(history := Bad)
    case AfterHistory => noted
    case DuringMark => noted.(failedLaunch := Bad)
    case AfterMark =>
      noted.(failedLaunch := Good(LaunchMark(STARTUP_CRASH_ROLLBACK_REQUESTED, r.crashed.version, Some(r.rollback.version))))
  }

  lemma AskedStillInstalled(d: Disk, r: RollbackRequest, p: Progress, operation: string, version: string) returns (i: nat)
    requires d.history.Good? && 0 < |d.history.value| <= 100 && p != DuringHistory
    requires InstalledLast(d.history, |d.history.value| - 1, operation, version)
    ensures InstalledLast(LauncherAsks(d, r, p).history, i, operation, version)
  {
    var h := d.history.value;
    var h' := LauncherAsks(d, r, p).history.value;
    if p == AfterRequest {
      i := |h| - 1;
    } else {
      i := |h'| - 2;
      assert h'[i] == h[|h| - 1] && h'[i + 1] == Junk(None);
    }
  }

  lemma AskedIsReady(d0: Disk, req: Request, m: Manifest, cur: Selector, p: Progress)
    requires Ready(d0, req, m, cur)
    ensures var (d1, r) := (Updated(d0, req, m, cur), RollbackRequest(SelectorOf(m), cur));
      && ReadyToRollBack(LauncherAsks(d1, r, p), r)
      && 0 < |d1.history.value| <= 100
      && InstalledLast(d1.history, |d1.history.value| - 1, req.operation, m.version)
  {
    BundleMatches(d0, req, m);
    RecordedOnce(d0.history, SuccessEntry(req, m, cur));
    OtherTree(d0.trees, Installed(d0, m), cur, m.version);
  }

  lemma AskedReported(d: Disk, r: RollbackRequest, p: Progress, operation: string, ts: seq<Sys>, bs: seq<Action>)
    requires d.history.Good? && 0 < |d.history.value| <= 100
    requires InstalledLast(d.history, |d.history.value| - 1, operation, r.crashed.version)
    requires ReadyToRollBack(LauncherAsks(d, r, p), r) && RollbackInterrupted(LauncherAsks(d, r, p), ts, bs)
    ensures var d' := RerunRollback(ts[|ts| - 1]).disk;
      && d'.current == Good(r.rollback)
      && (ReportOf(d', r.rollback.version) == Some(Outcome(operation, RolledBack, r.rollback.version)) <==> p != DuringHistory)
  {
    var d2 := LauncherAsks(d, r, p);
    if p == DuringHistory {
      RollbackSurvivesCrashes(d2, r, ts, bs);
    } else {
      var i := AskedStillInstalled(d, r, p, operation, r.crashed.version);
      RollbackReported(d2, r, operation, i, ts, bs);
    }
  }

  /** An update, then the rollback the launcher asks for, each dying any number of times, and the
      launcher stopped at any point after its request: the original release runs again, and the
      report is that operation, rolled back to it, exactly unless the launcher was stopped in the
      middle of rewriting the history. */
  lemma UpdateThenRollbackReported(d0: Disk, req: Request, m: Manifest, cur: Selector, ss: seq<Sys>, as': seq<Action>,
                                   p: Progress, ts: seq<Sys>, bs: seq<Action>)
    requires Ready(d0, req, m, cur) && Interrupted(d0, ss, as')
    requires RollbackInterrupted(LauncherAsks(Rerun(ss[|ss| - 1]).disk, RollbackRequest(SelectorOf(m), cur), p), ts, bs)
    ensures var d := RerunRollback(ts[|ts| - 1]).disk;
      && d.current == d0.current
      && (ReportOf(d, cur.version) == Some(Outcome(req.operation, RolledBack, cur.version)) <==> p != DuringHistory)
  {
    UpdateSurvivesCrashes(d0, req, m, cur, ss, as');
    AskedIsReady(d0, req, m, cur, p);
    AskedReported(Updated(d0, req, m, cur), RollbackRequest(SelectorOf(m), cur), p, req.operation, ts, bs);
  }
}
