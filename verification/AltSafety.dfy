/** Safety of the ALT worker over every run: crashes and I/O errors between any two writes, and a
    service account rewriting its own files at any time. */
module AltSafety {
  import opened Activity
  import opened AltWorker

  ghost predicate Running(d: Disk) { d.current.Good? && Selects(d.trees, d.current.value) }

  /** What the values read by the activation still say about the disk. */
  ghost predicate PcInv(d: Disk, pc: Pc) {
    match pc
    case Quarantine(req, m, cur) =>
      d.current == Good(cur) && m.version == req.version && m.version != cur.version && WellShaped(m.files)
    case Place(req, m, cur) =>
      d.current == Good(cur) && m.version == req.version && m.version != cur.version && WellShaped(m.files)
    case Select(req, m, cur) =>
      d.current == Good(cur) && m.version == req.version && m.version in d.trees && Matches(d.trees[m.version], m)
    case Commit(req, m, cur, prior) =>
      d.current == Good(cur) && m.version == req.version && m.version in d.trees && Matches(d.trees[m.version], m)
      && cur != SelectorOf(m) && d.previous == Good(cur) && !prior.Bad?
    case Restore(prior) => !prior.Bad?
    case History(req, m, prev) => d.current == Good(SelectorOf(m)) && m.version == req.version
    case Unlink(v) => d.current.Good? && d.current.value.version == v
    case Returned(ok, v) => ok ==> d.current.Good? && d.current.value.version == v
    case RollCommit(r) =>
      d.current == Good(r.crashed) && d.previous == Good(r.rollback) && Selects(d.trees, r.rollback)
      && r.crashed.version != r.rollback.version
    case RollMark(r) => d.current == Good(r.rollback) && d.previous == d.current && r.crashed.version != r.rollback.version
    case RollUnlink => d.previous == d.current
    case RollDrop => d.previous == d.current
    case _ => true
  }

  /** The points of an update at which the selector is still the one the activation found. */
  predicate BeforeCommit(pc: Pc) {
    pc.Begin? || pc.Check? || pc.Quarantine? || pc.Place? || pc.Select? || pc.Commit? || pc.Restore?
    || pc.FailHistory? || pc.Reject? || pc.ClearMark? || pc.WriteMark? || (pc.Returned? && !pc.ok)
    || pc.RollBegin? || pc.RollCommit? || pc.RollReject? || pc.RollClearMark? || pc.RollWriteMark?
  }

  /** After a rollback nothing but the running release can be rolled back to. */
  ghost predicate NothingToRollBackTo(d: Disk, previous: Leaf<Selector>) {
    previous == Absent || previous == d.current
  }

  ghost predicate RollbackInv(s: Sys) {
    s.rolledBack ==>
      && NothingToRollBackTo(s.disk, s.disk.previous)
      && (s.pc.Commit? ==> NothingToRollBackTo(s.disk, s.pc.prior))
      && (s.pc.Restore? ==> NothingToRollBackTo(s.disk, s.pc.prior))
  }

  ghost predicate Sound(s: Sys) {
    Running(s.disk) && PcInv(s.disk, s.pc) && (BeforeCommit(s.pc) ==> s.disk.current == s.entry)
  }

  ghost predicate Inv(s: Sys) { Sound(s) && RollbackInv(s) }

  ghost predicate Init(s: Sys) { Running(s.disk) && s.pc.Idle? && !s.rolledBack }

  lemma CheckedPc(d: Disk, req: Request)
    requires Running(d)
    ensures PcInv(d, AfterChecks(d, req)) && BeforeCommit(AfterChecks(d, req))
    ensures !AfterChecks(d, req).Commit? && !AfterChecks(d, req).Restore?
  {
  }

  /** Changing the tree of another version leaves the selected release as it is. */
  lemma OtherTree(trees: map<string, Tree>, trees': map<string, Tree>, s: Selector, v: string)
    requires Selects(trees, s) && v != s.version
    requires s.version in trees' && trees'[s.version] == trees[s.version]
    ensures Selects(trees', s)
  {
  }

  lemma MatchedIsSelected(trees: map<string, Tree>, m: Manifest)
    requires m.version in trees && Matches(trees[m.version], m)
    ensures Selects(trees, SelectorOf(m))
  {
  }

  lemma TreeStepSound(s: Sys)
    requires Sound(s) && Enabled(s, Step) && (s.pc.Quarantine? || s.pc.Place?)
    ensures Sound(Next(s, Step))
  {
    var (m, cur, trees) := (s.pc.m, s.pc.cur, s.disk.trees);
    if s.pc.Quarantine? {
      OtherTree(trees, trees - {m.version}, cur, m.version);
    } else {
      OtherTree(trees, trees[m.version := Tree(Some(m), m.files)], cur, m.version);
    }
  }

  lemma SelectorStepSound(s: Sys)
    requires Sound(s) && Enabled(s, Step) && (s.pc.Select? || s.pc.Commit? || s.pc.Restore?)
    ensures Sound(Next(s, Step))
  {
    if s.pc.Commit? { MatchedIsSelected(s.disk.trees, s.pc.m); }
  }

  lemma QuietStepSound(s: Sys)
    requires Sound(s) && Enabled(s, Step) && !IsRoll(s.pc)
    requires !s.pc.Quarantine? && !s.pc.Place? && !s.pc.Select? && !s.pc.Commit? && !s.pc.Restore?
    ensures Sound(Next(s, Step))
  {
    if s.pc.Check? { CheckedPc(s.disk, s.pc.req); }
  }

  lemma RollDecisionSound(s: Sys)
    requires Sound(s) && Enabled(s, Step) && (s.pc.RollBegin? || s.pc.RollCommit?)
    ensures Sound(Next(s, Step))
  {
  }

  lemma RollCleanupSound(s: Sys)
    requires Sound(s) && IsRoll(s.pc) && Enabled(s, Step) && !s.pc.RollBegin? && !s.pc.RollCommit?
    ensures Sound(Next(s, Step))
  {
    var s' := Next(s, Step);
    assert s'.disk.current == s.disk.current && s'.disk.trees == s.disk.trees;
  }

  lemma StepRollback(s: Sys)
    requires Sound(s) && RollbackInv(s) && Enabled(s, Step)
    ensures RollbackInv(Next(s, Step))
  {
    if s.pc.Check? { CheckedPc(s.disk, s.pc.req); }
  }

  lemma StepSound(s: Sys)
    requires Sound(s) && Enabled(s, Step)
    ensures Sound(Next(s, Step))
  {
    if IsRoll(s.pc) {
      if s.pc.RollBegin? || s.pc.RollCommit? { RollDecisionSound(s); } else { RollCleanupSound(s); }
    } else if s.pc.Quarantine? || s.pc.Place? {
      TreeStepSound(s);
    } else if s.pc.Select? || s.pc.Commit? || s.pc.Restore? {
      SelectorStepSound(s);
    } else {
      QuietStepSound(s);
    }
  }

  lemma OtherActionKeeps(s: Sys, a: Action)
    requires Inv(s) && Enabled(s, a) && !a.Step?
    ensures Inv(Next(s, a))
  {
  }

  lemma NextKeeps(s: Sys, a: Action)
    requires Inv(s) && Enabled(s, a)
    ensures Inv(Next(s, a))
  {
    if a.Step? {
      StepSound(s);
      StepRollback(s);
    } else {
      OtherActionKeeps(s, a);
    }
  }

  ghost predicate StepAt(ss: seq<Sys>, as': seq<Action>, i: nat)
    requires |ss| == |as'| + 1 && i < |as'|
  {
    Enabled(ss[i], as'[i]) && ss[i + 1] == Next(ss[i], as'[i])
  }

  ghost predicate Run(ss: seq<Sys>, as': seq<Action>) {
    && |ss| == |as'| + 1 && Init(ss[0])
    && forall i: nat | i < |as'| :: StepAt(ss, as', i)
  }

  lemma {:induction false} RunKeeps(ss: seq<Sys>, as': seq<Action>, i: nat)
    requires Run(ss, as') && i < |ss|
    ensures Inv(ss[i])
  {
    if i > 0 {
      RunKeeps(ss, as', i - 1);
      assert StepAt(ss, as', i - 1);
      NextKeeps(ss[i - 1], as'[i - 1]);
    }
  }

  // ---- What every run shows -----------------------------------------------------------

  /** In every reachable state, mid-crash states included, `current` names a release directory
      that matches its manifest; and the next step, whatever it is, leaves that directory alone. */
  lemma SelectedReleaseIsSafe(ss: seq<Sys>, as': seq<Action>, i: nat)
    requires Run(ss, as') && i < |ss|
    ensures ss[i].disk.current.Good? && Selects(ss[i].disk.trees, ss[i].disk.current.value)
    ensures i < |as'| ==>
      var v := ss[i].disk.current.value.version;
      v in ss[i + 1].disk.trees && ss[i + 1].disk.trees[v] == ss[i].disk.trees[v]
  {
    RunKeeps(ss, as', i);
    assert i < |as'| ==> StepAt(ss, as', i);
  }

  /** An update that returns false left the selector as it found it; one that returns true left
      the requested version selected. */
  lemma ReturnValueIsTrue(ss: seq<Sys>, as': seq<Action>, i: nat)
    requires Run(ss, as') && i < |ss| && ss[i].pc.Returned?
    ensures if ss[i].pc.ok then ss[i].disk.current.Good? && ss[i].disk.current.value.version == ss[i].pc.version
            else ss[i].disk.current == ss[i].entry
  {
    RunKeeps(ss, as', i);
  }

  predicate UpdateCommits(s: Sys, a: Action) { s.pc.Commit? && a.Step? }
  predicate RollbackCommits(s: Sys, a: Action) { s.pc.RollCommit? && a.Step? }

  /** The selector changes only by an update commit, to the verified candidate, or by a rollback
      commit, from the release the request calls crashed to the verified previous one. */
  lemma SelectorChangesOnlyAtCommits(ss: seq<Sys>, as': seq<Action>, i: nat)
    requires Run(ss, as') && i < |as'| && ss[i + 1].disk.current != ss[i].disk.current
    ensures UpdateCommits(ss[i], as'[i]) || RollbackCommits(ss[i], as'[i])
    ensures UpdateCommits(ss[i], as'[i]) ==>
      ss[i + 1].disk.current == Good(SelectorOf(ss[i].pc.m)) && ss[i + 1].disk.previous == ss[i].disk.current
    ensures RollbackCommits(ss[i], as'[i]) ==>
      && ss[i].disk.current == Good(ss[i].pc.request.crashed)
      && ss[i + 1].disk.current == ss[i].disk.previous == Good(ss[i].pc.request.rollback)
  {
    RunKeeps(ss, as', i);
    assert StepAt(ss, as', i);
  }

  lemma RollbackNeedsUpdate(s: Sys)
    requires Inv(s) && s.pc.RollCommit?
    ensures !s.rolledBack
  {
  }

  lemma {:induction false} StaysRolledBack(ss: seq<Sys>, as': seq<Action>, i: nat, j: nat)
    requires Run(ss, as') && i <= j < |ss| && ss[i].rolledBack
    requires forall k | i <= k < j :: !UpdateCommits(ss[k], as'[k])
    ensures ss[j].rolledBack
    decreases j - i
  {
    if i < j {
      StaysRolledBack(ss, as', i, j - 1);
      assert StepAt(ss, as', j - 1);
    }
  }

  /** Between any two rollback commits there is an update commit: a machine never walks back
      twice from one update. */
  lemma RollbacksAreSeparated(ss: seq<Sys>, as': seq<Action>, i: nat, j: nat)
    requires Run(ss, as') && i < j < |as'|
    requires RollbackCommits(ss[i], as'[i]) && RollbackCommits(ss[j], as'[j])
    ensures exists k :: i < k < j && UpdateCommits(ss[k], as'[k])
  {
    RunKeeps(ss, as', j);
    RollbackNeedsUpdate(ss[j]);
    assert StepAt(ss, as', i);
    if forall k | i < k < j :: !UpdateCommits(ss[k], as'[k]) {
      StaysRolledBack(ss, as', i + 1, j);
    }
  }
}
