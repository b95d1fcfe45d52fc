/** What an activation of the worker does, said in terms of the files alone: which bundles and
    releases are accepted, and how each kind of request ends. */
module AltOutcomes {
  import opened Activity
  import opened AltWorker
  import opened AltSafety
  import opened AltRecovery

  // ---- Acceptance ---------------------------------------------------------------------

  /** The layout with a launcher beside the agent. */
  ghost predicate LauncherLayout(files: map<string, File>) {
    && "launcher" in files && "pc_agent/pc_agent" in files
    && (forall f | f in files :: f == "launcher" || "pc_agent/" <= f)
    && (forall f | f in files :: files[f].mode == if f == "launcher" || f == "pc_agent/pc_agent" then 493 else 420)
  }

  /** The layout of the agent alone. */
  ghost predicate HeadlessLayout(files: map<string, File>) {
    && "endpoint-agent/endpoint-agent" in files
    && (forall f | f in files :: "endpoint-agent/" <= f)
    && (forall f | f in files :: files[f].mode == if f == "endpoint-agent/endpoint-agent" then 493 else 420)
  }

  /** The directory holds its manifest and exactly the files that lists, in one of the two layouts,
      programs with mode 0755 and everything else with mode 0644. */
  ghost predicate CompleteRelease(tree: Tree, m: Manifest) {
    tree.manifest == Some(m) && tree.files == m.files && (LauncherLayout(m.files) || HeadlessLayout(m.files))
  }

  lemma NotInside(f: string)
    requires f == "launcher" || f == "pc_agent/pc_agent"
    ensures !("endpoint-agent/" <= f)
  {
    assert f[0] != "endpoint-agent/"[0];
  }

  lemma LayoutsExactly(files: map<string, File>)
    ensures WellShaped(files) <==> LauncherLayout(files) || HeadlessLayout(files)
  {
    NotInside("launcher");
    NotInside("pc_agent/pc_agent");
    assert "endpoint-agent/endpoint-agent"[0] != "launcher"[0] && "endpoint-agent/endpoint-agent"[0] != "pc_agent/"[0];
  }

  lemma CompleteExactly(tree: Tree, m: Manifest)
    ensures Matches(tree, m) <==> CompleteRelease(tree, m)
  {
    LayoutsExactly(m.files);
  }

  /** The selector names a complete release with its own version and revision. */
  ghost predicate Verified(trees: map<string, Tree>, s: Selector) {
    s.version in trees && exists m :: CompleteRelease(trees[s.version], m) && m.version == s.version && m.revision == s.revision
  }

  lemma VerifiedExactly(trees: map<string, Tree>, s: Selector)
    ensures Selects(trees, s) <==> Verified(trees, s)
  {
    if s.version in trees && trees[s.version].manifest.Some? {
      CompleteExactly(trees[s.version], trees[s.version].manifest.value);
    }
  }

  /** The request's artifact was downloaded with the request's digest, and unpacks to a complete
      release of the request's version. */
  ghost predicate Offered(d: Disk, req: Request, m: Manifest) {
    && req.artifact in d.downloads && d.downloads[req.artifact].digest == req.digest
    && CompleteRelease(d.downloads[req.artifact].content, m) && m.version == req.version
  }

  /** A bundle is accepted exactly if it is offered so. */
  lemma AcceptedExactly(d: Disk, req: Request, m: Manifest)
    ensures Bundle(d, req) == Some(m) <==> Offered(d, req, m)
  {
    if req.artifact in d.downloads && d.downloads[req.artifact].content.manifest.Some? {
      CompleteExactly(d.downloads[req.artifact].content, d.downloads[req.artifact].content.manifest.value);
    }
  }

  // ---- How an update ends -------------------------------------------------------------

  function UpdateEnd(d: Disk): Sys { RunOut(Sys(d, Begin, d.current, false)) }

  lemma Steps(s: Sys)
    requires !Resting(s.pc)
    ensures RunOut(s) == RunOut(Next(s, Step))
  {
  }

  /** Without a usable request the request is set aside, and nothing else moves. */
  lemma UnusableRequestEnds(d: Disk)
    requires !d.pending.Good?
    ensures var r := UpdateEnd(d);
      r.pc == Returned(false, "") && r.disk == d.(pending := Absent, failedUpdate := Good(InvalidPending))
  {
    var s := Sys(d, Begin, d.current, false);
    Steps(s);
    RejectEnds(Next(s, Step));
  }

  lemma RejectEnds(s: Sys)
    requires s.pc.Reject?
    ensures RunOut(s).pc == Returned(false, "") && RunOut(s).disk == s.disk.(pending := Absent, failedUpdate := Good(s.pc.mark))
  {
    var s1 := Next(s, Step);
    var s2 := Next(s1, Step);
    Steps(s);
    Steps(s1);
    Steps(s2);
  }

  /** The worker gives a request up: nothing is offered that it may install, the running release is
      not verified, or the running release itself is not what is offered under its version. */
  ghost predicate Refused(d: Disk, req: Request) {
    || (forall m :: !Offered(d, req, m))
    || !d.current.Good? || !Verified(d.trees, d.current.value)
    || (d.current.value.version == req.version
        && forall m | Offered(d, req, m) :: !CompleteRelease(d.trees[req.version], m))
  }

  lemma RefusedExactly(d: Disk, req: Request)
    ensures AfterChecks(d, req) == FailHistory(req) <==> Refused(d, req)
  {
    forall m ensures Bundle(d, req) == Some(m) <==> Offered(d, req, m) {
      AcceptedExactly(d, req, m);
    }
    if d.current.Good? { VerifiedExactly(d.trees, d.current.value); }
    if Bundle(d, req).Some? {
      var m := Bundle(d, req).value;
      if m.version in d.trees { CompleteExactly(d.trees[m.version], m); }
      if d.current.Good? && Verified(d.trees, d.current.value) && d.current.value.version == req.version {
        OneVersionOffered(d, req, m);
      }
    }
  }

  lemma OneVersionOffered(d: Disk, req: Request, m: Manifest)
    requires Offered(d, req, m)
    ensures forall m' | Offered(d, req, m') :: m' == m
  {
  }

  /** A refused request leaves both selectors and every release as they were, leaves a failure record
      and the reason, and is gone. */
  lemma RefusedEnds(d: Disk, req: Request)
    requires d.pending == Good(req) && Refused(d, req)
    ensures var r := UpdateEnd(d);
      && r.pc == Returned(false, "")
      && r.disk == d.(history := r.disk.history, pending := Absent, failedUpdate := Good(InvalidPending))
      && r.disk.history == Good(Recorded(d.history, Entry(req.operation, req.version, false, None)))
  {
    var s := Sys(d, Begin, d.current, false);
    RefusedExactly(d, req);
    Steps(s);
    var s1 := Next(s, Step);
    Steps(s1);
    FailEnds(Next(s1, Step), req);
  }

  lemma FailEnds(s: Sys, req: Request)
    requires s.pc == FailHistory(req)
    ensures RunOut(s).pc == Returned(false, "")
    ensures RunOut(s).disk == s.disk.(history := Good(Recorded(s.disk.history, Entry(req.operation, req.version, false, None))),
                                      pending := Absent, failedUpdate := Good(InvalidPending))
    decreases s.disk.history.Bad?
  {
    Steps(s);
    var s1 := Next(s, Step);
    if s.disk.history.Bad? { FailEnds(s1, req); } else { RejectEnds(s1); }
  }

  /** No download at the requested path with the requested digest: refused. */
  lemma WrongDigestEnds(d: Disk, req: Request)
    requires d.pending == Good(req)
    requires req.artifact in d.downloads ==> d.downloads[req.artifact].digest != req.digest
    ensures var r := UpdateEnd(d);
      && r.pc == Returned(false, "") && r.disk.current == d.current && r.disk.previous == d.previous && r.disk.trees == d.trees
      && r.disk.pending == Absent && r.disk.failedUpdate == Good(InvalidPending)
      && r.disk.history.Good? && |r.disk.history.value| > 0
      && r.disk.history.value[|r.disk.history.value| - 1] == Entry(req.operation, req.version, false, None)
  {
    RefusedEnds(d, req);
    RecordedOnce(d.history, Entry(req.operation, req.version, false, None));
  }

  lemma FinishEnds(s: Sys, req: Request, m: Manifest, prev: Selector)
    requires s.pc == History(req, m, prev)
    ensures RunOut(s).pc == Returned(true, m.version)
    ensures RunOut(s).disk == s.disk.(history := Good(Recorded(s.disk.history, Entry(req.operation, m.version, true, Some(prev.version)))),
                                      pending := Absent)
    decreases s.disk.history.Bad?
  {
    Steps(s);
    var s1 := Next(s, Step);
    if s.disk.history.Bad? { FinishEnds(s1, req, m, prev); } else { Steps(s1); }
  }

  /** Up to the point at which the candidate's directory is in place. */
  lemma PlacedEnds(d: Disk, req: Request, m: Manifest)
    requires d.pending == Good(req) && Offered(d, req, m) && !Refused(d, req)
    ensures UpdateEnd(d) == RunOut(Sys(d.(trees := Installed(d, m)), Select(req, m, d.current.value), d.current, false))
  {
    var s := Sys(d, Begin, d.current, false);
    RefusedExactly(d, req);
    AcceptedExactly(d, req, m);
    CompleteExactly(Tree(Some(m), m.files), m);
    if m.version in d.trees { CompleteExactly(d.trees[m.version], m); }
    Steps(s);
    var s1 := Next(s, Step);
    Steps(s1);
    PlaceEnds(Next(s1, Step), d, req, m);
  }

  lemma PlaceEnds(s: Sys, d: Disk, req: Request, m: Manifest)
    requires s.disk == d && d.current.Good? && s.entry == d.current && !s.rolledBack
    requires s.pc == if m.version !in d.trees then Place(req, m, d.current.value)
                     else if d.trees[m.version] == Tree(Some(m), m.files) then Select(req, m, d.current.value)
                     else Quarantine(req, m, d.current.value)
    ensures RunOut(s) == RunOut(Sys(d.(trees := Installed(d, m)), Select(req, m, d.current.value), d.current, false))
  {
    if s.pc.Select? {
      assert Installed(d, m) == d.trees;
    } else {
      Steps(s);
      var s1 := Next(s, Step);
      if s.pc.Quarantine? {
        Steps(s1);
        assert (d.trees - {m.version})[m.version := Tree(Some(m), m.files)] == Installed(d, m);
      }
    }
  }

  /** A release other than the running one: installed and selected, the old selector kept as
      `previous`, success recorded, the request gone. */
  lemma NewReleaseEnds(d: Disk, req: Request, m: Manifest)
    requires d.pending == Good(req) && Offered(d, req, m) && !Refused(d, req)
    requires d.current.value != Selector(m.version, m.revision) && !d.previous.Bad?
    ensures var r := UpdateEnd(d);
      && r.pc == Returned(true, req.version)
      && r.disk == d.(current := Good(Selector(m.version, m.revision)), previous := d.current, pending := Absent,
                      trees := d.trees[req.version := Tree(Some(m), m.files)], history := r.disk.history)
      && r.disk.history == Good(Recorded(d.history, Entry(req.operation, req.version, true, Some(d.current.value.version))))
  {
    PlacedEnds(d, req, m);
    var s := Sys(d.(trees := Installed(d, m)), Select(req, m, d.current.value), d.current, false);
    Steps(s);
    var s1 := Next(s, Step);
    Steps(s1);
    FinishEnds(Next(s1, Step), req, m, d.current.value);
  }

  /** An unreadable `previous` stops it once the release is in place; the request stays. */
  lemma UnreadablePreviousEnds(d: Disk, req: Request, m: Manifest)
    requires d.pending == Good(req) && Offered(d, req, m) && !Refused(d, req)
    requires d.current.value != Selector(m.version, m.revision) && d.previous.Bad?
    ensures UpdateEnd(d).pc == Returned(false, "")
    ensures UpdateEnd(d).disk == d.(trees := d.trees[req.version := Tree(Some(m), m.files)])
  {
    PlacedEnds(d, req, m);
    Steps(Sys(d.(trees := Installed(d, m)), Select(req, m, d.current.value), d.current, false));
  }

  /** The running release again, a replay: recorded if `previous` names another verified release, and
      otherwise rejected as inconsistent without a record.  Selectors and releases stay. */
  lemma ReplayEnds(d: Disk, req: Request, m: Manifest)
    requires d.pending == Good(req) && Offered(d, req, m) && !Refused(d, req)
    requires d.current.value == Selector(m.version, m.revision)
    ensures var r := UpdateEnd(d);
      if d.previous.Good? && d.previous.value != d.current.value && Verified(d.trees, d.previous.value) then
        && r.pc == Returned(true, req.version) && r.disk == d.(history := r.disk.history, pending := Absent)
        && r.disk.history == Good(Recorded(d.history, Entry(req.operation, req.version, true, Some(d.previous.value.version))))
      else
        && r.pc == Returned(false, "")
        && r.disk == d.(pending := Absent, failedUpdate := Good(InvalidReplay(req.operation, req.version)))
  {
    PlacedEnds(d, req, m);
    RunningIsInstalled(d, req, m);
    var s := Sys(d, Select(req, m, d.current.value), d.current, false);
    if d.previous.Good? { VerifiedExactly(d.trees, d.previous.value); }
    Steps(s);
    var s1 := Next(s, Step);
    if s1.pc.History? { FinishEnds(s1, req, m, d.previous.value); } else { RejectEnds(s1); }
  }

  lemma RunningIsInstalled(d: Disk, req: Request, m: Manifest)
    requires d.pending == Good(req) && Offered(d, req, m) && !Refused(d, req)
    requires d.current.value == Selector(m.version, m.revision)
    ensures d.(trees := Installed(d, m)) == d
  {
    assert CompleteRelease(d.trees[req.version], m);
    assert d.trees[req.version] == Tree(Some(m), m.files);
    assert Installed(d, m) == d.trees;
  }

  // ---- How a rollback ends ------------------------------------------------------------

  function RollbackEnd(d: Disk): Sys { RunOut(Sys(d, RollBegin, d.current, false)) }

  /** The request names the running release as crashed, or was already carried out, and `previous`,
      another version and verified, as the one to return to. */
  ghost predicate RollbackAllowed(d: Disk) {
    && d.rollback.Good? && d.current.Good? && d.previous.Good?
    && d.rollback.value.crashed.version != d.rollback.value.rollback.version
    && d.previous.value == d.rollback.value.rollback && Verified(d.trees, d.previous.value)
    && (d.current.value == d.rollback.value.crashed || d.current.value == d.rollback.value.rollback)
  }

  /** Exactly then the selector returns, the marker names both versions, and request and `previous`
      are gone; otherwise the request alone is set aside. */
  lemma RollbackEnds(d: Disk)
    ensures var r := RollbackEnd(d);
      if RollbackAllowed(d) then
        var q := d.rollback.value;
        && r.pc == RollReturned(true)
        && r.disk == d.(current := Good(q.rollback), previous := Absent, rollback := Absent,
                        failedLaunch := Good(LaunchMark(STARTUP_CRASH_ROLLBACK, q.crashed.version, Some(q.rollback.version))))
      else
        && r.pc == RollReturned(false) && r.disk == d.(rollback := Absent, failedRollback := Good(()))
  {
    var s := Sys(d, RollBegin, d.current, false);
    if d.previous.Good? { VerifiedExactly(d.trees, d.previous.value); }
    Steps(s);
    var s1 := Next(s, Step);
    if s1.pc.RollCommit? {
      Steps(s1);
      MarkEnds(Next(s1, Step));
    } else if s1.pc.RollMark? {
      MarkEnds(s1);
    } else {
      RollRejectEnds(s1);
    }
  }

  lemma MarkEnds(s: Sys)
    requires s.pc.RollMark?
    ensures var q := s.pc.request;
      RunOut(s).disk == s.disk.(failedLaunch := Good(LaunchMark(STARTUP_CRASH_ROLLBACK, q.crashed.version, Some(q.rollback.version))),
                                rollback := Absent, previous := Absent)
    ensures RunOut(s).pc == RollReturned(true)
  {
    var s1 := Next(s, Step);
    var s2 := Next(s1, Step);
    Steps(s);
    Steps(s1);
    Steps(s2);
  }

  lemma RollRejectEnds(s: Sys)
    requires s.pc.RollReject?
    ensures RunOut(s).disk == s.disk.(rollback := Absent, failedRollback := Good(())) && RunOut(s).pc == RollReturned(false)
  {
    var s1 := Next(s, Step);
    var s2 := Next(s1, Step);
    Steps(s);
    Steps(s1);
    Steps(s2);
  }

  // ---- I/O errors ---------------------------------------------------------------------

  /** If the selector cannot be written, `previous` is put back: nothing but the candidate's
      directory has changed, and the request stays for the next activation. */
  lemma CommitErrorIsUndone(s: Sys)
    requires s.pc.Select? && !s.disk.previous.Bad? && s.pc.cur != SelectorOf(s.pc.m)
    ensures var s1 := Next(s, Step);
      s1.pc.Commit? && RunOut(Next(s1, Fault)).disk == s.disk && RunOut(Next(s1, Fault)).pc == Returned(false, "")
  {
    var s2 := Next(Next(s, Step), Fault);
    Steps(s2);
    assert Next(s2, Step).disk == s.disk;
  }

  /** An error before the candidate's directory is in place gives the request up with a record. */
  lemma EarlyErrorIsRecorded(s: Sys)
    requires s.pc.Check? || s.pc.Quarantine? || s.pc.Place?
    ensures var (r, req) := (RunOut(Next(s, Fault)), s.pc.req);
      r.pc == Returned(false, "")
      && r.disk == s.disk.(history := Good(Recorded(s.disk.history, Entry(req.operation, req.version, false, None))),
                           pending := Absent, failedUpdate := Good(InvalidPending))
  {
    FailEnds(Next(s, Fault), s.pc.req);
  }

  /** After the commit an error reports success all the same and keeps the request for a replay. */
  lemma LateErrorStillSucceeds(s: Sys)
    requires s.pc.History? || s.pc.Unlink?
    ensures var r := Next(s, Fault); r.disk == s.disk && r.pc == Returned(true, if s.pc.History? then s.pc.m.version else s.pc.version)
  {
  }

  /** An error in a rollback: before the selector moved it rejects the request; while the marker or
      the request is being written it keeps the request, to be finished later; at the last removal
      it no longer matters. */
  lemma RollbackErrors(s: Sys)
    requires s.pc.RollBegin? || s.pc.RollCommit? || s.pc.RollMark? || s.pc.RollUnlink? || s.pc.RollDrop?
    ensures var r := RunOut(Next(s, Fault));
      if s.pc.RollBegin? || s.pc.RollCommit? then
        r.pc == RollReturned(false) && r.disk == s.disk.(rollback := Absent, failedRollback := Good(()))
      else r.disk == s.disk && r.pc == RollReturned(s.pc.RollDrop?)
  {
    if s.pc.RollBegin? || s.pc.RollCommit? { RollRejectEnds(Next(s, Fault)); }
  }

  // ---- Over runs: nothing is installed that was not offered ---------------------------

  /** The point of an update at which it has a bundle to install, and that bundle. */
  ghost predicate Installing(pc: Pc, req: Request, m: Manifest) {
    || (pc.Quarantine? && pc.req == req && pc.m == m) || (pc.Place? && pc.req == req && pc.m == m)
    || (pc.Select? && pc.req == req && pc.m == m) || (pc.Commit? && pc.req == req && pc.m == m)
  }

  /** At an earlier point `j` of the run the worker checked this request and its download. */
  ghost predicate OfferedAt(ss: seq<Sys>, j: nat, i: nat, req: Request, m: Manifest) {
    j < i < |ss| && ss[j].pc == Check(req) && Offered(ss[j].disk, req, m)
  }

  lemma InstallingStep(s: Sys, a: Action, req: Request, m: Manifest)
    requires Enabled(s, a) && Installing(Next(s, a).pc, req, m)
    ensures Installing(s.pc, req, m) || (a.Step? && s.pc == Check(req) && Offered(s.disk, req, m))
  {
    if a.Step? && s.pc.Check? { AcceptedExactly(s.disk, s.pc.req, m); }
  }

  lemma {:induction false} InstallsOnlyOffered(ss: seq<Sys>, as': seq<Action>, i: nat, req: Request, m: Manifest) returns (j: nat)
    requires Run(ss, as') && i < |ss| && Installing(ss[i].pc, req, m)
    ensures OfferedAt(ss, j, i, req, m)
  {
    j := 0;
    if i > 0 {
      assert StepAt(ss, as', i - 1);
      InstallingStep(ss[i - 1], as'[i - 1], req, m);
      if Installing(ss[i - 1].pc, req, m) {
        j := InstallsOnlyOffered(ss, as', i - 1, req, m);
      } else {
        j := i - 1;
      }
    }
  }

  /** In every run a directory that changes other than by being set aside becomes exactly the content
      of a download that had the digest its request asked for. */
  lemma PlacedWasDownloaded(ss: seq<Sys>, as': seq<Action>, i: nat, v: string) returns (j: nat, req: Request, m: Manifest)
    requires Run(ss, as') && i < |as'| && v in ss[i + 1].disk.trees
    requires v !in ss[i].disk.trees || ss[i + 1].disk.trees[v] != ss[i].disk.trees[v]
    ensures OfferedAt(ss, j, i, req, m) && v == req.version == m.version
    ensures ss[i + 1].disk.trees[v] == ss[j].disk.downloads[req.artifact].content
  {
    assert StepAt(ss, as', i);
    req, m := ss[i].pc.req, ss[i].pc.m;
    j := InstallsOnlyOffered(ss, as', i, req, m);
  }

  /** And a newly selected release is complete, and was downloaded with that digest. */
  lemma SelectedWasDownloaded(ss: seq<Sys>, as': seq<Action>, i: nat) returns (j: nat, req: Request, m: Manifest)
    requires Run(ss, as') && i < |as'| && UpdateCommits(ss[i], as'[i])
    ensures OfferedAt(ss, j, i, req, m) && ss[i + 1].disk.current == Good(Selector(m.version, m.revision)) && m.version == req.version
    ensures m.version in ss[i + 1].disk.trees && CompleteRelease(ss[i + 1].disk.trees[m.version], m)
    ensures ss[i + 1].disk.trees[m.version] == ss[j].disk.downloads[req.artifact].content
  {
    assert StepAt(ss, as', i);
    RunKeeps(ss, as', i);
    req, m := ss[i].pc.req, ss[i].pc.m;
    j := InstallsOnlyOffered(ss, as', i, req, m);
    CompleteExactly(ss[i].disk.trees[m.version], m);
  }
}
