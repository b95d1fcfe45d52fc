/** The worker's three entry points as they run undisturbed, updating the files in place; each
    ends where the step machine ends. */
module AltHost {
  import opened Activity
  import opened AltWorker
  import opened AltRecovery

  class Host {
    var current: Leaf<Selector>
    var previous: Leaf<Selector>
    var trees: map<string, Tree>
    var pending: Leaf<Request>
    var downloads: map<string, Archive>
    var history: Leaf<seq<Item>>
    var failedUpdate: Leaf<UpdateMark>
    var rollback: Leaf<RollbackRequest>
    var failedLaunch: Leaf<LaunchMark>
    var failedRollback: Leaf<()>

    function Contents(): Disk
      reads this
    {
      Disk(current, previous, trees, pending, downloads, history, failedUpdate, rollback, failedLaunch, failedRollback)
    }

    /** Replace this operation's record; an unusable history is set aside first. */
    method AppendHistory(e: Item)
      requires e.Entry?
      modifies this`history
      ensures history == Good(Recorded(old(history), e))
    {
      if history.Bad? { history := Absent; }
      history := Good(Recorded(history, e));
    }

    /** Set the request aside and leave the reason. */
    method RejectPending(mark: UpdateMark)
      modifies this`pending, this`failedUpdate
      ensures pending == Absent && failedUpdate == Good(mark)
    {
      pending := Absent;
      failedUpdate := Absent;
      failedUpdate := Good(mark);
    }

    /** The end of the machine's run from `s`. */
    ghost predicate EndsLike(s: Sys, ok: bool, version: string)
      reads this
    {
      RunOut(s).disk == Contents() && RunOut(s).pc == Returned(ok, version)
    }

    method FailUpdate(req: Request, ghost s: Sys)
      requires s.disk == Contents() && s.pc == FailHistory(req)
      modifies this`history, this`pending, this`failedUpdate
      ensures EndsLike(s, false, "")
    {
      AppendHistory(Entry(req.operation, req.version, false, None));
      RejectPending(InvalidPending);
      FailHistoryRuns(s);
    }

    method FinishUpdate(req: Request, m: Manifest, prev: Selector, ghost s: Sys)
      requires s.disk == Contents() && s.pc == History(req, m, prev)
      modifies this`history, this`pending
      ensures EndsLike(s, true, m.version)
    {
      AppendHistory(Entry(req.operation, m.version, true, Some(prev.version)));
      pending := Absent;
      HistoryRuns(s);
    }

    /** Publish the candidate's selector, or recognise that this was already done. */
    method SelectCandidate(req: Request, m: Manifest, cur: Selector, ghost s: Sys) returns (ok: bool, version: string)
      requires s.disk == Contents() && s.pc == Select(req, m, cur)
      modifies this`current, this`previous, this`history, this`pending, this`failedUpdate
      ensures EndsLike(s, ok, version)
    {
      RunOutUnfolds(s);
      var candidate := SelectorOf(m);
      if cur == candidate {
        if previous.Good? && previous.value != candidate && Selects(trees, previous.value) {
          FinishUpdate(req, m, previous.value, Next(s, Step));
          return true, m.version;
        }
        RejectPending(InvalidReplay(req.operation, req.version));
        RejectRuns(Next(s, Step));
        return false, "";
      }
      if previous.Bad? { return false, ""; }
      previous := Good(cur);
      ghost var s1 := Next(s, Step);
      RunOutUnfolds(s1);
      current := Good(candidate);
      FinishUpdate(req, m, cur, Next(s1, Step));
      return true, m.version;
    }

    /** Put the candidate's directory in place, setting an unusable one of another release aside. */
    method InstallAndSelect(req: Request, m: Manifest, cur: Selector, ghost s: Sys) returns (ok: bool, version: string)
      requires s.disk == Contents()
      requires s.pc == if m.version !in trees then Place(req, m, cur)
                       else if Matches(trees[m.version], m) then Select(req, m, cur)
                       else if cur.version == m.version then FailHistory(req)
                       else Quarantine(req, m, cur)
      modifies this
      ensures EndsLike(s, ok, version)
    {
      RunOutUnfolds(s);
      ghost var t := s;
      if m.version in trees && !Matches(trees[m.version], m) {
        if cur.version == m.version {
          FailUpdate(req, s);
          return false, "";
        }
        trees := trees - {m.version};
        t := Next(s, Step);
        RunOutUnfolds(t);
      }
      if m.version !in trees {
        trees := trees[m.version := Tree(Some(m), m.files)];
        t := Next(t, Step);
      }
      ok, version := SelectCandidate(req, m, cur, t);
    }

    /** Publish one verified bundle without touching the prior selection on failure. */
    method ApplyAltUpdate() returns (ok: bool, version: string)
      modifies this
      ensures var r := RunOut(Sys(old(Contents()), Begin, old(current), false));
        r.disk == Contents() && r.pc == Returned(ok, version)
    {
      ghost var s0 := Sys(Contents(), Begin, current, false);
      RunOutUnfolds(s0);
      if !pending.Good? {
        RejectPending(InvalidPending);
        RejectRuns(Next(s0, Step));
        return false, "";
      }
      var req := pending.value;
      ghost var s := Next(s0, Step);
      RunOutUnfolds(s);
      s := Next(s, Step);
      var bundle := Bundle(Contents(), req);
      if bundle.None? || !current.Good? || !Selects(trees, current.value) {
        FailUpdate(req, s);
        return false, "";
      }
      ok, version := InstallAndSelect(req, bundle.value, current.value, s);
    }

    /** Ask for the one rollback root authority allows, if the identities are current. */
    method WriteAltRollbackRequest(crashedVersion: string) returns (asked: bool)
      modifies this`rollback
      ensures asked <==> current.Good? && previous.Good?
                         && current.value.version == crashedVersion && previous.value.version != crashedVersion
      ensures rollback == if asked then Good(RollbackRequest(current.value, previous.value)) else old(rollback)
      ensures asked && Selects(trees, previous.value) ==>
        ReadyToRollBack(Contents(), RollbackRequest(current.value, previous.value))
    {
      if !current.Good? || !previous.Good? { return false; }
      if current.value.version != crashedVersion || previous.value.version == crashedVersion { return false; }
      rollback := Good(RollbackRequest(current.value, previous.value));
      asked := true;
    }

    /** What the launcher does with a release that keeps crashing at startup. */
    method RequestRollback(crashedVersion: string) returns (asked: bool)
      modifies this`rollback, this`history, this`failedLaunch
      ensures asked <==> current.Good? && previous.Good?
                         && current.value.version == crashedVersion && previous.value.version != crashedVersion
      ensures asked ==>
        && rollback == Good(RollbackRequest(current.value, previous.value))
        && failedLaunch == Good(LaunchMark(STARTUP_CRASH_ROLLBACK_REQUESTED, crashedVersion, Some(previous.value.version)))
        && var h := if old(history).Good? then old(history).value else [];
        history == Good((if |h| < 100 then h else h[|h| - 99..]) + [Junk(None)])
      ensures Contents() == if asked then LauncherAsks(old(Contents()), RollbackRequest(current.value, previous.value), AfterMark)
                            else old(Contents())
    {
      asked := WriteAltRollbackRequest(crashedVersion);
      if asked {
        var h := if history.Good? then history.value else [];
        assert |h| >= 100 ==> (h + [Junk(None)])[|h| - 99..] == h[|h| - 99..] + [Junk(None)];
        history := Good(LastOnes(h + [Junk(None)], 100));
        failedLaunch := Good(LaunchMark(STARTUP_CRASH_ROLLBACK_REQUESTED, crashedVersion, Some(previous.value.version)));
      }
    }

    /** Leave the terminal marker, then remove the request and the spent selector. */
    method FinishRollback(r: RollbackRequest, ghost s: Sys)
      requires s.disk == Contents() && s.pc == RollMark(r)
      modifies this`failedLaunch, this`rollback, this`previous
      ensures RunOut(s).disk == Contents() && RunOut(s).pc == RollReturned(true)
    {
      RollMarkRuns(s);
      failedLaunch := Good(RolledBackMark(r));
      rollback := Absent;
      previous := Absent;
    }

    /** Set the request aside and leave the reason. */
    method RejectRollback(ghost s: Sys)
      requires s.disk == Contents() && s.pc == RollReject
      modifies this`rollback, this`failedRollback
      ensures RunOut(s).disk == Contents() && RunOut(s).pc == RollReturned(false)
    {
      RollRejectRuns(s);
      rollback := Absent;
      failedRollback := Absent;
      failedRollback := Good(());
    }

    /** Apply the fixed, root-mediated rollback request. */
    method ApplyAltRollback() returns (done: bool)
      modifies this
      ensures var r := RunOut(Sys(old(Contents()), RollBegin, old(current), false));
        r.disk == Contents() && r.pc == RollReturned(done)
    {
      ghost var s := Sys(Contents(), RollBegin, current, false);
      RunOutUnfolds(s);
      s := Next(s, Step);
      if !Authorized(Contents()) || (current.value != rollback.value.crashed && current.value != rollback.value.rollback) {
        RejectRollback(s);
        return false;
      }
      var r := rollback.value;
      if current.value == r.crashed {
        RunOutUnfolds(s);
        current := Good(r.rollback);
        s := Next(s, Step);
      }
      FinishRollback(r, s);
      done := true;
    }
  }

  // ---- Tails of the machine -----------------------------------------------------------

  lemma RunOutUnfolds(s: Sys)
    ensures !Resting(s.pc) ==> RunOut(s) == RunOut(Next(s, Step))
    ensures Resting(s.pc) ==> RunOut(s) == s
    ensures !Resting(s.pc) && Resting(Next(s, Step).pc) ==> RunOut(s) == Next(s, Step)
  {
  }

  lemma RejectRuns(s: Sys)
    requires s.pc.Reject?
    ensures RunOut(s).disk == s.disk.(pending := Absent, failedUpdate := Good(s.pc.mark))
    ensures RunOut(s).pc == Returned(false, "")
  {
    var s1 := Next(s, Step);
    var s2 := Next(s1, Step);
    RunOutUnfolds(s);
    RunOutUnfolds(s1);
    RunOutUnfolds(s2);
  }

  lemma FailRecordRuns(s: Sys)
    requires s.pc.FailHistory? && !s.disk.history.Bad?
    ensures var e := Entry(s.pc.req.operation, s.pc.req.version, false, None);
      RunOut(s).disk == s.disk.(history := Good(Recorded(s.disk.history, e)), pending := Absent, failedUpdate := Good(InvalidPending))
    ensures RunOut(s).pc == Returned(false, "")
  {
    RunOutUnfolds(s);
    RejectRuns(Next(s, Step));
  }

  lemma FailHistoryRuns(s: Sys)
    requires s.pc.FailHistory?
    ensures var e := Entry(s.pc.req.operation, s.pc.req.version, false, None);
      RunOut(s).disk == s.disk.(history := Good(Recorded(s.disk.history, e)), pending := Absent, failedUpdate := Good(InvalidPending))
    ensures RunOut(s).pc == Returned(false, "")
  {
    if s.disk.history.Bad? {
      RunOutUnfolds(s);
      FailRecordRuns(Next(s, Step));
    } else {
      FailRecordRuns(s);
    }
  }

  lemma UnlinkRuns(s: Sys)
    requires s.pc.Unlink?
    ensures RunOut(s) == s.(disk := s.disk.(pending := Absent), pc := Returned(true, s.pc.version))
  {
    RunOutUnfolds(s);
  }

  lemma RecordRuns(s: Sys)
    requires s.pc.History? && !s.disk.history.Bad?
    ensures var e := Entry(s.pc.req.operation, s.pc.m.version, true, Some(s.pc.prev.version));
      RunOut(s).disk == s.disk.(history := Good(Recorded(s.disk.history, e)), pending := Absent)
    ensures RunOut(s).pc == Returned(true, s.pc.m.version)
  {
    RunOutUnfolds(s);
    UnlinkRuns(Next(s, Step));
  }

  lemma HistoryRuns(s: Sys)
    requires s.pc.History?
    ensures var e := Entry(s.pc.req.operation, s.pc.m.version, true, Some(s.pc.prev.version));
      RunOut(s).disk == s.disk.(history := Good(Recorded(s.disk.history, e)), pending := Absent)
    ensures RunOut(s).pc == Returned(true, s.pc.m.version)
  {
    if s.disk.history.Bad? {
      RunOutUnfolds(s);
      RecordRuns(Next(s, Step));
    } else {
      RecordRuns(s);
    }
  }

  lemma RollRejectRuns(s: Sys)
    requires s.pc.RollReject?
    ensures RunOut(s).disk == s.disk.(rollback := Absent, failedRollback := Good(()))
    ensures RunOut(s).pc == RollReturned(false)
  {
    var s1 := Next(s, Step);
    var s2 := Next(s1, Step);
    RunOutUnfolds(s);
    RunOutUnfolds(s1);
    RunOutUnfolds(s2);
  }

  lemma RollMarkRuns(s: Sys)
    requires s.pc.RollMark?
    ensures var r := s.pc.request;
      RunOut(s).disk == s.disk.(failedLaunch := Good(RolledBackMark(r)),
                                rollback := Absent, previous := Absent)
    ensures RunOut(s).pc == RollReturned(true)
  {
    var s1 := Next(s, Step);
    var s2 := Next(s1, Step);
    RunOutUnfolds(s);
    RunOutUnfolds(s1);
    RunOutUnfolds(s2);
  }
}
