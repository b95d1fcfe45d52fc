/** A refused update, however often it dies, is recorded once and reported as failed. */
module AltRefusals {
  import opened Activity
  import opened AltWorker
  import opened AltSafety
  import opened AltRecovery
  import opened AltOutcomes

  function FailureEntry(req: Request): Item { Entry(req.operation, req.version, false, None) }

  function FailureHistory(d0: Disk, req: Request): Leaf<seq<Item>> { Good(Recorded(d0.history, FailureEntry(req))) }

  /** The request is still there; at most its record has been written. */
  ghost predicate StillAsked(d0: Disk, req: Request, s: Sys) {
    && s.disk == d0.(history := s.disk.history)
    && (s.disk.history == d0.history || (d0.history.Bad? && s.disk.history == Absent) || s.disk.history == FailureHistory(d0, req))
    && match s.pc
       case Idle => true
       case Begin => true
       case Check(r) => r == req
       case FailHistory(r) => r == req
       case Reject(mark) => mark == InvalidPending && s.disk.history == FailureHistory(d0, req)
       case _ => false
  }

  /** The request is gone; only the reason may be missing. */
  ghost predicate SetAside(d0: Disk, req: Request, s: Sys) {
    && s.disk == d0.(history := FailureHistory(d0, req), pending := Absent, failedUpdate := s.disk.failedUpdate)
    && match s.pc
       case Idle => true
       case ClearMark(mark) => mark == InvalidPending
       case WriteMark(mark) => mark == InvalidPending
       case Returned(ok, v) => !ok
       case _ => false
  }

  ghost predicate GivingUp(d0: Disk, req: Request, s: Sys) { StillAsked(d0, req, s) || SetAside(d0, req, s) }

  lemma StillRefused(d0: Disk, req: Request, s: Sys)
    requires Refused(d0, req) && StillAsked(d0, req, s)
    ensures AfterChecks(s.disk, req) == FailHistory(req)
  {
    RefusedExactly(d0, req);
  }

  lemma RecordedAgain(d0: Disk, req: Request, h: Leaf<seq<Item>>)
    requires h == d0.history || (d0.history.Bad? && h == Absent) || h == FailureHistory(d0, req)
    ensures Recorded(h, FailureEntry(req)) == Recorded(d0.history, FailureEntry(req))
  {
    RecordedOnce(d0.history, FailureEntry(req));
  }

  lemma FailStep(d0: Disk, req: Request, s: Sys)
    requires d0.pending == Good(req) && StillAsked(d0, req, s) && s.pc == FailHistory(req)
    ensures StillAsked(d0, req, Next(s, Step))
  {
    RecordedAgain(d0, req, s.disk.history);
  }

  lemma CheckStep(d0: Disk, req: Request, s: Sys)
    requires d0.pending == Good(req) && Refused(d0, req) && StillAsked(d0, req, s) && s.pc == Check(req)
    ensures StillAsked(d0, req, Next(s, Step))
  {
    StillRefused(d0, req, s);
  }

  lemma BeginStep(d0: Disk, req: Request, s: Sys)
    requires d0.pending == Good(req) && StillAsked(d0, req, s) && s.pc == Begin
    ensures StillAsked(d0, req, Next(s, Step))
  {
  }

  lemma RejectStep(d0: Disk, req: Request, s: Sys)
    requires d0.pending == Good(req) && StillAsked(d0, req, s) && s.pc.Reject?
    ensures SetAside(d0, req, Next(s, Step))
  {
  }

  lemma StillAskedStep(d0: Disk, req: Request, s: Sys)
    requires d0.pending == Good(req) && Refused(d0, req) && StillAsked(d0, req, s) && !Resting(s.pc)
    ensures GivingUp(d0, req, Next(s, Step))
  {
    if s.pc.Begin? {
      BeginStep(d0, req, s);
    } else if s.pc.Check? {
      CheckStep(d0, req, s);
    } else if s.pc.FailHistory? {
      FailStep(d0, req, s);
    } else {
      RejectStep(d0, req, s);
    }
  }

  lemma StillAskedKeeps(d0: Disk, req: Request, s: Sys, a: Action)
    requires d0.pending == Good(req) && Refused(d0, req) && StillAsked(d0, req, s) && Enabled(s, a) && Interruption(a)
    ensures GivingUp(d0, req, Next(s, a))
  {
    if a.Step? { StillAskedStep(d0, req, s); }
  }

  lemma GivingUpKeeps(d0: Disk, req: Request, s: Sys, a: Action)
    requires d0.pending == Good(req) && Refused(d0, req) && GivingUp(d0, req, s) && Enabled(s, a) && Interruption(a)
    ensures GivingUp(d0, req, Next(s, a))
  {
    if StillAsked(d0, req, s) { StillAskedKeeps(d0, req, s, a); }
  }

  lemma {:induction false} InterruptedGivesUp(d0: Disk, req: Request, ss: seq<Sys>, as': seq<Action>, i: nat)
    requires d0.pending == Good(req) && Refused(d0, req) && Interrupted(d0, ss, as') && i < |ss|
    ensures GivingUp(d0, req, ss[i])
  {
    if i > 0 {
      InterruptedGivesUp(d0, req, ss, as', i - 1);
      assert StepAt(ss, as', i - 1);
      GivingUpKeeps(d0, req, ss[i - 1], as'[i - 1]);
    }
  }

  lemma {:induction false} GivenUp(d0: Disk, req: Request, s: Sys)
    requires d0.pending == Good(req) && Refused(d0, req) && GivingUp(d0, req, s) && s.pc != Idle
    ensures SetAside(d0, req, RunOut(s))
    decreases Rank(s)
  {
    if !Resting(s.pc) {
      StepDescends(s);
      GivingUpKeeps(d0, req, s, Step);
      StepNeverIdles(s);
      GivenUp(d0, req, Next(s, Step));
    }
  }

  /** After any number of crashes a rerun has set the request aside, with one failure record, and
      selectors and releases are as they were; and the restarted agent reports that failure, whatever
      version it runs and whatever marker an older rollback left. */
  lemma RefusalSurvivesCrashes(d0: Disk, req: Request, ss: seq<Sys>, as': seq<Action>, running: string)
    requires d0.pending == Good(req) && Refused(d0, req) && Interrupted(d0, ss, as')
    ensures var d := Rerun(ss[|ss| - 1]).disk;
      && d.current == d0.current && d.previous == d0.previous && d.trees == d0.trees && d.pending == Absent
      && d.history == Good(Recorded(d0.history, Entry(req.operation, req.version, false, None)))
      && ReportOf(d, running) == Some(Outcome(req.operation, Failed, req.version))
  {
    InterruptedGivesUp(d0, req, ss, as', |ss| - 1);
    GivesUpFrom(d0, req, ss[|ss| - 1]);
    var d := Rerun(ss[|ss| - 1]).disk;
    RecordedOnce(d0.history, FailureEntry(req));
    FailureReported(d.history.value, |d.history.value| - 1, running, MarkOf(d));
  }

  lemma GivesUpFrom(d0: Disk, req: Request, s: Sys)
    requires d0.pending == Good(req) && Refused(d0, req) && GivingUp(d0, req, s)
    ensures SetAside(d0, req, Rerun(s))
  {
    var t := Next(s, Crash);
    GivingUpKeeps(d0, req, s, Crash);
    if t.disk.pending != Absent {
      GivingUpKeeps(d0, req, t, StartUpdate);
      GivenUp(d0, req, Next(t, StartUpdate));
    }
  }
}
