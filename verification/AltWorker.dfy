/** The privileged update and rollback worker as a machine of atomic file operations.  A step
    performs at most one write; it may succeed, fail with an I/O error, or never happen because
    the process died. */
module AltWorker {
  import opened Activity

  // ---- What is on disk ----------------------------------------------------------------

  /** A file that may be missing, unusable, or hold a value. */
  datatype Leaf<+T> = Absent | Bad | Good(value: T)

  datatype Selector = Selector(version: string, revision: string)

  datatype File = File(digest: nat, mode: nat)

  datatype Manifest = Manifest(version: string, revision: string, files: map<string, File>)

  /** A release directory: its manifest, if readable, and every other regular file. */
  datatype Tree = Tree(manifest: Option<Manifest>, files: map<string, File>)

  /** A downloaded archive: the digest of its bytes and what it unpacks to. */
  datatype Archive = Archive(digest: nat, content: Tree)

  datatype Request = Request(operation: string, version: string, artifact: string, digest: nat)

  datatype RollbackRequest = RollbackRequest(crashed: Selector, rollback: Selector)

  /** A history record; `Junk` stands for anything the startup reporter cannot use. */
  datatype Item = Junk(about: Option<string>) | Entry(operation: string, version: string, success: bool, previous: Option<string>)

  datatype Reason = STARTUP_CRASH_ROLLBACK | STARTUP_CRASH_ROLLBACK_REQUESTED | STARTUP_CRASH

  datatype LaunchMark = LaunchMark(reason: Reason, crashed: string, rollback: Option<string>)

  /** What the worker leaves for the startup reporter after a rollback. */
  function RolledBackMark(r: RollbackRequest): LaunchMark {
    LaunchMark(STARTUP_CRASH_ROLLBACK, r.crashed.version, Some(r.rollback.version))
  }

  datatype UpdateMark = InvalidPending | InvalidReplay(operation: string, version: string)

  datatype Disk = Disk(
    current: Leaf<Selector>, previous: Leaf<Selector>, trees: map<string, Tree>,
    pending: Leaf<Request>, downloads: map<string, Archive>, history: Leaf<seq<Item>>, failedUpdate: Leaf<UpdateMark>,
    rollback: Leaf<RollbackRequest>, failedLaunch: Leaf<LaunchMark>, failedRollback: Leaf<()>)

  /** The leaves only root may write. */
  predicate SameAuthority(d: Disk, e: Disk) {
    d.current == e.current && d.previous == e.previous && d.trees == e.trees
  }

  // ---- Verification -------------------------------------------------------------------

  const LAUNCHER: string := "launcher"
  const AGENT: string := "pc_agent/pc_agent"
  const HEADLESS: string := "endpoint-agent/endpoint-agent"

  predicate Under(prefix: string, path: string) { prefix <= path }

  predicate Legacy(files: map<string, File>) { LAUNCHER in files && AGENT in files }

  /** Exactly one of the two known layouts, executables and data files with their fixed modes. */
  predicate WellShaped(files: map<string, File>) {
    var legacy := Legacy(files) && forall f | f in files :: f == LAUNCHER || Under("pc_agent/", f);
    var headless := HEADLESS in files && forall f | f in files :: Under("endpoint-agent/", f);
    legacy != headless
    && forall f | f in files ::
         files[f].mode == if f in (if Legacy(files) then {LAUNCHER, AGENT} else {HEADLESS}) then 0x1ED else 0x1A4
  }

  /** The directory holds exactly the manifest and the files it lists. */
  predicate Matches(tree: Tree, m: Manifest) {
    WellShaped(m.files) && tree == Tree(Some(m), m.files)
  }

  /** The release a selector names is present, matches its own manifest, and has its revision. */
  predicate Selects(trees: map<string, Tree>, s: Selector) {
    s.version in trees && trees[s.version].manifest.Some?
    && var m := trees[s.version].manifest.value;
    m.version == s.version && m.revision == s.revision && Matches(trees[s.version], m)
  }

  /** The validated content of the requested archive. */
  function Bundle(d: Disk, r: Request): Option<Manifest> {
    if r.artifact in d.downloads && d.downloads[r.artifact].digest == r.digest then
      var c := d.downloads[r.artifact].content;
      if c.manifest.Some? && c.manifest.value.version == r.version && Matches(c, c.manifest.value) then c.manifest else None
    else None
  }

  function SelectorOf(m: Manifest): Selector { Selector(m.version, m.revision) }

  // ---- History ------------------------------------------------------------------------

  function OperationOf(i: Item): Option<string> {
    match i case Junk(o) => o case Entry(o, _, _, _) => Some(o)
  }

  function Without(h: seq<Item>, operation: string): seq<Item> {
    if h == [] then []
    else Without(h[..|h| - 1], operation) + if OperationOf(h[|h| - 1]) == Some(operation) then [] else [h[|h| - 1]]
  }

  function LastOnes<T>(s: seq<T>, n: nat): seq<T> { if |s| <= n then s else s[|s| - n..] }

  /** Replace this operation's record and keep at most a hundred. */
  function Recorded(h: Leaf<seq<Item>>, e: Item): seq<Item>
    requires e.Entry?
  {
    LastOnes(Without(if h.Good? then h.value else [], e.operation), 99) + [e]
  }

  // ---- The machine --------------------------------------------------------------------

  /** Where an activation of the worker stands, with the values it has read. */
  datatype Pc =
    | Idle
    | Begin
    | Check(req: Request)
    | Quarantine(req: Request, m: Manifest, cur: Selector)
    | Place(req: Request, m: Manifest, cur: Selector)
    | Select(req: Request, m: Manifest, cur: Selector)
    | Commit(req: Request, m: Manifest, cur: Selector, prior: Leaf<Selector>)
    | Restore(prior: Leaf<Selector>)
    | History(req: Request, m: Manifest, prev: Selector)
    | Unlink(version: string)
    | FailHistory(req: Request)
    | Reject(mark: UpdateMark)
    | ClearMark(mark: UpdateMark)
    | WriteMark(mark: UpdateMark)
    | Returned(ok: bool, version: string)
    | RollBegin
    | RollCommit(request: RollbackRequest)
    | RollMark(request: RollbackRequest)
    | RollUnlink
    | RollDrop
    | RollReject
    | RollClearMark
    | RollWriteMark
    | RollReturned(done: bool)

  /** `entry` is the selector the activation started from; `rolledBack` tells that the last change
      of the selector was a rollback. */
  datatype Sys = Sys(disk: Disk, pc: Pc, entry: Leaf<Selector>, rolledBack: bool)

  predicate Resting(pc: Pc) { pc.Idle? || pc.Returned? || pc.RollReturned? }

  /** All checks between loading the request and the first write of an update. */
  function AfterChecks(d: Disk, req: Request): Pc {
    var bundle := Bundle(d, req);
    if bundle.None? || !d.current.Good? || !Selects(d.trees, d.current.value) then FailHistory(req)
    else
      var (m, cur) := (bundle.value, d.current.value);
      if m.version !in d.trees then Place(req, m, cur)
      else if Matches(d.trees[m.version], m) then Select(req, m, cur)
      else if cur.version == m.version then FailHistory(req)
      else Quarantine(req, m, cur)
  }

  /** A replay finds its own selector committed and must find the one it replaced. */
  predicate ReplayConsistent(d: Disk, candidate: Selector) {
    d.previous.Good? && d.previous.value != candidate && Selects(d.trees, d.previous.value)
  }

  /** One step of an update that succeeds. */
  function UpdateStep(d: Disk, pc: Pc): (Disk, Pc) {
    match pc
    case Begin => (d, if d.pending.Good? then Check(d.pending.value) else Reject(InvalidPending))
    case Check(req) => (d, AfterChecks(d, req))
    case Quarantine(req, m, cur) => (d.(trees := d.trees - {m.version}), Place(req, m, cur))
    case Place(req, m, cur) => (d.(trees := d.trees[m.version := Tree(Some(m), m.files)]), Select(req, m, cur))
    case Select(req, m, cur) =>
      if cur == SelectorOf(m) then
        if ReplayConsistent(d, cur) then (d, History(req, m, d.previous.value))
        else (d, Reject(InvalidReplay(req.operation, req.version)))
      else if d.previous.Bad? then (d, Returned(false, ""))
      else (d.(previous := Good(cur)), Commit(req, m, cur, d.previous))
    case Commit(req, m, cur, prior) => (d.(current := Good(SelectorOf(m))), History(req, m, cur))
    case Restore(prior) => (d.(previous := prior), Returned(false, ""))
    case History(req, m, prev) =>
      if d.history.Bad? then (d.(history := Absent), pc)
      else (d.(history := Good(Recorded(d.history, Entry(req.operation, m.version, true, Some(prev.version))))), Unlink(m.version))
    case Unlink(v) => (d.(pending := Absent), Returned(true, v))
    case FailHistory(req) =>
      if d.history.Bad? then (d.(history := Absent), pc)
      else (d.(history := Good(Recorded(d.history, Entry(req.operation, req.version, false, None)))), Reject(InvalidPending))
    case Reject(mark) => (d.(pending := Absent), ClearMark(mark))
    case ClearMark(mark) => (d.(failedUpdate := Absent), WriteMark(mark))
    case WriteMark(mark) => (d.(failedUpdate := Good(mark)), Returned(false, ""))
    case _ => (d, pc)
  }

  /** Where an I/O error at this point leads; the step's write did not happen. */
  function UpdateFault(pc: Pc): Pc {
    match pc
    case Begin => Reject(InvalidPending)
    case Check(req) => FailHistory(req)
    case Quarantine(req, m, cur) => FailHistory(req)
    case Place(req, m, cur) => FailHistory(req)
    case Select(req, m, cur) => Returned(false, "")
    case Commit(req, m, cur, prior) => Restore(prior)
    case Restore(prior) => Returned(false, "")
    case History(req, m, prev) => Returned(true, m.version)
    case Unlink(v) => Returned(true, v)
    case Reject(mark) => if mark.InvalidReplay? then Returned(false, "") else Idle
    case ClearMark(mark) => if mark.InvalidReplay? then Returned(false, "") else Idle
    case WriteMark(mark) => if mark.InvalidReplay? then Returned(false, "") else Idle
    case _ => Idle
  }

  predicate Authorized(d: Disk) {
    d.rollback.Good? && d.current.Good? && d.previous.Good?
    && var r := d.rollback.value;
    r.crashed.version != r.rollback.version && d.previous.value == r.rollback && Selects(d.trees, d.previous.value)
  }

  function RollStep(d: Disk, pc: Pc): (Disk, Pc) {
    match pc
    case RollBegin =>
      if !Authorized(d) then (d, RollReject)
      else
        var r := d.rollback.value;
        if d.current.value == r.crashed then (d, RollCommit(r))
        else if d.current.value == r.rollback then (d, RollMark(r))
        else (d, RollReject)
    case RollCommit(r) => (d.(current := Good(r.rollback)), RollMark(r))
    case RollMark(r) => (d.(failedLaunch := Good(RolledBackMark(r))), RollUnlink)
    case RollUnlink => (d.(rollback := Absent), RollDrop)
    case RollDrop => (d.(previous := Absent), RollReturned(true))
    case RollReject => (d.(rollback := Absent), RollClearMark)
    case RollClearMark => (d.(failedRollback := Absent), RollWriteMark)
    case RollWriteMark => (d.(failedRollback := Good(())), RollReturned(false))
    case _ => (d, pc)
  }

  function RollFault(pc: Pc): Pc {
    match pc
    case RollBegin => RollReject
    case RollCommit(r) => RollReject
    case RollDrop => RollReturned(true)
    case _ => RollReturned(false)
  }

  predicate IsRoll(pc: Pc) {
    pc.RollBegin? || pc.RollCommit? || pc.RollMark? || pc.RollUnlink? || pc.RollDrop?
    || pc.RollReject? || pc.RollClearMark? || pc.RollWriteMark? || pc.RollReturned?
  }

  datatype Action =
    | StartUpdate
    | StartRollback
    | Step
    | Fault
    | Crash
    /** The service account rewrites any of its own leaves. */
    | Service(disk: Disk)

  predicate Enabled(s: Sys, a: Action) {
    match a
    case StartUpdate => Resting(s.pc) && s.disk.pending != Absent
    case StartRollback => Resting(s.pc) && s.disk.rollback != Absent
    case Step => !Resting(s.pc)
    case Fault => !Resting(s.pc)
    case Crash => true
    case Service(d) => SameAuthority(d, s.disk)
  }

  function Next(s: Sys, a: Action): Sys
    requires Enabled(s, a)
  {
    match a
    case StartUpdate => s.(pc := Begin, entry := s.disk.current)
    case StartRollback => s.(pc := RollBegin, entry := s.disk.current)
    case Step =>
      var (d, pc) := if IsRoll(s.pc) then RollStep(s.disk, s.pc) else UpdateStep(s.disk, s.pc);
      Sys(d, pc, s.entry, if s.pc.RollCommit? then true else if s.pc.Commit? then false else s.rolledBack)
    case Fault => s.(pc := if IsRoll(s.pc) then RollFault(s.pc) else UpdateFault(s.pc))
    case Crash => s.(pc := Idle)
    case Service(d) => s.(disk := d)
  }
}
